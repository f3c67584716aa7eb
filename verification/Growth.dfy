/** How a parser may change a tree: it adds nodes, and hangs them below one place. */
module Growth {
  import opened Bytes
  import opened Node

  /** Everything about an existing node but its links to children and siblings. */
  ghost predicate Same(t0: Tree, t1: Tree, x: NodeId)
    requires x < |t0.nodes| <= |t1.nodes| && x < |t0.level| && x < |t1.level|
  {
    && t0.Kind(x) == t1.Kind(x) && t0.Parent(x) == t1.Parent(x)
    && t0.level[x] == t1.level[x] && t0.nodes[x].data == t1.nodes[x].data
  }

  /** `t1` extends `t0`: existing nodes keep their payload, parent, depth and
      children, except that `e` may have gained children after the ones it had. */
  ghost predicate Grown(t0: Tree, t1: Tree, e: NodeId) {
    && t0.Valid() && t1.Valid() && e < |t0.nodes| <= |t1.nodes|
    && (forall x :: 0 <= x < |t0.nodes| ==> Same(t0, t1, x))
    && (forall x :: 0 <= x < |t0.nodes| && x != e ==> t0.kids[x] == t1.kids[x])
    && t0.kids[e] <= t1.kids[e]
  }

  lemma GrownTrans(t0: Tree, t1: Tree, t2: Tree, e: NodeId, f: NodeId)
    requires Grown(t0, t1, e) && Grown(t1, t2, f)
    requires f == e || f >= |t0.nodes|
    ensures Grown(t0, t2, e)
  {
    forall x | 0 <= x < |t0.nodes| ensures Same(t0, t2, x) {
      assert Same(t0, t1, x) && Same(t1, t2, x);
    }
  }

  /** A new node hangs below `e` or below another new node, or nowhere. */
  lemma NewParents(t0: Tree, t1: Tree, e: NodeId, c: NodeId)
    requires Grown(t0, t1, e) && |t0.nodes| <= c < |t1.nodes| && t1.Parent(c).Some?
    ensures t1.Parent(c).value < |t1.nodes|
    ensures t1.Parent(c).value == e || t1.Parent(c).value >= |t0.nodes|
  {
    t1.ParentOf(c);
    var p := t1.Parent(c).value;
    if p < |t0.nodes| && p != e {
      t0.KidOf(p, c);
    }
  }

  lemma {:induction false} UnderGrown(t0: Tree, t1: Tree, e: NodeId, x: NodeId, a: NodeId)
    requires Grown(t0, t1, e) && x < |t0.nodes| && a < |t0.nodes|
    ensures t0.Under(x, a) <==> t1.Under(x, a)
    decreases t0.level[x]
  {
    assert Same(t0, t1, x);
    if x != a && t0.Parent(x).Some? {
      t0.ParentOf(x);
      assert t0.UpOk(x);
      UnderGrown(t0, t1, e, t0.Parent(x).value, a);
    }
  }

  // ----- single steps -----

  function WithNode(t: Tree, kind: NodeType): Tree {
    Tree(t.nodes + [Node(kind, NoLinks, true, NoData)], t.kids + [[]], t.level + [0])
  }

  lemma WithNodeGrows(t: Tree, kind: NodeType)
    requires t.Valid()
    ensures WithNode(t, kind).Valid()
    ensures forall e :: 0 <= e < |t.nodes| ==> Grown(t, WithNode(t, kind), e)
    ensures EdgesOk(t) ==> EdgesOk(WithNode(t, kind))
  {
    var u := WithNode(t, kind);
    if EdgesOk(t) {
      forall c | 0 <= c < |u.nodes| && u.Parent(c).Some?
        ensures u.Parent(c).value < |u.nodes| && EdgeOk(u.Kind(u.Parent(c).value), u.Kind(c))
      {
        assert c < |t.nodes| && u.nodes[c] == t.nodes[c] && t.Parent(c).Some?;
      }
    }
    forall x | 0 <= x < |u.nodes| ensures u.KidsOk(x) && u.UpOk(x) {
      if x < |t.nodes| {
        assert t.KidsOk(x) && t.UpOk(x);
        forall k: nat | k < |u.kids[x]| ensures u.KidOk(x, k) { assert t.KidOk(x, k); }
      }
    }
  }

  ghost predicate SameLinks(t: Tree, u: Tree) {
    && t.kids == u.kids && t.level == u.level && |t.nodes| == |u.nodes|
    && (forall x :: 0 <= x < |t.nodes| ==> t.nodes[x].links == u.nodes[x].links && t.nodes[x].kind == u.nodes[x].kind)
  }

  lemma SameLinksValid(t: Tree, u: Tree)
    requires t.Valid() && SameLinks(t, u)
    ensures u.Valid()
    ensures EdgesOk(t) ==> EdgesOk(u)
  {
    if EdgesOk(t) {
      forall c | 0 <= c < |u.nodes| && u.Parent(c).Some?
        ensures u.Parent(c).value < |u.nodes| && EdgeOk(u.Kind(u.Parent(c).value), u.Kind(c))
      {
        assert t.Parent(c).Some?;
      }
    }
    forall x | 0 <= x < |u.nodes| ensures u.KidsOk(x) && u.UpOk(x) {
      assert t.KidsOk(x) && t.UpOk(x);
      forall k: nat | k < |u.kids[x]| ensures u.KidOk(x, k) { assert t.KidOk(x, k); }
    }
  }

  function WithData(t: Tree, id: NodeId, d: Data): Tree
    requires id < |t.nodes|
  {
    t.(nodes := t.nodes[id := t.nodes[id].(data := d)])
  }

  function Closed(t: Tree, id: NodeId): Tree
    requires id < |t.nodes|
  {
    t.(nodes := t.nodes[id := t.nodes[id].(open := false)])
  }

  lemma ClosedGrows(t: Tree, id: NodeId)
    requires t.Valid() && id < |t.nodes|
    ensures SameLinks(t, Closed(t, id)) && Closed(t, id).Valid()
    ensures EdgesOk(t) ==> EdgesOk(Closed(t, id))
    ensures forall e :: 0 <= e < |t.nodes| ==> Grown(t, Closed(t, id), e)
  {
    SameLinksValid(t, Closed(t, id));
  }

  lemma DataGrows(t0: Tree, t: Tree, e: NodeId, id: NodeId, d: Data)
    requires Grown(t0, t, e) && |t0.nodes| <= id < |t.nodes|
    ensures SameLinks(t, WithData(t, id, d)) && WithData(t, id, d).Valid()
    ensures Grown(t0, WithData(t, id, d), e)
    ensures EdgesOk(t) ==> EdgesOk(WithData(t, id, d))
  {
    SameLinksValid(t, WithData(t, id, d));
    forall x | 0 <= x < |t0.nodes| ensures Same(t0, WithData(t, id, d), x) { assert Same(t0, t, x); }
  }

  /** An old node is never below a node that did not exist yet. */
  lemma {:induction false} OldNotUnderNew(t0: Tree, t: Tree, e: NodeId, x: NodeId, c: NodeId)
    requires Grown(t0, t, e) && x < |t0.nodes| <= c < |t.nodes|
    ensures !t.Under(x, c)
    decreases t0.level[x]
  {
    assert Same(t0, t, x);
    if t0.Parent(x).Some? {
      t0.ParentOf(x);
      assert t0.UpOk(x) && t.UpOk(x);
      OldNotUnderNew(t0, t, e, t0.Parent(x).value, c);
    }
  }

  /** Hanging a new subtree below `e`, or below another new node. */
  lemma AppendGrows(t0: Tree, t: Tree, e: NodeId, p: NodeId, c: NodeId)
    requires Grown(t0, t, e) && |t0.nodes| <= c < |t.nodes| && t.Parent(c) == None
    requires p < |t.nodes| && (p == e || (p >= |t0.nodes| && !t.Under(p, c)))
    ensures !t.Under(p, c) && t.Appended(p, c).Valid() && Grown(t0, t.Appended(p, c), e)
    ensures t.Appended(p, c).kids == t.kids[p := t.kids[p] + [c]]
  {
    if p == e { OldNotUnderNew(t0, t, e, e, c); }
    t.AppendKeeps(p, c);
    var u := t.Appended(p, c);
    forall x | 0 <= x < |t0.nodes| ensures Same(t0, u, x) {
      assert Same(t0, t, x);
      OldNotUnderNew(t0, t, e, x, c);
      assert SamePayload(t.nodes[x], u.nodes[x]);
    }
  }

  // ----- which node may hold which -----

  /** Block nodes obey `can_contain`; inline nodes go below the nodes that are
      inlined or below other inline containers; an image holds only text. */
  predicate EdgeOk(p: NodeType, c: NodeType) {
    if c.IsInline() then p.HostsInline() || (p.Image? && c.Text?)
    else p.CanContain(c)
  }

  ghost predicate EdgesOk(t: Tree) {
    forall c :: 0 <= c < |t.nodes| && t.Parent(c).Some? ==>
      t.Parent(c).value < |t.nodes| && EdgeOk(t.Kind(t.Parent(c).value), t.Kind(c))
  }

  lemma EdgesAfterAppend(t: Tree, p: NodeId, c: NodeId)
    requires t.Valid() && EdgesOk(t) && p < |t.nodes| && c < |t.nodes| && t.Parent(c) == None && !t.Under(p, c)
    requires EdgeOk(t.Kind(p), t.Kind(c))
    ensures EdgesOk(t.Appended(p, c))
  {
    t.AppendKeeps(p, c);
    var u := t.Appended(p, c);
    forall x | 0 <= x < |u.nodes| && u.Parent(x).Some?
      ensures u.Parent(x).value < |u.nodes| && EdgeOk(u.Kind(u.Parent(x).value), u.Kind(x))
    {
      assert SamePayload(t.nodes[x], u.nodes[x]);
      if x != c { assert SamePayload(t.nodes[t.Parent(x).value], u.nodes[t.Parent(x).value]); }
    }
  }

  lemma EdgesAfterUnlink(t: Tree, c: NodeId)
    requires t.Valid() && EdgesOk(t) && c < |t.nodes|
    ensures EdgesOk(t.Unlinked(c))
  {
    t.UnlinkKeeps(c);
    var u := t.Unlinked(c);
    forall x | 0 <= x < |u.nodes| && u.Parent(x).Some?
      ensures u.Parent(x).value < |u.nodes| && EdgeOk(u.Kind(u.Parent(x).value), u.Kind(x))
    {
      assert SamePayload(t.nodes[x], u.nodes[x]);
      assert SamePayload(t.nodes[t.Parent(x).value], u.nodes[t.Parent(x).value]);
    }
  }
}
