/** What a parser built, as a value: kinds, payloads and children, without indices. */
module Outline {
  import opened Bytes
  import opened Node
  import opened Growth
  import opened MD = Markdown

  datatype Part = Part(kind: NodeType, data: Data, parts: seq<Part>)

  function Leaf(kind: NodeType, d: Data): Part { Part(kind, d, []) }

  /** The node `x` and all below it are `p`. */
  ghost predicate Shows(t: Tree, x: NodeId, p: Part)
    decreases p
  {
    && x < |t.nodes| && x < |t.kids| && t.Kind(x) == p.kind && t.nodes[x].data == p.data
    && |t.kids[x]| == |p.parts|
    && forall k :: 0 <= k < |p.parts| ==> Shows(t, t.kids[x][k], p.parts[k])
  }

  /** The children that `e` has gained are `parts`. */
  ghost predicate Gains(t: Tree, u: Tree, e: NodeId, parts: seq<Part>) {
    && e < |t.kids| && e < |u.kids| && t.kids[e] <= u.kids[e] && |u.kids[e]| == |t.kids[e]| + |parts|
    && forall k :: 0 <= k < |parts| ==> Shows(u, u.kids[e][|t.kids[e]| + k], parts[k])
  }

  /** Apart from `e`, old nodes keep kind, payload and children. */
  ghost predicate Spares(t: Tree, u: Tree, e: NodeId) {
    && t.Valid() && e < |t.nodes| <= |u.nodes| == |u.kids|
    && forall y :: 0 <= y < |t.nodes| && y != e ==>
         u.Kind(y) == t.Kind(y) && u.nodes[y].data == t.nodes[y].data && u.kids[y] == t.kids[y]
  }

  lemma GrownSpares(t: Tree, u: Tree, e: NodeId)
    requires Grown(t, u, e)
    ensures Spares(t, u, e)
  {
    forall y | 0 <= y < |t.nodes| && y != e
      ensures u.Kind(y) == t.Kind(y) && u.nodes[y].data == t.nodes[y].data && u.kids[y] == t.kids[y]
    {
      assert Same(t, u, y);
    }
  }

  /** A change at `e` leaves what is at its depth or below, but for `e` itself. */
  lemma {:induction false} ShowsKept(t: Tree, u: Tree, e: NodeId, x: NodeId, p: Part)
    requires Spares(t, u, e) && Shows(t, x, p) && x != e && t.level[e] <= t.level[x]
    ensures Shows(u, x, p)
    decreases p
  {
    forall k | 0 <= k < |p.parts| ensures Shows(u, u.kids[x][k], p.parts[k]) {
      var c := t.kids[x][k];
      LevelOfKid(t, x, c);
      ShowsKept(t, u, e, c, p.parts[k]);
    }
  }

  lemma LevelOfKid(t: Tree, x: NodeId, c: NodeId)
    requires t.Valid() && x < |t.nodes| && c in t.kids[x]
    ensures c < |t.nodes| && t.level[c] == t.level[x] + 1
  {
    t.KidOf(x, c);
    assert t.UpOk(c);
  }

  /** Closing blocks changes nothing that is shown. */
  lemma {:induction false} ShowsSame(t: Tree, u: Tree, x: NodeId, p: Part)
    requires Shows(t, x, p) && |u.nodes| == |t.nodes| && u.kids == t.kids
    requires forall y :: 0 <= y < |t.nodes| ==> u.Kind(y) == t.Kind(y) && u.nodes[y].data == t.nodes[y].data
    ensures Shows(u, x, p)
    decreases p
  {
    forall k | 0 <= k < |p.parts| ensures Shows(u, u.kids[x][k], p.parts[k]) {
      ShowsSame(t, u, t.kids[x][k], p.parts[k]);
    }
  }

  lemma GainsSame(t: Tree, u: Tree, v: Tree, e: NodeId, parts: seq<Part>)
    requires Gains(t, u, e, parts) && |v.nodes| == |u.nodes| && v.kids == u.kids
    requires forall y :: 0 <= y < |u.nodes| ==> v.Kind(y) == u.Kind(y) && v.nodes[y].data == u.nodes[y].data
    ensures Gains(t, v, e, parts)
  {
    forall k | 0 <= k < |parts| ensures Shows(v, v.kids[e][|t.kids[e]| + k], parts[k]) {
      ShowsSame(u, v, u.kids[e][|t.kids[e]| + k], parts[k]);
    }
  }

  lemma GainsNothing(t: Tree, u: Tree, e: NodeId)
    requires e < |t.kids| && e < |u.kids| && u.kids[e] == t.kids[e]
    ensures Gains(t, u, e, [])
  {
  }

  /** What is gained later comes after. */
  lemma GainsMore(t: Tree, u: Tree, v: Tree, e: NodeId, a: seq<Part>, b: seq<Part>)
    requires Gains(t, u, e, a) && Gains(u, v, e, b) && Spares(u, v, e)
    ensures Gains(t, v, e, a + b)
  {
    var n := |t.kids[e]|;
    forall k | 0 <= k < |a + b| ensures Shows(v, v.kids[e][n + k], (a + b)[k]) {
      if k < |a| {
        var x := u.kids[e][n + k];
        LevelOfKid(u, e, x);
        ShowsKept(u, v, e, x, a[k]);
      } else {
        assert v.kids[e][n + k] == v.kids[e][|u.kids[e]| + (k - |a|)];
      }
    }
  }

  lemma GainsLeaf(t: Tree, u: Tree, e: NodeId, node: NodeId, kind: NodeType, d: Data)
    requires Markdown.Added(t, u, e, node, kind) && u.nodes[node].data == d
    ensures Gains(t, u, e, [Leaf(kind, d)])
  {
  }

  /** A node with what it gained after it was made. */
  lemma GainsBox(t: Tree, mid: Tree, u: Tree, e: NodeId, node: NodeId, kind: NodeType, d: Data, parts: seq<Part>)
    requires Markdown.Added(t, mid, e, node, kind) && mid.nodes[node].data == d
    requires Grown(mid, u, node) && Gains(mid, u, node, parts)
    ensures Gains(t, u, e, [Part(kind, d, parts)])
  {
    assert Same(mid, u, node) && mid.kids[node] == [];
    assert u.kids[e] == mid.kids[e];
    assert Shows(u, node, Part(kind, d, parts));
  }

  /** A node hung below `e`, whatever became of its payload, with the children it has. */
  lemma GainsNode(t: Tree, u: Tree, e: NodeId, node: NodeId, kind: NodeType, d: Data, parts: seq<Part>)
    requires e < |t.kids| && e < |u.kids| && u.kids[e] == t.kids[e] + [node]
    requires Shows(u, node, Part(kind, d, parts))
    ensures Gains(t, u, e, [Part(kind, d, parts)])
  {
  }

  /** What a node holds once it has gained one more child. */
  lemma ShowsMore(t: Tree, u: Tree, x: NodeId, kind: NodeType, d: Data, parts: seq<Part>, more: Part)
    requires Shows(t, x, Part(kind, d, parts)) && Grown(t, u, x) && Gains(t, u, x, [more])
    ensures Shows(u, x, Part(kind, d, parts + [more]))
  {
    GrownSpares(t, u, x);
    assert Same(t, u, x);
    var all := parts + [more];
    forall k | 0 <= k < |all| ensures Shows(u, u.kids[x][k], all[k]) {
      if k < |parts| {
        LevelOfKid(t, x, t.kids[x][k]);
        ShowsKept(t, u, x, t.kids[x][k], parts[k]);
      } else {
        assert u.kids[x][k] == u.kids[x][|t.kids[x]| + 0];
      }
    }
  }

  /** A new payload changes the node alone. */
  lemma ShowsData(t: Tree, x: NodeId, kind: NodeType, d: Data, parts: seq<Part>, d': Data)
    requires t.Valid() && Shows(t, x, Part(kind, d, parts))
    ensures Shows(WithData(t, x, d'), x, Part(kind, d', parts))
  {
    var u := WithData(t, x, d');
    assert Spares(t, u, x);
    forall k | 0 <= k < |parts| ensures Shows(u, u.kids[x][k], parts[k]) {
      LevelOfKid(t, x, t.kids[x][k]);
      ShowsKept(t, u, x, t.kids[x][k], parts[k]);
    }
  }
}
