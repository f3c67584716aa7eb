/** Traversal of a tree: the recursive order, and the cursor that reproduces it
    without recursion (`Walker` of src/node.rs). */
module Walk {
  import opened Bytes
  import opened Node

  datatype WalkStatus = GoToNext | SkipChildren | Terminate

  /** A visit: the node and whether it is being entered. */
  type Visit = (NodeId, bool)

  type Visitor = Visit -> WalkStatus

  function MaxLevel(l: seq<nat>): (m: nat)
    ensures forall i :: 0 <= i < |l| ==> l[i] <= m
  {
    if l == [] then 0
    else
      var m := MaxLevel(l[..|l| - 1]);
      if l[|l| - 1] > m then l[|l| - 1] else m
  }

  // ----- the recursive order -----

  /** Enter, children, leave; a leaf, or a container whose visitor skips its
      children, is entered only. */
  ghost function Events(t: Tree, x: NodeId, visit: Visitor): (r: seq<Visit>)
    requires t.Valid() && x < |t.nodes|
    ensures r != [] && r[0] == (x, true)
    decreases MaxLevel(t.level) - t.level[x], |t.kids[x]| + 1
  {
    if t.Kind(x).IsContainer() && visit((x, true)) != SkipChildren then
      [(x, true)] + (KidEvents(t, x, 0, visit) + [(x, false)])
    else [(x, true)]
  }

  ghost function KidEvents(t: Tree, x: NodeId, k: nat, visit: Visitor): seq<Visit>
    requires t.Valid() && x < |t.nodes| && k <= |t.kids[x]|
    decreases MaxLevel(t.level) - t.level[x], |t.kids[x]| - k
  {
    if k == |t.kids[x]| then []
    else
      var c := t.kids[x][k];
      t.KidOf(x, c);
      Events(t, c, visit) + KidEvents(t, x, k + 1, visit)
  }

  /** What remains after the subtree at `x` is finished. */
  ghost function After(t: Tree, root: NodeId, x: NodeId, visit: Visitor): seq<Visit>
    requires t.Valid() && x < |t.nodes| && t.Under(x, root)
    decreases t.level[x]
  {
    if x == root then []
    else
      t.ParentOf(x);
      var p := t.Parent(x).value;
      t.KidOf(p, x);
      KidEvents(t, p, IndexOf(t.kids[p], x) + 1, visit) + ([(p, false)] + After(t, root, p, visit))
  }

  // ----- the cursor -----

  datatype Cursor = Cursor(current: Option<NodeId>, entering: bool)

  /** One move of the cursor over the links. */
  function StepCursor(ns: seq<Node>, root: NodeId, c: Cursor): Cursor
    requires c.current.Some? ==> c.current.value < |ns|
  {
    match c.current
    case None => c
    case Some(cur) =>
      var node := ns[cur];
      if (!node.kind.IsContainer() || !c.entering) && cur == root then c.(current := None)
      else if c.entering && node.kind.IsContainer() then
        (match node.links.firstChild
         case Some(child) => Cursor(Some(child), true)
         case None => c.(entering := false))
      else if node.links.next == None then Cursor(node.links.parent, false)
      else Cursor(node.links.next, true)
  }

  function AdvanceCursor(ns: seq<Node>, root: NodeId, c: Cursor, status: WalkStatus): Cursor
    requires c.current.Some? ==> c.current.value < |ns|
  {
    match status
    case Terminate => c.(current := None)
    case SkipChildren => StepCursor(ns, root, c.(entering := false))
    case GoToNext => StepCursor(ns, root, c)
  }

  ghost predicate OnTree(t: Tree, root: NodeId, c: Cursor) {
    t.Valid() && (c.current.Some? ==> c.current.value < |t.nodes| && t.Under(c.current.value, root))
  }

  /** The visits still to come, the current one first. */
  ghost function Rest(t: Tree, root: NodeId, c: Cursor, visit: Visitor): (r: seq<Visit>)
    requires OnTree(t, root, c)
    ensures c.current.Some? ==> r != [] && r[0] == (c.current.value, c.entering)
    ensures c.current.None? ==> r == []
  {
    match c.current
    case None => []
    case Some(x) =>
      if c.entering then Events(t, x, visit) + After(t, root, x, visit)
      else [(x, false)] + After(t, root, x, visit)
  }

  /** Standing at the `k`-th child: that child, its later siblings, the parent. */
  lemma RestAtKid(t: Tree, root: NodeId, p: NodeId, k: nat, visit: Visitor)
    requires t.Valid() && p < |t.nodes| && t.Under(p, root) && k < |t.kids[p]|
    ensures var c := Cursor(Some(t.kids[p][k]), true);
            OnTree(t, root, c)
            && Rest(t, root, c, visit) == KidEvents(t, p, k, visit) + ([(p, false)] + After(t, root, p, visit))
  {
    var y := t.kids[p][k];
    t.KidOf(p, y);
    SameIndex(t, p, k);
    if y == root { UnderLoop(t, p, root); }
    Concat3(Events(t, y, visit), KidEvents(t, p, k + 1, visit), [(p, false)] + After(t, root, p, visit));
  }

  lemma UnderLoop(t: Tree, p: NodeId, root: NodeId)
    requires t.Valid() && p < |t.nodes| && root < |t.nodes| && t.Parent(root) == Some(p)
    ensures !t.Under(p, root)
  {
    assert t.UpOk(root);
    if t.Under(p, root) {
      t.UnderIsDeeper(p, root);
      assert false;
    }
  }

  lemma AfterUnfolds(t: Tree, root: NodeId, x: NodeId, visit: Visitor)
    requires t.Valid() && x < |t.nodes| && root < |t.nodes| && t.Under(x, root) && x != root
    ensures t.Parent(x).Some? && t.Parent(x).value < |t.nodes| && |t.kids| == |t.nodes|
    ensures var p := t.Parent(x).value;
            x in t.kids[p] && t.Under(p, root)
            && After(t, root, x, visit)
               == KidEvents(t, p, IndexOf(t.kids[p], x) + 1, visit) + ([(p, false)] + After(t, root, p, visit))
    ensures t.nodes[x].links.next == At(t.kids[t.Parent(x).value], IndexOf(t.kids[t.Parent(x).value], x) + 1)
  {
    t.ParentOf(x);
    t.KidOf(t.Parent(x).value, x);
    hide Events, KidEvents, IndexOf, At;
  }

  /** After a subtree the cursor stands at the next sibling, or leaves the parent. */
  lemma AfterIsRest(t: Tree, root: NodeId, x: NodeId, visit: Visitor)
    requires t.Valid() && x < |t.nodes| && root < |t.nodes| && t.Under(x, root) && x != root
    ensures var n := t.nodes[x].links;
            var c := if n.next == None then Cursor(n.parent, false) else Cursor(n.next, true);
            OnTree(t, root, c) && Rest(t, root, c, visit) == After(t, root, x, visit)
  {
    hide After, Events, KidEvents, Rest, Tree.Under, IndexOf, Tree.Valid;
    AfterUnfolds(t, root, x, visit);
    var p := t.Parent(x).value;
    var i := IndexOf(t.kids[p], x);
    if i + 1 < |t.kids[p]| {
      RestAtKid(t, root, p, i + 1, visit);
    } else {
      NoMoreKids(t, p, visit);
      LeavesParent(t, root, p, visit);
      EmptyPrefix([(p, false)] + After(t, root, p, visit));
    }
  }

  lemma LeavesParent(t: Tree, root: NodeId, p: NodeId, visit: Visitor)
    requires t.Valid() && p < |t.nodes| && t.Under(p, root)
    ensures Rest(t, root, Cursor(Some(p), false), visit) == [(p, false)] + After(t, root, p, visit)
  {
  }

  lemma NoMoreKids(t: Tree, p: NodeId, visit: Visitor)
    requires t.Valid() && p < |t.nodes|
    ensures |t.kids| == |t.nodes| && KidEvents(t, p, |t.kids[p]|, visit) == []
  {
  }

  lemma EmptyPrefix(a: seq<Visit>)
    ensures [] + a == a
  {
  }

  lemma SameIndex(t: Tree, p: NodeId, k: nat)
    requires t.Valid() && p < |t.nodes| && k < |t.kids[p]|
    ensures IndexOf(t.kids[p], t.kids[p][k]) == k
  {
    assert t.KidsOk(p);
  }

  lemma Concat3(a: seq<Visit>, b: seq<Visit>, c: seq<Visit>)
    ensures (a + b) + c == a + (b + c)
  {
  }

  /** One advance consumes exactly one visit of the recursive order. */
  lemma AdvanceConsumes(t: Tree, root: NodeId, c: Cursor, visit: Visitor)
    requires OnTree(t, root, c) && c.current.Some? && root < |t.nodes|
    requires visit((c.current.value, c.entering)) != Terminate
    ensures var d := AdvanceCursor(t.nodes, root, c, visit((c.current.value, c.entering)));
            OnTree(t, root, d) && Rest(t, root, d, visit) == Rest(t, root, c, visit)[1..]
  {
    var x := c.current.value;
    var a := After(t, root, x, visit);
    if x != root { AfterIsRest(t, root, x, visit); }
    if c.entering && t.Kind(x).IsContainer() && visit((x, true)) != SkipChildren {
      assert t.KidsOk(x);
      EnterContainer(t, root, x, visit);
    } else if c.entering {
      assert Rest(t, root, c, visit) == [(x, true)] + a;
      assert Rest(t, root, c, visit)[1..] == a;
    } else {
      assert Rest(t, root, c, visit)[1..] == a;
    }
  }

  lemma EnterContainer(t: Tree, root: NodeId, x: NodeId, visit: Visitor)
    requires OnTree(t, root, Cursor(Some(x), true)) && root < |t.nodes|
    requires t.Kind(x).IsContainer() && visit((x, true)) == GoToNext
    ensures var d := StepCursor(t.nodes, root, Cursor(Some(x), true));
            OnTree(t, root, d) && Rest(t, root, d, visit) == Rest(t, root, Cursor(Some(x), true), visit)[1..]
  {
    var tail := [(x, false)] + After(t, root, x, visit);
    var kids := KidEvents(t, x, 0, visit);
    assert t.KidsOk(x);
    assert (([(x, true)] + (kids + [(x, false)])) + After(t, root, x, visit))[1..] == kids + tail;
    if t.kids[x] != [] {
      RestAtKid(t, root, x, 0, visit);
    } else {
      assert [] + tail == tail;
    }
  }

  // ----- where one advance leads -----

  datatype Move = Down(kid: NodeId) | Turn | Right(sibling: NodeId) | Up(parent: NodeId) | Stop

  /** `d` is where the cursor goes from `c`: to the first child, to leaving the same
      node, to the next sibling, to leaving the parent, or nowhere. */
  ghost predicate MoveOk(t: Tree, root: NodeId, c: Cursor, status: WalkStatus, d: Cursor, m: Move)
    requires c.current.Some? && c.current.value < |t.nodes|
  {
    var x := c.current.value;
    var inward := c.entering && t.Kind(x).IsContainer() && status == GoToNext;
    match m
    case Down(y) => inward && d == Cursor(Some(y), true) && y < |t.nodes| && y != root && t.Parent(y) == Some(x)
    case Turn => inward && d == Cursor(Some(x), false)
    case Right(y) =>
      !inward && x != root && d == Cursor(Some(y), true) && y < |t.nodes| && y != root && t.Parent(y) == t.Parent(x)
    case Up(p) => !inward && x != root && d == Cursor(Some(p), false) && p < |t.nodes| && t.Parent(x) == Some(p)
    case Stop => !inward && x == root && d.current == None
  }

  lemma Moves(t: Tree, root: NodeId, c: Cursor, status: WalkStatus) returns (m: Move)
    requires OnTree(t, root, c) && c.current.Some? && root < |t.nodes| && status != Terminate
    ensures MoveOk(t, root, c, status, AdvanceCursor(t.nodes, root, c, status), m)
  {
    var x := c.current.value;
    var links := t.nodes[x].links;
    if c.entering && t.Kind(x).IsContainer() && status == GoToNext {
      assert t.KidsOk(x);
      if t.kids[x] == [] { return Turn; }
      m := Down(t.kids[x][0]);
      t.KidOf(x, t.kids[x][0]);
      t.UnderIsDeeper(x, root);
    } else if x == root {
      m := Stop;
    } else {
      t.UnderIsDeeper(x, root);
      assert t.Parent(x).Some?;
      t.ParentOf(x);
      var p := t.Parent(x).value;
      t.KidOf(p, x);
      if links.next == None { return Up(p); }
      var y := links.next.value;
      assert y in t.kids[p];
      t.KidOf(p, y);
      m := Right(y);
    }
  }

  /** A traversal cut short after the first visit that answers `Terminate`. */
  ghost function Cut(events: seq<Visit>, visit: Visitor): seq<Visit> {
    if events == [] then []
    else if visit(events[0]) == Terminate then [events[0]]
    else [events[0]] + Cut(events[1..], visit)
  }

  lemma CutEnd(trace: seq<Visit>, visit: Visitor)
    ensures trace + Cut([], visit) == trace
  {
  }

  lemma CutStep(trace: seq<Visit>, v: Visit, rest: seq<Visit>, visit: Visitor)
    requires rest != [] && rest[0] == v
    ensures trace + Cut(rest, visit)
         == if visit(v) == Terminate then trace + [v] else (trace + [v]) + Cut(rest[1..], visit)
  {
  }

  // ----- each node once, each container twice -----

  /** `y` is reached from `x` through containers whose children are not skipped. */
  ghost predicate Reached(t: Tree, x: NodeId, y: NodeId, visit: Visitor)
    requires t.Valid() && x < |t.nodes| && y < |t.nodes|
    decreases t.level[y]
  {
    y == x ||
    (t.Parent(y).Some? && (t.ParentOf(y); t.KidOf(t.Parent(y).value, y);
     Opens(t, t.Parent(y).value, visit) && Reached(t, x, t.Parent(y).value, visit)))
  }

  predicate Opens(t: Tree, p: NodeId, visit: Visitor)
    requires p < |t.nodes|
  {
    t.Kind(p).IsContainer() && visit((p, true)) != SkipChildren
  }

  lemma {:induction false} ReachedIsDeeper(t: Tree, x: NodeId, y: NodeId, visit: Visitor)
    requires t.Valid() && x < |t.nodes| && y < |t.nodes| && Reached(t, x, y, visit)
    ensures t.level[x] <= t.level[y] && (x != y ==> t.level[x] < t.level[y])
    decreases t.level[y]
  {
    if x != y {
      t.ParentOf(y);
      t.KidOf(t.Parent(y).value, y);
      ReachedIsDeeper(t, x, t.Parent(y).value, visit);
    }
  }

  /** Everything strictly below `x` is reached through exactly one child of `x`. */
  lemma {:induction false} ReachedViaKid(t: Tree, x: NodeId, y: NodeId, visit: Visitor) returns (k: nat)
    requires t.Valid() && x < |t.nodes| && y < |t.nodes| && x != y && Reached(t, x, y, visit)
    ensures k < |t.kids[x]| && t.kids[x][k] < |t.nodes| && Reached(t, t.kids[x][k], y, visit)
    ensures Opens(t, x, visit)
    decreases t.level[y]
  {
    t.ParentOf(y);
    var p := t.Parent(y).value;
    t.KidOf(p, y);
    if p == x {
      k := IndexOf(t.kids[x], y);
    } else {
      k := ReachedViaKid(t, x, p, visit);
    }
  }

  lemma {:induction false} KidReachIsUnique(t: Tree, x: NodeId, i: nat, j: nat, y: NodeId, visit: Visitor)
    requires t.Valid() && x < |t.nodes| && y < |t.nodes| && i < |t.kids[x]| && j < |t.kids[x]|
    requires t.kids[x][i] < |t.nodes| && t.kids[x][j] < |t.nodes|
    requires Reached(t, t.kids[x][i], y, visit) && Reached(t, t.kids[x][j], y, visit)
    ensures i == j
    decreases t.level[y]
  {
    var a, b := t.kids[x][i], t.kids[x][j];
    t.KidOf(x, a);
    t.KidOf(x, b);
    assert t.KidsOk(x);
    if y != a && y != b {
      t.ParentOf(y);
      t.KidOf(t.Parent(y).value, y);
      KidReachIsUnique(t, x, i, j, t.Parent(y).value, visit);
    } else {
      ReachedIsDeeper(t, a, y, visit);
      ReachedIsDeeper(t, b, y, visit);
    }
  }

  ghost function Once(b: bool): nat { if b then 1 else 0 }

  /** Every reached node is entered exactly once and every reached container whose
      children are not skipped is left exactly once; nothing else is visited. */
  lemma {:induction false} EachOnce(t: Tree, x: NodeId, y: NodeId, entering: bool, visit: Visitor)
    requires t.Valid() && x < |t.nodes| && y < |t.nodes|
    ensures multiset(Events(t, x, visit))[(y, entering)]
         == Once(Reached(t, x, y, visit) && (entering || Opens(t, y, visit)))
    decreases MaxLevel(t.level) - t.level[x], |t.kids[x]| + 1
  {
    if Opens(t, x, visit) {
      hide Reached, Tree.Valid;
      var kids := KidEvents(t, x, 0, visit);
      EachOnceKids(t, x, 0, y, entering, visit);
      assert multiset([(x, true)] + (kids + [(x, false)])) == multiset{(x, true)} + multiset(kids) + multiset{(x,
          false)};
      ReachedSplit(t, x, y, visit);
    } else if x != y && Reached(t, x, y, visit) {
      var k := ReachedViaKid(t, x, y, visit);
      assert false;
    }
  }

  lemma ReachedSplit(t: Tree, x: NodeId, y: NodeId, visit: Visitor)
    requires t.Valid() && x < |t.nodes| && y < |t.nodes| && Opens(t, x, visit)
    ensures Once(Reached(t, x, y, visit)) == Once(x == y) + Once(SomeKidReaches(t, x, 0, y, visit))
  {
    if SomeKidReaches(t, x, 0, y, visit) {
      var k :| 0 <= k < |t.kids[x]| && KidReaches(t, x, k, y, visit);
      KidReachUp(t, x, k, y, visit);
      t.KidOf(x, t.kids[x][k]);
      ReachedIsDeeper(t, t.kids[x][k], y, visit);
    } else if x != y && Reached(t, x, y, visit) {
      var k := ReachedViaKid(t, x, y, visit);
      assert KidReaches(t, x, k, y, visit);
    }
  }

  ghost predicate KidReaches(t: Tree, x: NodeId, k: nat, y: NodeId, visit: Visitor)
    requires t.Valid() && x < |t.nodes| && y < |t.nodes| && k < |t.kids[x]|
  {
    t.KidOf(x, t.kids[x][k]);
    Reached(t, t.kids[x][k], y, visit)
  }

  lemma {:induction false} KidReachUp(t: Tree, x: NodeId, k: nat, y: NodeId, visit: Visitor)
    requires t.Valid() && x < |t.nodes| && y < |t.nodes| && k < |t.kids[x]| && Opens(t, x, visit)
    requires KidReaches(t, x, k, y, visit)
    ensures Reached(t, x, y, visit)
    decreases t.level[y]
  {
    var c := t.kids[x][k];
    t.KidOf(x, c);
    if y != c {
      t.ParentOf(y);
      t.KidOf(t.Parent(y).value, y);
      KidReachUp(t, x, k, t.Parent(y).value, visit);
    }
  }

  ghost predicate SomeKidReaches(t: Tree, x: NodeId, k: nat, y: NodeId, visit: Visitor)
    requires t.Valid() && x < |t.nodes| && y < |t.nodes| && k <= |t.kids[x]|
  {
    exists j :: k <= j < |t.kids[x]| && KidReaches(t, x, j, y, visit)
  }

  lemma SomeKidSplit(t: Tree, x: NodeId, k: nat, y: NodeId, visit: Visitor)
    requires t.Valid() && x < |t.nodes| && y < |t.nodes| && k < |t.kids[x]|
    ensures Once(SomeKidReaches(t, x, k, y, visit))
         == Once(KidReaches(t, x, k, y, visit)) + Once(SomeKidReaches(t, x, k + 1, y, visit))
  {
    if SomeKidReaches(t, x, k + 1, y, visit) {
      var j :| k + 1 <= j < |t.kids[x]| && KidReaches(t, x, j, y, visit);
      t.KidOf(x, t.kids[x][j]);
      t.KidOf(x, t.kids[x][k]);
      if KidReaches(t, x, k, y, visit) {
        KidReachIsUnique(t, x, k, j, y, visit);
      }
    }
  }

  lemma {:induction false} EachOnceKids(t: Tree, x: NodeId, k: nat, y: NodeId, entering: bool, visit: Visitor)
    requires t.Valid() && x < |t.nodes| && y < |t.nodes| && k <= |t.kids[x]|
    ensures multiset(KidEvents(t, x, k, visit))[(y, entering)]
         == Once(SomeKidReaches(t, x, k, y, visit) && (entering || Opens(t, y, visit)))
    decreases MaxLevel(t.level) - t.level[x], |t.kids[x]| - k
  {
    if k < |t.kids[x]| {
      var c := t.kids[x][k];
      t.KidOf(x, c);
      EachOnce(t, c, y, entering, visit);
      EachOnceKids(t, x, k + 1, y, entering, visit);
      SomeKidSplit(t, x, k, y, visit);
    }
  }
}
