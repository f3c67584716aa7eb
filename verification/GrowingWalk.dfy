/** A walk whose visitor grows the tree below the node it is at (src/markdown.rs). */
module GrowingWalk {
  import opened Bytes
  import opened Node
  import opened Growth
  import Walk

  /** The visitor of the inline walks never skips and never stops. */
  function Always(): Walk.Visitor { v => Walk.GoToNext }

  // ----- what growth below one node leaves of the recursive order -----

  /** Outside the path to `x` a subtree is visited as before. */
  lemma {:induction false} EventsKept(t: Tree, u: Tree, x: NodeId, y: NodeId)
    requires Grown(t, u, x) && y < |t.nodes| && !t.Under(x, y)
    ensures Walk.Events(u, y, Always()) == Walk.Events(t, y, Always())
    decreases Walk.MaxLevel(t.level) - t.level[y], |t.kids[y]| + 1
  {
    assert Same(t, u, y);
    if t.Kind(y).IsContainer() {
      KidsNotAbove(t, x, y);
      KidEventsKept(t, u, x, y, 0);
    }
  }

  lemma {:induction false} KidEventsKept(t: Tree, u: Tree, x: NodeId, y: NodeId, k: nat)
    requires Grown(t, u, x) && y < |t.nodes| && y != x && k <= |t.kids[y]|
    requires forall j :: k <= j < |t.kids[y]| ==> t.kids[y][j] < |t.nodes| && !t.Under(x, t.kids[y][j])
    ensures Walk.KidEvents(u, y, k, Always()) == Walk.KidEvents(t, y, k, Always())
    decreases Walk.MaxLevel(t.level) - t.level[y], |t.kids[y]| - k
  {
    if k < |t.kids[y]| {
      var c := t.kids[y][k];
      t.KidOf(y, c);
      EventsKept(t, u, x, c);
      KidEventsKept(t, u, x, y, k + 1);
    }
  }

  /** If `x` is not below `y`, it is below none of its children. */
  lemma KidsNotAbove(t: Tree, x: NodeId, y: NodeId)
    requires t.Valid() && x < |t.nodes| && y < |t.nodes| && !t.Under(x, y)
    ensures forall j :: 0 <= j < |t.kids[y]| ==> t.kids[y][j] < |t.nodes| && !t.Under(x, t.kids[y][j])
  {
    forall j | 0 <= j < |t.kids[y]| ensures t.kids[y][j] < |t.nodes| && !t.Under(x, t.kids[y][j]) {
      t.KidOf(y, t.kids[y][j]);
      if t.Under(x, t.kids[y][j]) { UnderParent(t, x, t.kids[y][j], y); }
    }
  }

  lemma {:induction false} UnderParent(t: Tree, x: NodeId, c: NodeId, y: NodeId)
    requires t.Valid() && x < |t.nodes| && c < |t.nodes| && t.Under(x, c) && t.Parent(c) == Some(y)
    ensures t.Under(x, y)
    decreases t.level[x]
  {
    assert t.UpOk(x);
    if x != c { UnderParent(t, t.Parent(x).value, c, y); }
  }

  /** Two nodes of one depth above `x` are the same. */
  lemma {:induction false} OneAncestor(t: Tree, x: NodeId, a: NodeId, b: NodeId)
    requires t.Valid() && x < |t.nodes| && a < |t.nodes| && b < |t.nodes| && t.Under(x, a) && t.Under(x, b)
    requires t.level[a] == t.level[b]
    ensures a == b
    decreases t.level[x]
  {
    t.UnderIsDeeper(x, a);
    t.UnderIsDeeper(x, b);
    if x != a && x != b {
      assert t.UpOk(x);
      OneAncestor(t, t.Parent(x).value, a, b);
    }
  }

  /** What follows an ancestor of `x` is as before. */
  lemma {:induction false} AfterKept(t: Tree, u: Tree, root: NodeId, x: NodeId, y: NodeId)
    requires Grown(t, u, x) && root < |t.nodes| && y < |t.nodes| && t.Under(x, y) && t.Under(y, root)
    ensures u.Under(y, root)
    ensures Walk.After(u, root, y, Always()) == Walk.After(t, root, y, Always())
    decreases t.level[y]
  {
    UnderGrown(t, u, x, y, root);
    assert Same(t, u, y);
    if y != root {
      assert t.Parent(y).Some?;
      t.ParentOf(y);
      var p := t.Parent(y).value;
      t.KidOf(p, y);
      UnderParent(t, x, y, p);
      LaterKept(t, u, x, y, p);
      AfterKept(t, u, root, x, p);
    }
  }

  lemma LaterKept(t: Tree, u: Tree, x: NodeId, y: NodeId, p: NodeId)
    requires Grown(t, u, x) && y < |t.nodes| && p < |t.nodes| && t.Under(x, y) && t.Parent(y) == Some(p)
             && y in t.kids[p]
    ensures u.kids[p] == t.kids[p]
    ensures Walk.KidEvents(u, p, IndexOf(t.kids[p], y) + 1, Always()) == Walk.KidEvents(t, p,
            IndexOf(t.kids[p], y) + 1, Always())
  {
    var i := IndexOf(t.kids[p], y);
    t.KidOf(p, y);
    t.UnderIsDeeper(x, y);
    forall j | i + 1 <= j < |t.kids[p]| ensures t.kids[p][j] < |t.nodes| && !t.Under(x, t.kids[p][j]) {
      var c := t.kids[p][j];
      t.KidOf(p, c);
      assert t.KidsOk(p);
      if t.Under(x, c) {
        OneAncestor(t, x, y, c);
      }
    }
    KidEventsKept(t, u, x, p, i + 1);
  }

  // ----- the nodes whose text is inlined -----

  /** Paragraphs and headings, and table cells in the first walk. */
  predicate IsTarget(k: NodeType, cells: bool) { k.Paragraph? || k.Heading? || (cells && k.TableCell?) }

  /** The targets entered, in order. */
  ghost function Targets(t: Tree, events: seq<Walk.Visit>, cells: bool): seq<NodeId> {
    if events == [] then []
    else
      var v := events[|events| - 1];
      Targets(t, events[..|events| - 1], cells)
      + (if v.1 && v.0 < |t.nodes| && IsTarget(t.Kind(v.0), cells) then [v.0] else [])
  }

  lemma {:induction false} TargetsConcat(t: Tree, a: seq<Walk.Visit>, b: seq<Walk.Visit>, cells: bool)
    ensures Targets(t, a + b, cells) == Targets(t, a, cells) + Targets(t, b, cells)
    decreases |b|
  {
    if b == [] {
      assert a + b == a;
    } else {
      assert (a + b)[..|a + b| - 1] == a + b[..|b| - 1];
      TargetsConcat(t, a, b[..|b| - 1], cells);
    }
  }

  lemma TargetsOne(t: Tree, v: Walk.Visit, cells: bool)
    ensures Targets(t, [v], cells) == if v.1 && v.0 < |t.nodes| && IsTarget(t.Kind(v.0), cells) then [v.0] else []
  {
    assert [v][..0] == [];
  }

  ghost predicate OldVisits(t: Tree, events: seq<Walk.Visit>) {
    forall k :: 0 <= k < |events| ==> events[k].0 < |t.nodes|
  }

  lemma {:induction false} TargetsSame(t: Tree, u: Tree, x: NodeId, events: seq<Walk.Visit>, cells: bool)
    requires Grown(t, u, x) && OldVisits(t, events)
    ensures Targets(u, events, cells) == Targets(t, events, cells)
  {
    if events != [] {
      TargetsSame(t, u, x, events[..|events| - 1], cells);
      assert Same(t, u, events[|events| - 1].0);
    }
  }

  lemma {:induction false} EventsOld(t: Tree, x: NodeId)
    requires t.Valid() && x < |t.nodes|
    ensures OldVisits(t, Walk.Events(t, x, Always()))
    decreases Walk.MaxLevel(t.level) - t.level[x], |t.kids[x]| + 1
  {
    if t.Kind(x).IsContainer() { KidEventsOld(t, x, 0); }
  }

  lemma {:induction false} KidEventsOld(t: Tree, x: NodeId, k: nat)
    requires t.Valid() && x < |t.nodes| && k <= |t.kids[x]|
    ensures OldVisits(t, Walk.KidEvents(t, x, k, Always()))
    decreases Walk.MaxLevel(t.level) - t.level[x], |t.kids[x]| - k
  {
    if k < |t.kids[x]| {
      t.KidOf(x, t.kids[x][k]);
      EventsOld(t, t.kids[x][k]);
      KidEventsOld(t, x, k + 1);
    }
  }

  lemma {:induction false} AfterOld(t: Tree, root: NodeId, x: NodeId)
    requires t.Valid() && x < |t.nodes| && t.Under(x, root)
    ensures OldVisits(t, Walk.After(t, root, x, Always()))
    decreases t.level[x]
  {
    if x != root {
      t.ParentOf(x);
      var p := t.Parent(x).value;
      t.KidOf(p, x);
      KidEventsOld(t, p, IndexOf(t.kids[p], x) + 1);
      AfterOld(t, root, p);
    }
  }

  /** Below an inline node there is nothing to inline. */
  lemma {:induction false} InlineHasNoTargets(t: Tree, x: NodeId, cells: bool)
    requires t.Valid() && EdgesOk(t) && x < |t.nodes| && t.Kind(x).IsInline()
    ensures Targets(t, Walk.Events(t, x, Always()), cells) == []
    decreases Walk.MaxLevel(t.level) - t.level[x], |t.kids[x]| + 1
  {
    TargetsOne(t, (x, true), cells);
    TargetsOne(t, (x, false), cells);
    if t.Kind(x).IsContainer() {
      var kids := Walk.KidEvents(t, x, 0, Always());
      InlineKidsHaveNoTargets(t, x, 0, cells);
      TargetsConcat(t, kids, [(x, false)], cells);
      TargetsConcat(t, [(x, true)], kids + [(x, false)], cells);
    }
  }

  lemma {:induction false} InlineKidsHaveNoTargets(t: Tree, x: NodeId, k: nat, cells: bool)
    requires t.Valid() && EdgesOk(t) && x < |t.nodes| && k <= |t.kids[x]|
    requires t.Kind(x).IsInline() || IsTarget(t.Kind(x), true)
    ensures Targets(t, Walk.KidEvents(t, x, k, Always()), cells) == []
    decreases Walk.MaxLevel(t.level) - t.level[x], |t.kids[x]| - k
  {
    if k < |t.kids[x]| {
      var c := t.kids[x][k];
      t.KidOf(x, c);
      InlineHasNoTargets(t, c, cells);
      InlineKidsHaveNoTargets(t, x, k + 1, cells);
      TargetsConcat(t, Walk.Events(t, c, Always()), Walk.KidEvents(t, x, k + 1, Always()), cells);
    }
  }

  /** Standing at a target: itself, then the targets that follow it. */
  lemma RestAtTarget(t: Tree, root: NodeId, x: NodeId, cells: bool)
    requires t.Valid() && EdgesOk(t) && x < |t.nodes| && t.Under(x, root) && IsTarget(t.Kind(x), cells)
    ensures Targets(t, Walk.Rest(t, root, Walk.Cursor(Some(x), true), Always()), cells)
         == [x] + Targets(t, Walk.After(t, root, x, Always()), cells)
  {
    var kids, after := Walk.KidEvents(t, x, 0, Always()), Walk.After(t, root, x, Always());
    RestUnfolds(t, root, x);
    InlineKidsHaveNoTargets(t, x, 0, cells);
    TargetsOne(t, (x, true), cells);
    TargetsOne(t, (x, false), cells);
    hide Targets, Walk.Rest, Walk.Events, Walk.KidEvents, Walk.After, Tree.Valid, Tree.Under, EdgesOk;
    TargetsSplit(t, [(x, true)], kids, [(x, false)], after, cells);
  }

  lemma TargetsSplit(t: Tree, a: seq<Walk.Visit>, b: seq<Walk.Visit>, c: seq<Walk.Visit>, d: seq<Walk.Visit>,
                     cells: bool)
    requires Targets(t, b, cells) == [] && Targets(t, c, cells) == []
    ensures Targets(t, (a + (b + c)) + d, cells) == Targets(t, a, cells) + Targets(t, d, cells)
  {
    hide Targets;
    TargetsConcat(t, b, c, cells);
    TargetsConcat(t, a, b + c, cells);
    TargetsConcat(t, a + (b + c), d, cells);
    assert Targets(t, a, cells) + [] == Targets(t, a, cells);
  }

  lemma RestUnfolds(t: Tree, root: NodeId, x: NodeId)
    requires t.Valid() && x < |t.nodes| && t.Under(x, root) && t.Kind(x).IsContainer()
    ensures Walk.Rest(t, root, Walk.Cursor(Some(x), true), Always())
         == ([(x, true)] + (Walk.KidEvents(t, x, 0, Always()) + [(x, false)])) + Walk.After(t, root, x, Always())
  {
  }

  /** Growth below the target being visited leaves the targets to come as they were. */
  lemma TargetsKept(t: Tree, u: Tree, root: NodeId, x: NodeId, cells: bool)
    requires Grown(t, u, x) && EdgesOk(t) && EdgesOk(u) && root < |t.nodes| && t.Under(x, root)
             && IsTarget(t.Kind(x), cells)
    ensures u.Under(x, root)
    ensures Targets(u, Walk.Rest(u, root, Walk.Cursor(Some(x), true), Always()), cells)
         == Targets(t, Walk.Rest(t, root, Walk.Cursor(Some(x), true), Always()), cells)
  {
    assert Same(t, u, x) && t.Under(x, x);
    AfterKept(t, u, root, x, x);
    RestAtTarget(t, root, x, cells);
    RestAtTarget(u, root, x, cells);
    AfterOld(t, root, x);
    TargetsSame(t, u, x, Walk.After(t, root, x, Always()), cells);
  }

  /** Changing payloads changes no visit. */
  lemma {:induction false} EventsRelabelled(t: Tree, u: Tree, x: NodeId)
    requires t.Valid() && u.Valid() && SameLinks(t, u) && x < |t.nodes|
    ensures Walk.Events(u, x, Always()) == Walk.Events(t, x, Always())
    decreases Walk.MaxLevel(t.level) - t.level[x], |t.kids[x]| + 1
  {
    if t.Kind(x).IsContainer() { KidEventsRelabelled(t, u, x, 0); }
  }

  lemma {:induction false} KidEventsRelabelled(t: Tree, u: Tree, x: NodeId, k: nat)
    requires t.Valid() && u.Valid() && SameLinks(t, u) && x < |t.nodes| && k <= |t.kids[x]|
    ensures Walk.KidEvents(u, x, k, Always()) == Walk.KidEvents(t, x, k, Always())
    decreases Walk.MaxLevel(t.level) - t.level[x], |t.kids[x]| - k
  {
    if k < |t.kids[x]| {
      t.KidOf(x, t.kids[x][k]);
      EventsRelabelled(t, u, t.kids[x][k]);
      KidEventsRelabelled(t, u, x, k + 1);
    }
  }

  lemma {:induction false} AfterRelabelled(t: Tree, u: Tree, root: NodeId, x: NodeId)
    requires t.Valid() && u.Valid() && SameLinks(t, u) && x < |t.nodes| && root < |t.nodes| && t.Under(x, root)
    ensures u.Under(x, root) && Walk.After(u, root, x, Always()) == Walk.After(t, root, x, Always())
    decreases t.level[x]
  {
    if x != root {
      t.ParentOf(x);
      var p := t.Parent(x).value;
      t.KidOf(p, x);
      KidEventsRelabelled(t, u, p, IndexOf(t.kids[p], x) + 1);
      AfterRelabelled(t, u, root, p);
    }
  }

  lemma {:induction false} TargetsRelabelled(t: Tree, u: Tree, events: seq<Walk.Visit>, cells: bool)
    requires SameLinks(t, u)
    ensures Targets(u, events, cells) == Targets(t, events, cells)
  {
    if events != [] { TargetsRelabelled(t, u, events[..|events| - 1], cells); }
  }

  lemma RestRelabelled(t: Tree, u: Tree, root: NodeId, c: Walk.Cursor)
    requires t.Valid() && u.Valid() && SameLinks(t, u) && root < |t.nodes| && Walk.OnTree(t, root, c)
    ensures Walk.OnTree(u, root, c) && Walk.Rest(u, root, c, Always()) == Walk.Rest(t, root, c, Always())
  {
    if c.current.Some? {
      EventsRelabelled(t, u, c.current.value);
      AfterRelabelled(t, u, root, c.current.value);
    }
  }

  // ----- each target once -----

  lemma {:induction false} TargetWasVisited(t: Tree, events: seq<Walk.Visit>, cells: bool, x: NodeId)
    requires x in Targets(t, events, cells)
    ensures (x, true) in events
  {
    if events[|events| - 1] != (x, true) { TargetWasVisited(t, events[..|events| - 1], cells, x); }
  }

  lemma {:induction false} TargetsNoDup(t: Tree, events: seq<Walk.Visit>, cells: bool)
    requires forall x: NodeId :: multiset(events)[(x, true)] <= 1
    ensures NoDup(Targets(t, events, cells))
  {
    if events != [] {
      var n := |events| - 1;
      assert events == events[..n] + [events[n]];
      forall x: NodeId ensures multiset(events[..n])[(x, true)] <= 1 {
        assert multiset(events)[(x, true)] == multiset(events[..n])[(x, true)] + multiset{events[n]}[(x, true)];
      }
      TargetsNoDup(t, events[..n], cells);
      var v := events[n];
      var before := multiset(events[..n])[(v.0, true)];
      assert multiset(events)[(v.0, true)] == before + (if v.1 then 1 else 0) by {
        assert multiset(events)[(v.0, true)] == before + multiset{v}[(v.0, true)];
      }
      if v.1 && v.0 in Targets(t, events[..n], cells) {
        TargetWasVisited(t, events[..n], cells, v.0);
        assert false;
      }
    }
  }

  /** The walk meets every target at most once, and exactly those that are reached. */
  lemma TargetsOnce(t: Tree, root: NodeId, cells: bool)
    requires t.Valid() && root < |t.nodes|
    ensures NoDup(Targets(t, Walk.Events(t, root, Always()), cells))
  {
    EventsOld(t, root);
    var events := Walk.Events(t, root, Always());
    forall x: NodeId ensures multiset(events)[(x, true)] <= 1 {
      if x < |t.nodes| {
        Walk.EachOnce(t, root, x, true, Always());
      } else {
        assert (x, true) !in events;
      }
    }
    TargetsNoDup(t, events, cells);
  }

  lemma TargetsAreReached(t: Tree, root: NodeId, cells: bool, x: NodeId)
    requires t.Valid() && root < |t.nodes| && x < |t.nodes|
    ensures x in Targets(t, Walk.Events(t, root, Always()), cells)
       <==> IsTarget(t.Kind(x), cells) && Walk.Reached(t, root, x, Always())
  {
    var events := Walk.Events(t, root, Always());
    Walk.EachOnce(t, root, x, true, Always());
    TargetsIn(t, events, cells, x);
  }

  lemma {:induction false} TargetsIn(t: Tree, events: seq<Walk.Visit>, cells: bool, x: NodeId)
    requires x < |t.nodes|
    ensures x in Targets(t, events, cells) <==> IsTarget(t.Kind(x), cells) && (x, true) in events
  {
    if events != [] { TargetsIn(t, events[..|events| - 1], cells, x); }
  }
}
