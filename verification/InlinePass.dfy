/** The walk that inlines the text of each block (src/markdown.rs). */
module InlinePass {
  import opened Bytes
  import opened Node
  import opened Growth
  import opened MD = Markdown
  import opened InlineTree
  import opened IN = Inline
  import opened GrowingWalk
  import A = Arena
  import LinkAim
  import Walk

  // ----- the state of an inline walk -----

  /** Since `t1` the nodes in `done` gave up their text and gained children; the other
      old nodes are as they were, and new ones are inline nodes and footnote items. */
  ghost predicate Walked(t1: Tree, t: Tree, done: seq<NodeId>) {
    && t1.Valid() && t.Valid() && |t1.nodes| <= |t.nodes| && Fit(t1, t)
    && (forall x :: 0 <= x < |t1.nodes| ==> OldNode(t1, t, x, x in done))
  }

  ghost predicate OldNode(t1: Tree, t: Tree, x: NodeId, cleared: bool)
    requires x < |t1.nodes| <= |t.nodes| && |t1.level| == |t1.nodes| == |t1.kids| && |t.level| == |t.nodes| == |t.kids|
  {
    && t.Kind(x) == t1.Kind(x) && t.Parent(x) == t1.Parent(x) && t.level[x] == t1.level[x]
    && (if cleared then t.nodes[x].data == t1.nodes[x].data.(content := "")
        else t.nodes[x].data == t1.nodes[x].data && t.kids[x] == t1.kids[x])
  }

  /** The text `x` had is laid out below it. */
  ghost predicate Filled(t1: Tree, t: Tree, x: NodeId) {
    x < |t1.nodes| && exists ps, tail :: Laid(t1, t, x, t1.nodes[x].data.content, ps, tail)
  }

  /** Every target on the way up from the cursor has been dealt with. */
  ghost predicate AboveDone(t: Tree, root: NodeId, x: NodeId, cells: bool, done: seq<NodeId>)
    requires t.Valid() && x < |t.nodes|
    decreases t.level[x]
  {
    x == root || t.Parent(x) == None ||
    (assert t.UpOk(x);
     (IsTarget(t.Kind(t.Parent(x).value), cells) ==> t.Parent(x).value in done)
     && AboveDone(t, root, t.Parent(x).value, cells, done))
  }

  ghost predicate CursorDone(t: Tree, root: NodeId, c: Walk.Cursor, cells: bool, done: seq<NodeId>) {
    c.current.Some? ==>
      && t.Valid() && c.current.value < |t.nodes| && AboveDone(t, root, c.current.value, cells, done)
      && (!c.entering && IsTarget(t.Kind(c.current.value), cells) ==> c.current.value in done)
  }

  lemma AboveUnfolds(t: Tree, root: NodeId, x: NodeId, q: NodeId, cells: bool, done: seq<NodeId>)
    requires t.Valid() && x < |t.nodes| && t.Parent(x) == Some(q)
    ensures q < |t.nodes|
    ensures AboveDone(t, root, x, cells, done)
       <==> x == root || ((IsTarget(t.Kind(q), cells) ==> q in done) && AboveDone(t, root, q, cells, done))
  {
    assert t.UpOk(x);
  }

  /** One advance: whatever was entered before is done. */
  lemma DoneStep(t: Tree, root: NodeId, c: Walk.Cursor, cells: bool, done: seq<NodeId>)
    requires Walk.OnTree(t, root, c) && root < |t.nodes| && c.current.Some? && CursorDone(t, root, c, cells, done)
    requires IsTarget(t.Kind(c.current.value), cells) ==> c.current.value in done
    ensures CursorDone(t, root, Walk.AdvanceCursor(t.nodes, root, c, Walk.GoToNext), cells, done)
  {
    var x := c.current.value;
    var m := Walk.Moves(t, root, c, Walk.GoToNext);
    if t.Parent(x).Some? { AboveUnfolds(t, root, x, t.Parent(x).value, cells, done); }
    var d := Walk.AdvanceCursor(t.nodes, root, c, Walk.GoToNext);
    if d.current.Some? && t.Parent(d.current.value).Some? {
      AboveUnfolds(t, root, d.current.value, t.Parent(d.current.value).value, cells, done);
    }
    hide AboveDone, Walk.AdvanceCursor;
  }

  /** Paths stay done when the tree changes below. */
  lemma {:induction false} AboveKept(t: Tree, u: Tree, root: NodeId, x: NodeId, cells: bool, done: seq<NodeId>,
                                     done': seq<NodeId>)
    requires t.Valid() && u.Valid() && x < |t.nodes| <= |u.nodes| && done <= done'
    requires forall y :: 0 <= y < |t.nodes| ==> u.Parent(y) == t.Parent(y) && u.Kind(y) == t.Kind(y)
    requires AboveDone(t, root, x, cells, done)
    ensures AboveDone(u, root, x, cells, done')
    decreases t.level[x]
  {
    if x != root && t.Parent(x).Some? {
      assert t.UpOk(x);
      AboveKept(t, u, root, t.Parent(x).value, cells, done, done');
    }
  }

  // ----- taking a node's text -----

  function Taken(t: Tree, x: NodeId): Tree
    requires x < |t.nodes|
  {
    WithData(t, x, t.nodes[x].data.(content := ""))
  }

  lemma TakenKeeps(t: Tree, x: NodeId, links: Books, notes: seq<Reference>, view: seq<(nat, Option<NodeId>)>)
    requires t.Valid() && EdgesOk(t) && x < |t.nodes| && NotesFit(t, links, notes, view)
    ensures var u := Taken(t, x); u.Valid() && EdgesOk(u) && SameLinks(t, u) && NotesFit(u, links, notes, view)
  {
    var u := Taken(t, x);
    SameLinksValid(t, u);
    forall k | 0 <= k < |notes| ensures NoteFits(u, links.links, notes, view, k) { assert NoteFits(t, links.links,
        notes, view, k); }
  }

  /** Inlines the text of `x`, taking it away from the node. */
  method InlineAt(m: Markdown, x: NodeId) returns (ghost ps: seq<Piece>, ghost tail: Option<NodeId>)
    requires Live(m) && m.nesting < m.maxNesting && x < |m.arena.nodes| && m.arena.T().Kind(x).HostsInline()
    modifies m`nesting, m`insideLink, m`notes, m`books, m.arena, m.handles
    ensures Live(m) && m.nesting == old(m.nesting) && m.insideLink == old(m.insideLink)
    ensures Inlined(m, Taken(old(m.arena.T()), x), old(m.books), old(m.notes), x)
    ensures Laid(Taken(old(m.arena.T()), x), m.arena.T(), x, old(m.arena.T()).nodes[x].data.content, ps, tail)
    ensures old(m.arena.T()).nodes[x].data.content == [] ==>
              m.arena.T() == old(m.arena.T()) && m.books == old(m.books) && m.notes == old(m.notes)
    ensures LinkAim.CitesNote(m.ext.footnotes, m.insideLink, m.uni, m.refs, old(m.arena.T()).nodes[x].data.content) ==>
              |m.notes| > |old(m.notes)|
  {
    hide NotesFit, Tree.Valid, EdgesOk, Inlined, Laid, LinkAim.CitesNote;
    ghost var t := m.arena.T();
    TakenKeeps(t, x, m.books, m.notes, m.View());
    var data := m.arena.nodes[x].data;
    m.arena.SetData(x, data.(content := ""));
    ps, tail := IN.Inline(m, x, data.content);
    if data.content == [] { assert Taken(t, x).nodes == t.nodes; }
  }

  // ----- one visit -----

  /** Where the cursor enters a target, that target is an old node not yet done. */
  lemma NextTarget(t1: Tree, t: Tree, root: NodeId, x: NodeId, cells: bool, done: seq<NodeId>)
    requires t1.Valid() && root < |t1.nodes| && t.Valid() && EdgesOk(t) && x < |t.nodes| && t.Under(x, root)
    requires IsTarget(t.Kind(x), cells)
    requires done + Targets(t, Walk.Rest(t, root, Walk.Cursor(Some(x), true), Always()), cells)
          == Targets(t1, Walk.Events(t1, root, Always()), cells)
    ensures x < |t1.nodes| && x !in done
  {
    hide Targets, Walk.Rest, Walk.Events, Tree.Valid, Tree.Under, EdgesOk;
    RestAtTarget(t, root, x, cells);
    TargetsOnce(t1, root, cells);
    var all := Targets(t1, Walk.Events(t1, root, Always()), cells);
    assert all[|done|] == x;
    TargetWasVisited(t1, Walk.Events(t1, root, Always()), cells, x);
    EventsOld(t1, root);
    assert forall i :: 0 <= i < |done| ==> done[i] == all[i];
  }

  lemma DoneAreOld(t1: Tree, root: NodeId, cells: bool, done: seq<NodeId>, rest: seq<NodeId>, x: NodeId)
    requires t1.Valid() && root < |t1.nodes| && x in done
    requires done + rest == Targets(t1, Walk.Events(t1, root, Always()), cells)
    ensures x < |t1.nodes|
  {
    hide Targets, Walk.Events, Tree.Valid;
    TargetWasVisited(t1, Walk.Events(t1, root, Always()), cells, x);
    EventsOld(t1, root);
  }

  /** Inlining one more target. */
  lemma WalkedOn(t1: Tree, t: Tree, u: Tree, x: NodeId, done: seq<NodeId>)
    requires Walked(t1, t, done) && x < |t1.nodes| && x !in done
    requires Grown(Taken(t, x), u, x) && Fit(Taken(t, x), u)
    ensures Walked(t1, u, done + [x])
  {
    var v := Taken(t, x);
    forall y | 0 <= y < |t1.nodes| ensures OldNode(t1, u, y, y in done + [x]) {
      assert OldNode(t1, t, y, y in done) && Same(v, u, y);
    }
    forall y | |t1.nodes| <= y < |u.nodes| ensures FitNode(u.nodes[y]) {
      if y < |t.nodes| { assert FitNode(t.nodes[y]) && Same(v, u, y); }
    }
  }

  lemma FilledKept(t1: Tree, t: Tree, u: Tree, x: NodeId, y: NodeId)
    requires Filled(t1, t, y) && x != y && x < |t.nodes| && Grown(Taken(t, x), u, x) && |t.kids| == |t.nodes|
    ensures Filled(t1, u, y)
  {
    var ps, tail :| Laid(t1, t, y, t1.nodes[y].data.content, ps, tail);
    LaidKept(t1, t, u, x, y, t1.nodes[y].data.content, ps, tail);
  }

  lemma LaidKept(t1: Tree, t: Tree, u: Tree, x: NodeId, y: NodeId, data: bytes, ps: seq<Piece>, tail: Option<NodeId>)
    requires Laid(t1, t, y, data, ps, tail) && x != y && x < |t.nodes| && Grown(Taken(t, x), u, x)
             && |t.kids| == |t.nodes|
    ensures Laid(t1, u, y, data, ps, tail)
  {
    hide Chained, Shown, NodesOf;
    forall z, beg: nat, end: nat | TextIs(t, data, z, beg, end) ensures TextIs(u, data, z, beg, end) {
      assert Same(Taken(t, x), u, z);
    }
  }

  lemma FilledNow(t1: Tree, t: Tree, u: Tree, x: NodeId, ps: seq<Piece>, tail: Option<NodeId>)
    requires x < |t1.nodes| <= |t.nodes| && |t1.level| == |t1.nodes| == |t1.kids| && |t.level| == |t.nodes| == |t.kids|
    requires OldNode(t1, t, x, false) && Laid(Taken(t, x), u, x, t.nodes[x].data.content, ps, tail)
    ensures Filled(t1, u, x)
  {
    hide Chained, Shown, NodesOf, Texts, TextIs;
    assert Laid(t1, u, x, t1.nodes[x].data.content, ps, tail);
  }

  /** The targets to come, once the current visit is over. */
  lemma TargetsAdvance(t: Tree, root: NodeId, c: Walk.Cursor, cells: bool)
    requires Walk.OnTree(t, root, c) && c.current.Some? && root < |t.nodes|
    ensures var d := Walk.AdvanceCursor(t.nodes, root, c, Walk.GoToNext);
            Walk.OnTree(t, root, d)
            && |Walk.Rest(t, root, d, Always())| < |Walk.Rest(t, root, c, Always())|
            && Targets(t, Walk.Rest(t, root, c, Always()), cells)
               == (if c.entering && IsTarget(t.Kind(c.current.value), cells) then [c.current.value] else [])
                  + Targets(t, Walk.Rest(t, root, d, Always()), cells)
  {
    var x, rest := c.current.value, Walk.Rest(t, root, c, Always());
    Walk.AdvanceConsumes(t, root, c, Always());
    hide Targets, Walk.Rest, Tree.Under, Tree.Valid, Walk.AdvanceCursor;
    assert rest == [rest[0]] + rest[1..];
    TargetsOne(t, rest[0], cells);
    TargetsConcat(t, [rest[0]], rest[1..], cells);
  }

  lemma OldOf(t1: Tree, t: Tree, done: seq<NodeId>, x: NodeId)
    requires Walked(t1, t, done) && x < |t1.nodes|
    ensures t1.Valid() && t.Valid() && x < |t1.nodes| <= |t.nodes|
    ensures |t1.level| == |t1.nodes| == |t1.kids| && |t.level| == |t.nodes| == |t.kids|
    ensures OldNode(t1, t, x, x in done)
  {
  }

  lemma TakenNumbers(t1: Tree, t: Tree, u: Tree, x: NodeId, l1: Books, l: Books, l': Books)
    requires t1.Valid() && t.Valid() && x < |t1.nodes| <= |t.nodes| && Entered(t1, t, l1, l)
    requires Grown(Taken(t, x), u, x) && Entered(Taken(t, x), u, l, l')
    ensures Entered(t1, u, l1, l')
  {
    EnteredTrans(t1, Taken(t, x), u, l1, l, l');
  }

  /** Inlining a target leaves the targets to come, and the path to the root is done. */
  lemma AfterTarget(t: Tree, u: Tree, root: NodeId, x: NodeId, cells: bool, done: seq<NodeId>)
    requires t.Valid() && EdgesOk(t) && EdgesOk(u) && root < |t.nodes| && x < |t.nodes| && t.Under(x, root)
             && IsTarget(t.Kind(x), cells)
    requires Grown(Taken(t, x), u, x) && CursorDone(t, root, Walk.Cursor(Some(x), true), cells, done)
    ensures var c := Walk.Cursor(Some(x), true);
            Walk.OnTree(u, root, c) && CursorDone(u, root, c, cells, done + [x]) && IsTarget(u.Kind(x), cells)
            && Targets(u, Walk.Rest(u, root, c, Always()), cells) == Targets(t, Walk.Rest(t, root, c, Always()), cells)
  {
    hide Targets, Walk.Rest, Walk.Events, EdgesOk;
    var c, v := Walk.Cursor(Some(x), true), Taken(t, x);
    TakenSound(t, x);
    RestRelabelled(t, v, root, c);
    TargetsRelabelled(t, v, Walk.Rest(t, root, c, Always()), cells);
    TargetsKept(v, u, root, x, cells);
    forall y | 0 <= y < |t.nodes| ensures u.Parent(y) == t.Parent(y) && u.Kind(y) == t.Kind(y) { assert Same(v, u, y); }
    AboveKept(t, u, root, x, cells, done, done + [x]);
  }

  lemma TakenSound(t: Tree, x: NodeId)
    requires t.Valid() && x < |t.nodes|
    ensures Taken(t, x).Valid() && SameLinks(t, Taken(t, x)) && (EdgesOk(t) ==> EdgesOk(Taken(t, x)))
  {
    SameLinksValid(t, Taken(t, x));
  }

  /** The books of a walk: what is done, and that it is filled. */
  ghost predicate Progress(m: Markdown, t1: Tree, l1: Books, n1: seq<Reference>, done: seq<NodeId>)
    reads m, m.arena, m.notes
  {
    && Live(m) && m.nesting < m.maxNesting
    && Walked(t1, m.arena.T(), done) && Entered(t1, m.arena.T(), l1, m.books) && n1 <= m.notes
    && (m.ext.footnotes || (m.books == l1 && m.notes == n1))
    && (forall k :: 0 <= k < |done| ==> Filled(t1, m.arena.T(), done[k]))
    && (done == [] ==> m.arena.T() == t1 && m.books == l1 && m.notes == n1)
    && (forall k :: 0 <= k < |done| && Cites(m, t1, done[k]) ==> |m.notes| > |n1|)
  }

  /** The text `x` had starts with a reference to a defined footnote. */
  ghost predicate Cites(m: Markdown, t1: Tree, x: NodeId)
    reads m
  {
    x < |t1.nodes| && LinkAim.CitesNote(m.ext.footnotes, m.insideLink, m.uni, m.refs, t1.nodes[x].data.content)
  }

  /** Inlining one more target. */
  method InlineTarget(m: Markdown, x: NodeId, ghost t1: Tree, ghost l1: Books, ghost n1: seq<Reference>,
                      ghost done: seq<NodeId>, ghost first: bool)
    requires Progress(m, t1, l1, n1, done) && x < |t1.nodes| && (first <==> x !in done)
    requires x < |m.arena.nodes| && IsTarget(m.arena.T().Kind(x), true)
    modifies m`nesting, m`insideLink, m`notes, m`books, m.arena, m.handles
    ensures m.nesting == old(m.nesting) && m.insideLink == old(m.insideLink)
    ensures Progress(m, t1, l1, n1, if first then done + [x] else done)
    ensures first ==> Grown(Taken(old(m.arena.T()), x), m.arena.T(), x)
    ensures !first ==> m.arena.T() == old(m.arena.T())
  {
    hide NotesFit, Tree.Valid, EdgesOk, Laid, Filled, Fit, Entered, Walked, Markdown.Valid, LinkAim.CitesNote;
    ghost var t, l := m.arena.T(), m.books;
    OldOf(t1, t, done, x);
    ghost var ps, tail := InlineAt(m, x);
    ghost var u := m.arena.T();
    if first {
      WalkedOn(t1, t, u, x, done);
      TakenNumbers(t1, t, u, x, l1, l, m.books);
      FilledNow(t1, t, u, x, ps, tail);
      forall k | 0 <= k < |done| ensures Filled(t1, u, done[k]) { FilledKept(t1, t, u, x, done[k]); }
    }
  }

  /** Where the walk stands: what is done and what is to come make up the targets. */
  ghost predicate Standing(t: Tree, t1: Tree, root: NodeId, cells: bool, c: Walk.Cursor, done: seq<NodeId>) {
    && t1.Valid() && root < |t1.nodes| <= |t.nodes| && t.Valid() && EdgesOk(t)
    && Walk.OnTree(t, root, c) && CursorDone(t, root, c, cells, done)
    && done + Targets(t, Walk.Rest(t, root, c, Always()), cells) == Targets(t1, Walk.Events(t1, root, Always()), cells)
  }

  /** The target being entered. */
  function Now(t: Tree, c: Walk.Cursor, cells: bool): seq<NodeId> {
    if c.current.Some? && c.current.value < |t.nodes| && c.entering && IsTarget(t.Kind(c.current.value), cells)
    then [c.current.value] else []
  }

  /** One advance, once the current target is done. */
  lemma StandsNext(t: Tree, t1: Tree, root: NodeId, cells: bool, c: Walk.Cursor, done: seq<NodeId>)
    requires t1.Valid() && root < |t1.nodes| <= |t.nodes| && EdgesOk(t) && Walk.OnTree(t, root, c) && c.current.Some?
    requires done + Targets(t, Walk.Rest(t, root, c, Always()), cells) == Targets(t1, Walk.Events(t1, root, Always()),
             cells)
    requires CursorDone(t, root, c, cells, done + Now(t, c, cells))
    requires IsTarget(t.Kind(c.current.value), cells) ==> c.current.value in done + Now(t, c, cells)
    ensures var d := Walk.AdvanceCursor(t.nodes, root, c, Walk.GoToNext);
            Standing(t, t1, root, cells, d, done + Now(t, c, cells))
            && |Walk.Rest(t, root, d, Always())| < |Walk.Rest(t, root, c, Always())|
  {
    hide Targets, Walk.Rest, Walk.Events, EdgesOk, CursorDone, Tree.Under, Walk.AdvanceCursor;
    TargetsAdvance(t, root, c, cells);
    DoneStep(t, root, c, cells, done + Now(t, c, cells));
  }

  /** Inlining the target being entered leaves the targets to come. */
  lemma StandsAfter(t: Tree, u: Tree, t1: Tree, root: NodeId, cells: bool, x: NodeId, done: seq<NodeId>)
    requires Standing(t, t1, root, cells, Walk.Cursor(Some(x), true), done) && x < |t.nodes|
             && IsTarget(t.Kind(x), cells)
    requires EdgesOk(u) && Grown(Taken(t, x), u, x)
    ensures var c := Walk.Cursor(Some(x), true);
            Now(u, c, cells) == [x]
            && Standing(u, t1, root, cells, Walk.AdvanceCursor(u.nodes, root, c, Walk.GoToNext), done + [x])
  {
    hide Targets, Walk.Rest, Walk.Events, EdgesOk, CursorDone, Tree.Under, Walk.AdvanceCursor;
    AfterTarget(t, u, root, x, cells, done);
    StandsNext(u, t1, root, cells, Walk.Cursor(Some(x), true), done);
  }

  /** What standing at a node means for it. */
  lemma Stood(t: Tree, t1: Tree, root: NodeId, cells: bool, c: Walk.Cursor, done: seq<NodeId>)
    requires Standing(t, t1, root, cells, c, done) && c.current.Some?
    ensures c.current.value < |t.nodes|
    ensures Walk.OnTree(t, root, c) && t1.Valid() && root < |t1.nodes|
    ensures IsTarget(t.Kind(c.current.value), cells) ==>
              c.current.value < |t1.nodes| && (c.entering <==> c.current.value !in done)
  {
    hide Targets, Walk.Rest, Walk.Events, AboveDone;
    var x := c.current.value;
    if IsTarget(t.Kind(x), cells) {
      if c.entering { NextTarget(t1, t, root, x, cells, done); }
      else { DoneAreOld(t1, root, cells, done, Targets(t, Walk.Rest(t, root, c, Always()), cells), x); }
    }
  }

  lemma StandsOn(t: Tree, u: Tree, t1: Tree, root: NodeId, cells: bool, c: Walk.Cursor, done: seq<NodeId>)
    requires Standing(t, t1, root, cells, c, done) && c.current.Some? && c.current.value < |t.nodes|
    requires if c.entering && IsTarget(t.Kind(c.current.value), cells)
             then EdgesOk(u) && Grown(Taken(t, c.current.value), u, c.current.value) else u == t
    ensures Walk.OnTree(t, root, c)
    ensures var d := Walk.AdvanceCursor(u.nodes, root, c, Walk.GoToNext);
            Standing(u, t1, root, cells, d, done + Now(t, c, cells))
            && (!(c.entering && IsTarget(t.Kind(c.current.value), cells)) ==>
                |Walk.Rest(u, root, d, Always())| < |Walk.Rest(t, root, c, Always())|)
  {
    hide Targets, Walk.Rest, Walk.Events, AboveDone, EdgesOk, Tree.Under, Walk.AdvanceCursor;
    var x := c.current.value;
    if c.entering && IsTarget(t.Kind(x), cells) {
      StandsAfter(t, u, t1, root, cells, x, done);
    } else {
      assert done + [] == done;
      StandsNext(t, t1, root, cells, c, done);
    }
  }

  ghost predicate Walking(m: Markdown, t1: Tree, l1: Books, n1: seq<Reference>, root: NodeId, cells: bool,
                          c: Walk.Cursor, done: seq<NodeId>)
    reads m, m.arena, m.notes
  {
    Progress(m, t1, l1, n1, done) && Standing(m.arena.T(), t1, root, cells, c, done)
  }

  /** One visit of the walk.  The text is taken on both visits of a target; when it is
      left there is none. */
  method Visit(m: Markdown, w: A.Walker, cells: bool, ghost t1: Tree, ghost l1: Books, ghost n1: seq<Reference>,
               ghost done: seq<NodeId>) returns (ghost done': seq<NodeId>)
    requires Walking(m, t1, l1, n1, w.root, cells, w.C(), done) && w.current.Some?
    modifies m`nesting, m`insideLink, m`notes, m`books, m.arena, m.handles, w
    ensures m.nesting == old(m.nesting) && m.insideLink == old(m.insideLink)
    ensures Walking(m, t1, l1, n1, w.root, cells, w.C(), done')
    ensures |done'| > |done| || (done' == done && m.arena.T() == old(m.arena.T())
              && |Walk.Rest(m.arena.T(), w.root, w.C(),
                  Always())| < |old(Walk.Rest(m.arena.T(), w.root, w.C(), Always()))|)
  {
    hide NotesFit, Tree.Valid, EdgesOk, Markdown.Valid, Walk.Rest, Tree.Under, Standing, Progress, Walk.AdvanceCursor;
    ghost var t := m.arena.T();
    Stood(t, t1, w.root, cells, w.C(), done);
    var x := w.current.value;
    done' := done + Now(t, w.C(), cells);
    assert done + [] == done;
    if IsTarget(m.arena.nodes[x].kind, cells) {
      InlineTarget(m, x, t1, l1, n1, done, w.entering);
    }
    ProgressParts(m, t1, l1, n1, done');
    StandsOn(t, m.arena.T(), t1, w.root, cells, w.C(), done);
    w.Advance(m.arena, Walk.GoToNext);
  }

  lemma ProgressParts(m: Markdown, t1: Tree, l1: Books, n1: seq<Reference>, done: seq<NodeId>)
    requires Progress(m, t1, l1, n1, done)
    ensures Live(m) && m.arena.T().Valid() && EdgesOk(m.arena.T()) && Walked(t1, m.arena.T(), done)
    ensures Entered(t1, m.arena.T(), l1, m.books) && n1 <= m.notes
  {
  }

  /** A walk over the subtree at `root`: every target that is reached is inlined once,
      in order, although the tree grows under the cursor. */
  method InlineWalk(m: Markdown, root: NodeId, cells: bool)
    requires Live(m) && m.nesting < m.maxNesting && root < |m.arena.nodes|
    modifies m`nesting, m`insideLink, m`notes, m`books, m.arena, m.handles
    ensures m.nesting == old(m.nesting) && m.insideLink == old(m.insideLink)
    ensures Progress(m, old(m.arena.T()), old(m.books), old(m.notes),
                     Targets(old(m.arena.T()), Walk.Events(old(m.arena.T()), root, Always()), cells))
  {
    hide NotesFit, Tree.Valid, EdgesOk, Markdown.Valid, Walk.Rest, Walk.Events, Tree.Under, Standing, Progress, Targets;
    ghost var t1, l1, n1 := m.arena.T(), m.books, m.notes;
    ghost var done: seq<NodeId> := [];
    var w := new A.Walker(root);
    StartWalk(m, root, cells);
    ghost var all := |Targets(t1, Walk.Events(t1, root, Always()), cells)|;
    while w.current.Some?
      invariant Walking(m, t1, l1, n1, root, cells, w.C(), done) && w.root == root
          && Walk.OnTree(m.arena.T(), root, w.C())
      invariant m.nesting == old(m.nesting) && m.insideLink == old(m.insideLink)
      decreases all - |done|, |Walk.Rest(m.arena.T(), root, w.C(), Always())|
    {
      done := Visit(m, w, cells, t1, l1, n1, done);
      DoneBounded(m.arena.T(), t1, root, cells, w.C(), done);
    }
    WalkDone(m.arena.T(), t1, root, cells, w.C(), done);
  }

  lemma StartWalk(m: Markdown, root: NodeId, cells: bool)
    requires Live(m) && m.nesting < m.maxNesting && root < |m.arena.nodes|
    ensures m.arena.T().Valid() && Walk.OnTree(m.arena.T(), root, Walk.Cursor(Some(root), true))
    ensures Walking(m, m.arena.T(), m.books, m.notes, root, cells, Walk.Cursor(Some(root), true), [])
  {
    hide NotesFit, Tree.Valid, EdgesOk, Walk.Events, Targets;
    var t := m.arena.T();
    m.arena.StartRest(root, Always());
    assert [] + Targets(t, Walk.Events(t, root, Always()), cells) == Targets(t, Walk.Events(t, root, Always()), cells);
  }

  lemma DoneBounded(t: Tree, t1: Tree, root: NodeId, cells: bool, c: Walk.Cursor, done: seq<NodeId>)
    requires Standing(t, t1, root, cells, c, done)
    ensures Walk.OnTree(t, root, c) && |done| <= |Targets(t1, Walk.Events(t1, root, Always()), cells)|
  {
  }

  lemma WalkDone(t: Tree, t1: Tree, root: NodeId, cells: bool, c: Walk.Cursor, done: seq<NodeId>)
    requires Standing(t, t1, root, cells, c, done) && c.current == None
    ensures done == Targets(t1, Walk.Events(t1, root, Always()), cells)
  {
  }
}
