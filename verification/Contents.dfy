/** The table of contents (src/html.rs): a first walk that numbers the headings and
    writes a link to each, and the body pass that must carry the same numbers. */
module Contents {
  import opened Bytes
  import opened Node
  import opened Growth
  import opened Shape
  import opened Tags
  import opened Html
  import A = Arena
  import Esc
  import HeadingIds
  import Walk

  /** Headings the table lists: all but title blocks. */
  predicate Listed(n: Node) { n.kind.Heading? && !n.data.heading.isTitleblock }

  /** `x` is strictly below a listed heading, within the walk from `root`. */
  ghost predicate Inside(t: Tree, root: NodeId, x: NodeId)
    requires t.Valid() && x < |t.nodes|
    decreases t.level[x]
  {
    x != root && t.Parent(x).Some? &&
    (assert t.UpOk(x); Listed(t.nodes[t.Parent(x).value]) || Inside(t, root, t.Parent(x).value))
  }

  /** Only inline nodes stand below a heading. */
  lemma {:induction false} InsideIsInline(t: Tree, root: NodeId, x: NodeId)
    requires t.Valid() && EdgesOk(t) && x < |t.nodes| && Inside(t, root, x)
    ensures t.Kind(x).IsInline()
    decreases t.level[x]
  {
    assert t.UpOk(x);
    if !Listed(t.nodes[t.Parent(x).value]) { InsideIsInline(t, root, t.Parent(x).value); }
  }

  lemma InsideUnfolds(t: Tree, root: NodeId, x: NodeId, q: NodeId)
    requires t.Valid() && x < |t.nodes| && t.Parent(x) == Some(q)
    ensures q < |t.nodes| && (Inside(t, root, x) <==> x != root && (Listed(t.nodes[q]) || Inside(t, root, q)))
  {
    assert t.UpOk(x);
  }

  /** The walk's answers: images are skipped only where a heading is being written. */
  ghost function TocStatus(p: Params, t: Tree, root: NodeId, v: Walk.Visit): Walk.WalkStatus
    requires t.Valid()
  {
    if v.0 < |t.nodes| && !Listed(t.nodes[v.0]) && Inside(t, root, v.0) then Status(p, t.nodes, v) else Walk.GoToNext
  }

  ghost function TocVisitor(p: Params, t: Tree, root: NodeId): Walk.Visitor
    requires t.Valid()
  {
    v => if t.Valid() then TocStatus(p, t, root, v) else Walk.GoToNext
  }

  // ----- the flag that says a heading is being written -----

  ghost predicate FlagAt(t: Tree, root: NodeId, c: Walk.Cursor) {
    c.current.Some? && t.Valid() && c.current.value < |t.nodes| &&
    if Listed(t.nodes[c.current.value]) then !c.entering else Inside(t, root, c.current.value)
  }

  /** Images counted while a heading is being written. */
  ghost function CountAt(t: Tree, root: NodeId, c: Walk.Cursor): int {
    if c.current.Some? && t.Valid() && c.current.value < |t.nodes| && Inside(t, root, c.current.value)
    then DisableFor(t.nodes, root, c) else 0
  }

  ghost predicate SaneInside(p: Params, t: Tree, root: NodeId, c: Walk.Cursor) {
    c.current.Some? && t.Valid() && c.current.value < |t.nodes| && Inside(t, root, c.current.value) ==>
        Sane(p, t, root, c)
  }

  /** One advance keeps the flag in step with the cursor's place. */
  lemma FlagStep(p: Params, t: Tree, root: NodeId, c: Walk.Cursor)
    requires Renderable(p, t) && Walk.OnTree(t, root, c) && root < |t.nodes| && c.current.Some?
    ensures var x := c.current.value;
            var d := Walk.AdvanceCursor(t.nodes, root, c, TocStatus(p, t, root, (x, c.entering)));
            FlagAt(t, root, d) == if Listed(t.nodes[x]) then c.entering else FlagAt(t, root, c)
  {
    var x := c.current.value;
    var status := TocStatus(p, t, root, (x, c.entering));
    var d := Walk.AdvanceCursor(t.nodes, root, c, status);
    var m := Walk.Moves(t, root, c, status);
    if t.Parent(x).Some? { InsideUnfolds(t, root, x, t.Parent(x).value); }
    if d.current.Some? {
      var y := d.current.value;
      if t.Parent(y).Some? { InsideUnfolds(t, root, y, t.Parent(y).value); }
      if Inside(t, root, y) { InsideIsInline(t, root, y); }
    }
    if Inside(t, root, x) { InsideIsInline(t, root, x); }
    hide Walk.AdvanceCursor, Walk.OnTree, Inside, TocStatus;
  }

  lemma CountStep(p: Params, t: Tree, root: NodeId, c: Walk.Cursor)
    requires Renderable(p, t) && Walk.OnTree(t, root, c) && root < |t.nodes| && c.current.Some?
    requires SaneInside(p, t, root, c)
    ensures var x := c.current.value;
            var d := Walk.AdvanceCursor(t.nodes, root, c, TocStatus(p, t, root, (x, c.entering)));
            && SaneInside(p, t, root, d)
            && CountAt(t, root, d) == CountAt(t, root, c)
                 + (if Inside(t, root, x) then DisableDelta(p, t.nodes, (x, c.entering)) else 0)
  {
    var x := c.current.value;
    var status := TocStatus(p, t, root, (x, c.entering));
    var d := Walk.AdvanceCursor(t.nodes, root, c, status);
    var m := Walk.Moves(t, root, c, status);
    if t.Parent(x).Some? { InsideUnfolds(t, root, x, t.Parent(x).value); }
    if d.current.Some? && t.Parent(d.current.value).Some? {
      InsideUnfolds(t, root, d.current.value, t.Parent(d.current.value).value);
    }
    if Inside(t, root, x) {
      InsideIsInline(t, root, x);
      DisableStep(p, t, root, c);
    }
    hide Walk.AdvanceCursor, Walk.OnTree, Inside, ParserShaped, Renderable;
  }

  // ----- what is visited while a heading is written -----

  /** Below a heading this walk and the body walk make the same visits, none of them
      of a listed heading. */
  lemma {:induction false} InsideEvents(p: Params, t: Tree, root: NodeId, x: NodeId)
    requires Renderable(p, t) && root < |t.nodes| && x < |t.nodes| && t.Under(x, root) && Inside(t, root, x)
    ensures Walk.Events(t, x, TocVisitor(p, t, root)) == Walk.Events(t, x, Visitor(p, t.nodes))
    ensures Unlisted(t, Walk.Events(t, x, Visitor(p, t.nodes)))
    decreases Walk.MaxLevel(t.level) - t.level[x], |t.kids[x]| + 1
  {
    InsideIsInline(t, root, x);
    if Walk.Opens(t, x, Visitor(p, t.nodes)) { InsideKidEvents(p, t, root, x, 0); }
  }

  lemma {:induction false} InsideKidEvents(p: Params, t: Tree, root: NodeId, x: NodeId, k: nat)
    requires Renderable(p, t) && root < |t.nodes| && x < |t.nodes| && t.Under(x, root) && k <= |t.kids[x]|
    requires Listed(t.nodes[x]) || Inside(t, root, x)
    ensures Walk.KidEvents(t, x, k, TocVisitor(p, t, root)) == Walk.KidEvents(t, x, k, Visitor(p, t.nodes))
    ensures Unlisted(t, Walk.KidEvents(t, x, k, Visitor(p, t.nodes)))
    decreases Walk.MaxLevel(t.level) - t.level[x], |t.kids[x]| - k
  {
    if k < |t.kids[x]| {
      var c := t.kids[x][k];
      t.KidOf(x, c);
      t.UnderIsDeeper(x, root);
      InsideUnfolds(t, root, c, x);
      InsideEvents(p, t, root, c);
      InsideKidEvents(p, t, root, x, k + 1);
    }
  }

  ghost predicate Unlisted(t: Tree, events: seq<Walk.Visit>) {
    forall k :: 0 <= k < |events| ==> events[k].0 < |t.nodes| && !Listed(t.nodes[events[k].0])
  }

  // ----- which headings a walk meets -----

  /** The listed headings entered, in order. */
  ghost function Hits(t: Tree, events: seq<Walk.Visit>): seq<NodeId> {
    if events == [] then []
    else
      var v := events[|events| - 1];
      Hits(t, events[..|events| - 1]) + (if v.0 < |t.nodes| && v.1 && Listed(t.nodes[v.0]) then [v.0] else [])
  }

  lemma {:induction false} HitsConcat(t: Tree, a: seq<Walk.Visit>, b: seq<Walk.Visit>)
    ensures Hits(t, a + b) == Hits(t, a) + Hits(t, b)
    decreases |b|
  {
    if b == [] {
      assert a + b == a;
    } else {
      assert (a + b)[..|a + b| - 1] == a + b[..|b| - 1];
      HitsConcat(t, a, b[..|b| - 1]);
    }
  }

  /** A visitor that skips nothing but images. */
  ghost predicate SkipsImagesOnly(t: Tree, visit: Walk.Visitor) {
    forall x: NodeId, entering :: visit((x, entering)) == Walk.SkipChildren ==> x < |t.nodes| && t.Kind(x).Image?
  }

  /** Skipping images or not makes no difference to the headings met. */
  lemma {:induction false} HitsAgree(t: Tree, x: NodeId, v: Walk.Visitor, w: Walk.Visitor)
    requires t.Valid() && EdgesOk(t) && x < |t.nodes| && SkipsImagesOnly(t, v) && SkipsImagesOnly(t, w)
    ensures Hits(t, Walk.Events(t, x, v)) == Hits(t, Walk.Events(t, x, w))
    decreases Walk.MaxLevel(t.level) - t.level[x], |t.kids[x]| + 1
  {
    HitsUnfold(t, x, v);
    HitsUnfold(t, x, w);
    if t.Kind(x).Image? {
      ImageHits(t, x, 0, v);
      ImageHits(t, x, 0, w);
    } else if t.Kind(x).IsContainer() {
      KidHitsAgree(t, x, 0, v, w);
    }
  }

  lemma HitsUnfold(t: Tree, x: NodeId, v: Walk.Visitor)
    requires t.Valid() && x < |t.nodes|
    ensures Hits(t, Walk.Events(t, x, v))
         == (if Listed(t.nodes[x]) then [x] else [])
            + (if Walk.Opens(t, x, v) then Hits(t, Walk.KidEvents(t, x, 0, v)) else [])
  {
    HitOne(t, (x, true));
    HitOne(t, (x, false));
    if Walk.Opens(t, x, v) {
      var kids := Walk.KidEvents(t, x, 0, v);
      HitsConcat(t, kids, [(x, false)]);
      HitsConcat(t, [(x, true)], kids + [(x, false)]);
    }
  }

  lemma HitOne(t: Tree, v: Walk.Visit)
    ensures Hits(t, [v]) == if v.0 < |t.nodes| && v.1 && Listed(t.nodes[v.0]) then [v.0] else []
  {
    assert [v][..0] == [];
  }

  lemma {:induction false} KidHitsAgree(t: Tree, x: NodeId, k: nat, v: Walk.Visitor, w: Walk.Visitor)
    requires t.Valid() && EdgesOk(t) && x < |t.nodes| && SkipsImagesOnly(t, v) && SkipsImagesOnly(t, w)
    requires k <= |t.kids[x]|
    ensures Hits(t, Walk.KidEvents(t, x, k, v)) == Hits(t, Walk.KidEvents(t, x, k, w))
    decreases Walk.MaxLevel(t.level) - t.level[x], |t.kids[x]| - k
  {
    if k < |t.kids[x]| {
      var c := t.kids[x][k];
      t.KidOf(x, c);
      HitsAgree(t, c, v, w);
      KidHitsAgree(t, x, k + 1, v, w);
      HitsConcat(t, Walk.Events(t, c, v), Walk.KidEvents(t, x, k + 1, v));
      HitsConcat(t, Walk.Events(t, c, w), Walk.KidEvents(t, x, k + 1, w));
    }
  }

  lemma {:induction false} ImageHits(t: Tree, x: NodeId, k: nat, v: Walk.Visitor)
    requires t.Valid() && EdgesOk(t) && x < |t.nodes| && t.Kind(x).Image? && k <= |t.kids[x]|
    ensures Hits(t, Walk.KidEvents(t, x, k, v)) == []
    decreases |t.kids[x]| - k
  {
    if k < |t.kids[x]| {
      var c := t.kids[x][k];
      t.KidOf(x, c);
      UnderImage(t, c, x);
      ImageHits(t, x, k + 1, v);
      HitsUnfold(t, c, v);
      HitsConcat(t, Walk.Events(t, c, v), Walk.KidEvents(t, x, k + 1, v));
    }
  }

  /** No heading is entered twice. */
  lemma NewHit(t: Tree, root: NodeId, visit: Walk.Visitor, done: seq<Walk.Visit>, rest: seq<Walk.Visit>)
    requires t.Valid() && root < |t.nodes| && done + rest == Walk.Events(t, root, visit)
    requires rest != [] && rest[0].1 && rest[0].0 < |t.nodes|
    ensures rest[0].0 !in Hits(t, done)
  {
    var x := rest[0].0;
    if x in Hits(t, done) {
      HitWasVisited(t, done, x);
      Walk.EachOnce(t, root, x, true, visit);
      assert false;
    }
  }

  lemma {:induction false} HitWasVisited(t: Tree, events: seq<Walk.Visit>, x: NodeId)
    requires x in Hits(t, events)
    ensures (x, true) in events
  {
    if events[|events| - 1] != (x, true) { HitWasVisited(t, events[..|events| - 1], x); }
  }

  // ----- the state of the walk -----

  /** The tree with the first headings renumbered: nothing else changed. */
  ghost predicate Renumbered(t: Tree, u: Tree, hs: seq<NodeId>) {
    && u.kids == t.kids && u.level == t.level && |u.nodes| == |t.nodes|
    && (forall x :: 0 <= x < |t.nodes| ==> SameButId(t.nodes[x], u.nodes[x]) && (x !in hs ==> u.nodes[x] == t.nodes[x]))
    && (forall k :: 0 <= k < |hs| ==>
          hs[k] < |t.nodes| && Listed(t.nodes[hs[k]]) && u.nodes[hs[k]].data.heading.id == TocId(k))
  }

  predicate SameButId(a: Node, b: Node) {
    b == a.(data := a.data.(heading := a.data.heading.(id := b.data.heading.id)))
  }

  /** Ghost record of a run: visits made, entries written, their headings, and what is
      still to be visited inside the heading being written. */
  datatype Log = Log(done: seq<Walk.Visit>, entries: seq<Entry>, hs: seq<NodeId>, pending: seq<Walk.Visit>)

  ghost predicate EntriesFit(p: Params, t: Tree, log: Log, flag: bool) {
    && t.Valid() && |log.entries| == |log.hs|
    && (forall k :: 0 <= k < |log.hs| ==>
          log.hs[k] < |t.nodes| && Listed(t.nodes[log.hs[k]])
          && log.entries[k].level == t.nodes[log.hs[k]].data.heading.level
          && (k < |log.hs| - 1 || !flag ==> log.entries[k].content == KidShapes(p, t, log.hs[k], 0)))
  }

  /** While a heading is being written, what is to come is the rest of it and then
      the visit that leaves it. */
  ghost predicate Pending(p: Params, t: Tree, log: Log, rest: seq<Walk.Visit>) {
    && t.Valid() && log.entries != [] && |log.entries| == |log.hs| && OnNodes(t, log.pending)
        && Unlisted(t, log.pending)
    && var h := log.hs[|log.hs| - 1];
    && h < |t.nodes| && log.pending + [(h, false)] <= rest
    && log.entries[|log.entries| - 1].content + Shapes(p, t, log.pending) == KidShapes(p, t, h, 0)
  }

  /** The markup while the last anchor is still open. */
  function TocOpen(es: seq<Entry>): seq<Token>
    requires es != []
  {
    var n := |es| - 1;
    TocBody(es[..n]) + TocStep(LastLevel(es[..n]), es[n].level)
    + ([Open("a", [Attr("href", "#" + TocId(n))])] + es[n].content)
  }

  ghost predicate TocInv(p: Params, t: Tree, root: NodeId, rest: seq<Walk.Visit>, log: Log, buf: seq<Token>,
                         flag: bool) {
    && t.Valid() && root < |t.nodes|
    && log.done + rest == Walk.Events(t, root, TocVisitor(p, t, root)) && log.hs == Hits(t, log.done)
    && EntriesFit(p, t, log, flag) && (flag ==> Pending(p, t, log, rest))
    && Blanked(buf) == (if flag && log.entries != [] then TocOpen(log.entries) else TocBody(log.entries))
  }

  lemma TocStarts(p: Params, t: Tree, root: NodeId)
    requires t.Valid() && root < |t.nodes|
    ensures TocInv(p, t, root, Walk.Events(t, root, TocVisitor(p, t, root)), Log([], [], [], []), [], false)
    ensures Renumbered(t, t, [])
  {
    var e := Walk.Events(t, root, TocVisitor(p, t, root));
    assert [] + e == e;
  }

  function AnchorOpen(k: nat): seq<Token> { [Open("a", [Attr("href", "#" + TocId(k))])] }

  lemma BlankedMarkup(cur: nat, level: nat, k: nat)
    ensures Blanked(TocStep(cur, level)) == TocStep(cur, level)
    ensures Blanked(AnchorOpen(k)) == AnchorOpen(k) && Blanked([Close("a")]) == [Close("a")]
  {
    PlainWord(OpenList);
    PlainWord(CloseList);
    BlankedTimes(if level > cur then level - cur else 0, OpenList);
    BlankedTimes(if level < cur then cur - level else 0, CloseList);
    PlainWord(NextItem);
    PlainWord(AnchorOpen(k));
    if level < cur { BlankedConcat(Times(cur - level, CloseList), NextItem); }
  }

  lemma PlainWord(ts: seq<Token>)
    requires forall k :: 0 <= k < |ts| ==>
               (ts[k].Open? && !(exists j :: 0 <= j < |ts[k].attrs| && ts[k].attrs[j].HeadingId?)) || ts[k].Close?
    ensures Blanked(ts) == ts
  {
    forall k | 0 <= k < |ts| ensures Blank(ts[k]) == ts[k] {
      if ts[k].Open? { assert Blank(ts[k]).attrs == ts[k].attrs; }
    }
  }

  lemma {:induction false} BlankedTimes(n: nat, ts: seq<Token>)
    requires Blanked(ts) == ts
    ensures Blanked(Times(n, ts)) == Times(n, ts)
  {
    if n > 0 {
      BlankedTimes(n - 1, ts);
      BlankedConcat(Times(n - 1, ts), ts);
    }
  }

  /** Entering a listed heading starts an entry. */
  lemma EnterEntry(p: Params, t: Tree, root: NodeId, x: NodeId, rest: seq<Walk.Visit>, log: Log, buf: seq<Token>)
    returns (log': Log)
    requires Renderable(p, t) && TocInv(p, t, root, rest, log, buf, false)
    requires Walk.OnTree(t, root, Walk.Cursor(Some(x), true)) && Listed(t.nodes[x])
    requires rest == Walk.Rest(t, root, Walk.Cursor(Some(x), true), TocVisitor(p, t, root))
    ensures x !in log.hs && log'.hs == log.hs + [x]
    ensures log'.entries == log.entries + [Entry(t.nodes[x].data.heading.level, [])]
    ensures TocInv(p, t, root, rest[1..], log',
                   buf + (TocStep(LastLevel(log.entries), t.nodes[x].data.heading.level) + AnchorOpen(|log.entries|)),
                       true)
  {
    hide Hits, Walk.Events, Walk.Rest, TocVisitor, Visitor, Blanked, TocBody, TocOpen, Shapes, ParserShaped, Renderable,
         TocStep;
    hide Unlisted, OnNodes, Inside, AnchorOpen;
    var visit := TocVisitor(p, t, root);
    var level := t.nodes[x].data.heading.level;
    NewHit(t, root, visit, log.done, rest);
    InsideKidEvents(p, t, root, x, 0);
    KidsOnNodes(t, x, 0, Visitor(p, t.nodes));
    log' := Log(log.done + [(x, true)], log.entries + [Entry(level, [])], log.hs + [x],
                Walk.KidEvents(t, x, 0, Visitor(p, t.nodes)));
    EntryVisits(p, t, root, x, rest, log'.pending);
    ShiftRest(log.done, rest, (x, true));
    HitsConcat(t, log.done, [(x, true)]);
    HitOne(t, (x, true));
    EntryMarkup(log.entries, level, buf);
    assert [] + Shapes(p, t, log'.pending) == Shapes(p, t, log'.pending);
  }

  lemma EntryVisits(p: Params, t: Tree, root: NodeId, x: NodeId, rest: seq<Walk.Visit>, kids: seq<Walk.Visit>)
    requires Renderable(p, t) && Walk.OnTree(t, root, Walk.Cursor(Some(x), true)) && Listed(t.nodes[x])
    requires rest == Walk.Rest(t, root, Walk.Cursor(Some(x), true), TocVisitor(p, t, root))
    requires kids == Walk.KidEvents(t, x, 0, TocVisitor(p, t, root))
    ensures rest != [] && kids + [(x, false)] <= rest[1..]
  {
    var after := Walk.After(t, root, x, TocVisitor(p, t, root));
    assert rest == ([(x, true)] + (kids + [(x, false)])) + after;
    assert rest[1..] == (kids + [(x, false)]) + after;
  }

  lemma {:induction false} EntryMarkup(es: seq<Entry>, level: nat, buf: seq<Token>)
    requires Blanked(buf) == TocBody(es)
    ensures Blanked(buf + (TocStep(LastLevel(es), level) + AnchorOpen(|es|))) == TocOpen(es + [Entry(level, [])])
  {
    var step, anchor := TocStep(LastLevel(es), level), AnchorOpen(|es|);
    BlankedMarkup(LastLevel(es), level, |es|);
    BlankedConcat(step, anchor);
    BlankedConcat(buf, step + anchor);
    var es' := es + [Entry(level, [])];
    assert es'[..|es|] == es;
    assert anchor + [] == anchor;
    assert TocBody(es) + (step + anchor) == TocBody(es) + step + anchor;
  }

  /** Leaving it ends the entry. */
  lemma LeaveEntry(p: Params, t: Tree, root: NodeId, x: NodeId, rest: seq<Walk.Visit>, log: Log, buf: seq<Token>)
    returns (log': Log)
    requires TocInv(p, t, root, rest, log, buf, true) && rest != [] && rest[0] == (x, false)
    requires x < |t.nodes| && Listed(t.nodes[x])
    ensures log'.hs == log.hs && log'.entries == log.entries
    ensures TocInv(p, t, root, rest[1..], log', buf + [Close("a")], false)
  {
    hide Hits, Walk.Events, TocVisitor, Blanked, TocBody, TocOpen, Shapes, KidShapes;
    log' := log.(done := log.done + [(x, false)], pending := []);
    PendingIsDone(p, t, log, rest);
    ShiftRest(log.done, rest, (x, false));
    HitsConcat(t, log.done, [(x, false)]);
    HitOne(t, (x, false));
    BlankedMarkup(0, 0, 0);
    BlankedConcat(buf, [Close("a")]);
    EntryCloses(log.entries);
  }

  lemma PendingIsDone(p: Params, t: Tree, log: Log, rest: seq<Walk.Visit>)
    requires Pending(p, t, log, rest) && rest != [] && rest[0].0 < |t.nodes| && Listed(t.nodes[rest[0].0])
    ensures log.entries[|log.entries| - 1].content == KidShapes(p, t, log.hs[|log.hs| - 1], 0)
  {
    assert (log.pending + [(log.hs[|log.hs| - 1], false)])[0] == rest[0];
    if log.pending != [] { assert false; }
    var content := log.entries[|log.entries| - 1].content;
    assert content + [] == content;
  }

  lemma EntryCloses(es: seq<Entry>)
    requires es != []
    ensures TocOpen(es) + [Close("a")] == TocBody(es)
  {
    var n := |es| - 1;
    var body := TocBody(es[..n]) + TocStep(LastLevel(es[..n]), es[n].level);
    assert body + (AnchorOpen(n) + es[n].content) + [Close("a")]
        == body + (AnchorOpen(n) + es[n].content + [Close("a")]);
  }

  /** A visit inside a heading goes into its entry. */
  lemma GrowEntry(p: Params, t: Tree, root: NodeId, v: Walk.Visit, rest: seq<Walk.Visit>, log: Log,
                                     buf: seq<Token>,
                  ts: seq<Token>) returns (log': Log)
    requires TocInv(p, t, root, rest, log, buf, true) && rest != [] && rest[0] == v
    requires v.0 < |t.nodes| && !Listed(t.nodes[v.0]) && Blanked(ts) == VisitShape(p, t.nodes, v)
    ensures log'.hs == log.hs && |log'.entries| == |log.entries| && LastLevel(log'.entries) == LastLevel(log.entries)
    ensures TocInv(p, t, root, rest[1..], log', buf + ts, true)
  {
    hide Hits, Walk.Events, TocVisitor, Blanked, TocBody, TocOpen, Shapes, VisitShape, KidShapes;
    var n := |log.entries| - 1;
    var last := log.entries[n];
    var shape := VisitShape(p, t.nodes, v);
    PendingGoesOn(p, t, log, rest);
    log' := Log(log.done + [v], log.entries[n := Entry(last.level, last.content + shape)], log.hs, log.pending[1..]);
    ShiftRest(log.done, rest, v);
    HitsConcat(t, log.done, [v]);
    HitOne(t, v);
    PendingSplits(p, t, log.pending);
    assert (last.content + shape) + Shapes(p, t, log.pending[1..])
        == last.content + (shape + Shapes(p, t, log.pending[1..]));
    BlankedConcat(buf, ts);
    OpenGrows(log.entries, shape);
  }

  lemma PendingGoesOn(p: Params, t: Tree, log: Log, rest: seq<Walk.Visit>)
    requires Pending(p, t, log, rest) && rest != [] && rest[0].0 < |t.nodes| && !Listed(t.nodes[rest[0].0])
    requires Listed(t.nodes[log.hs[|log.hs| - 1]])
    ensures log.pending != [] && log.pending[0] == rest[0]
    ensures log.pending[1..] + [(log.hs[|log.hs| - 1], false)] <= rest[1..]
  {
    var end := (log.hs[|log.hs| - 1], false);
    assert (log.pending + [end])[0] == rest[0];
    if log.pending == [] { assert false; }
    assert (log.pending + [end])[1..] == log.pending[1..] + [end];
  }

  lemma PendingSplits(p: Params, t: Tree, pending: seq<Walk.Visit>)
    requires OnNodes(t, pending) && pending != []
    ensures Shapes(p, t, pending) == VisitShape(p, t.nodes, pending[0]) + Shapes(p, t, pending[1..])
  {
    ShapesOne(p, t, pending[0]);
    ShapesConcat(p, t, [pending[0]], pending[1..]);
    assert [pending[0]] + pending[1..] == pending;
  }

  lemma OpenGrows(es: seq<Entry>, more: seq<Token>)
    requires es != []
    ensures var n := |es| - 1;
            TocOpen(es[n := Entry(es[n].level, es[n].content + more)]) == TocOpen(es) + more
  {
    var n := |es| - 1;
    var es' := es[n := Entry(es[n].level, es[n].content + more)];
    assert es'[..n] == es[..n];
    var body := TocBody(es[..n]) + TocStep(LastLevel(es[..n]), es[n].level);
    assert body + (AnchorOpen(n) + (es[n].content + more)) == body + (AnchorOpen(n) + es[n].content) + more;
  }

  /** Any other visit leaves the table alone. */
  lemma PassBy(p: Params, t: Tree, root: NodeId, v: Walk.Visit, rest: seq<Walk.Visit>, log: Log, buf: seq<Token>)
    returns (log': Log)
    requires TocInv(p, t, root, rest, log, buf, false) && rest != [] && rest[0] == v
    requires v.0 < |t.nodes| && !Listed(t.nodes[v.0])
    ensures log'.hs == log.hs && log'.entries == log.entries
    ensures TocInv(p, t, root, rest[1..], log', buf, false)
  {
    log' := log.(done := log.done + [v]);
    ShiftRest(log.done, rest, v);
    HitsConcat(t, log.done, [v]);
    HitOne(t, v);
    hide Hits, Walk.Events, TocVisitor, Blanked, TocBody, TocOpen, Shapes;
  }

  // ----- the first walk -----

  /** Opens and closes lists until the depth is the heading's level. */
  method StepLevel(tocLevel: nat, level: nat) returns (ts: seq<Token>, tocLevel': nat)
    ensures ts == TocStep(tocLevel, level) && tocLevel' == level
  {
    ts, tocLevel' := [], tocLevel;
    if level == tocLevel {
      ts := NextItem;
    } else if level < tocLevel {
      while level < tocLevel'
        invariant level <= tocLevel' <= tocLevel && ts == Times(tocLevel - tocLevel', CloseList)
      {
        tocLevel' := tocLevel' - 1;
        ts := ts + CloseList;
      }
      ts := ts + NextItem;
    } else {
      while level > tocLevel'
        invariant tocLevel <= tocLevel' <= level && ts == Times(tocLevel' - tocLevel, OpenList)
      {
        tocLevel' := tocLevel' + 1;
        ts := ts + OpenList;
      }
    }
  }

  lemma RenumberOne(t: Tree, u: Tree, hs: seq<NodeId>, x: NodeId)
    requires t.Valid() && u.Valid() && Renumbered(t, u, hs) && x < |t.nodes| && Listed(t.nodes[x]) && x !in hs
    ensures var d := u.nodes[x].data;
            Renumbered(t, WithData(u, x, d.(heading := d.heading.(id := TocId(|hs|)))), hs + [x])
  {
  }

  /** What the walk and the renderer look at is the same before and after. */
  lemma SameMoves(t: Tree, u: Tree, hs: seq<NodeId>, root: NodeId, c: Walk.Cursor, status: Walk.WalkStatus)
    requires Renumbered(t, u, hs) && (c.current.Some? ==> c.current.value < |t.nodes|)
    ensures Walk.AdvanceCursor(u.nodes, root, c, status) == Walk.AdvanceCursor(t.nodes, root, c, status)
  {
    if c.current.Some? { assert SameButId(t.nodes[c.current.value], u.nodes[c.current.value]); }
  }

  lemma SameInline(p: Params, t: Tree, u: Tree, hs: seq<NodeId>, v: Walk.Visit)
    requires Renumbered(t, u, hs) && v.0 < |t.nodes| && t.Kind(v.0).IsInline()
    ensures VisitShape(p, u.nodes, v) == VisitShape(p, t.nodes, v) && Status(p, u.nodes, v) == Status(p, t.nodes, v)
    ensures DisableDelta(p, u.nodes, v) == DisableDelta(p, t.nodes, v) && Request(u.nodes, v) == []
    ensures Followable(p.flags, t.nodes[v.0]) ==> Followable(p.flags, u.nodes[v.0])
    ensures forall n :: MayWrite(p, t.nodes, v, n) ==> MayWrite(p, u.nodes, v, n)
  {
    assert v.0 !in hs;
    assert u.nodes[v.0] == t.nodes[v.0];
    hide NeedSkipLink, EscapedLink, AddAbsPrefix, LinkAttrs, FootnoteRef;
  }

  /** Everything the walk keeps up to date. */
  ghost predicate TocState(r: HtmlRenderer, arena: A.Arena, t: Tree, root: NodeId, c: Walk.Cursor, log: Log,
                           buf: seq<Token>, flag: bool, tocLevel: nat, count: nat)
    reads r, arena
  {
    && Renderable(r.p, t) && arena.Valid() && Renumbered(t, arena.T(), log.hs) && root < |t.nodes|
        && Walk.OnTree(t, root, c)
    && TocInv(r.p, t, root, Walk.Rest(t, root, c, TocVisitor(r.p, t, root)), log, buf, flag)
    && flag == FlagAt(t, root, c) && SaneInside(r.p, t, root, c) && r.disableTags == CountAt(t, root, c)
    && tocLevel == LastLevel(log.entries) && count == |log.entries|
  }

  /** What one advance does to the cursor and to all that hangs on its place. */
  lemma Advanced(p: Params, t: Tree, root: NodeId, c: Walk.Cursor)
    requires Renderable(p, t) && Walk.OnTree(t, root, c) && root < |t.nodes| && c.current.Some?
             && SaneInside(p, t, root, c)
    ensures var v := (c.current.value, c.entering);
            var d := Walk.AdvanceCursor(t.nodes, root, c, TocStatus(p, t, root, v));
            var visit := TocVisitor(p, t, root);
            && Walk.OnTree(t, root, d) && Walk.Rest(t, root, c, visit) != [] && Walk.Rest(t, root, c, visit)[0] == v
            && Walk.Rest(t, root, d, visit) == Walk.Rest(t, root, c, visit)[1..]
            && FlagAt(t, root, d) == (if Listed(t.nodes[v.0]) then c.entering else FlagAt(t, root, c))
            && SaneInside(p, t, root, d)
            && CountAt(t, root, d)
               == CountAt(t, root, c) + (if Inside(t, root, v.0) then DisableDelta(p, t.nodes, v) else 0)
  {
    FlagStep(p, t, root, c);
    CountStep(p, t, root, c);
    Walk.AdvanceConsumes(t, root, c, TocVisitor(p, t, root));
    hide Walk.AdvanceCursor, Walk.After, Walk.Events, FlagAt, CountAt, SaneInside, ParserShaped, Renderable, Inside;
  }

  lemma HeadingNotInside(p: Params, t: Tree, root: NodeId, x: NodeId)
    requires Renderable(p, t) && x < |t.nodes| && Listed(t.nodes[x])
    ensures !Inside(t, root, x)
  {
    if Inside(t, root, x) {
      InsideIsInline(t, root, x);
      assert false;
    }
  }

  /** A heading is entered: it gets the next number, and the table the next link. */
  method EnterHeading(r: HtmlRenderer, arena: A.Arena, node: NodeId, buf: seq<Token>, tocLevel: nat, count: nat,
                      ghost t: Tree, ghost root: NodeId, ghost log: Log)
    returns (buf': seq<Token>, tocLevel': nat, count': nat, ghost log': Log)
    requires TocState(r, arena, t, root, Walk.Cursor(Some(node), true), log, buf, false, tocLevel, count)
    requires Listed(t.nodes[node])
    modifies arena
    ensures TocState(r, arena, t, root, Walk.AdvanceCursor(t.nodes, root, Walk.Cursor(Some(node), true),
            Walk.GoToNext), log',
                     buf', true, tocLevel', count')
  {
    hide Walk.AdvanceCursor, Walk.Rest, TocInv, FlagAt, CountAt, SaneInside, Inside, ParserShaped, Renderable, TocBody,
         TocStep, TocVisitor, Tree.Valid, EdgesOk;
    ghost var c := Walk.Cursor(Some(node), true);
    ghost var rest := Walk.Rest(t, root, c, TocVisitor(r.p, t, root));
    Advanced(r.p, t, root, c);
    HeadingNotInside(r.p, t, root, node);
    OneEntryEach(r.p, t, root, rest, log, buf, false);
    log' := EnterEntry(r.p, t, root, node, rest, log, buf);
    assert SameButId(t.nodes[node], arena.nodes[node]);
    RenumberOne(t, arena.T(), log.hs, node);
    hide Walk.OnTree, Renumbered;
    var d := arena.nodes[node].data;
    arena.SetData(node, d.(heading := d.heading.(id := TocId(count))));
    var ts;
    ts, tocLevel' := StepLevel(tocLevel, d.heading.level);
    buf' := buf + (ts + AnchorOpen(count));
    count' := count + 1;
  }

  lemma OneEntryEach(p: Params, t: Tree, root: NodeId, rest: seq<Walk.Visit>, log: Log, buf: seq<Token>, flag: bool)
    requires TocInv(p, t, root, rest, log, buf, flag)
    ensures |log.entries| == |log.hs|
  {
  }

  /** Inside a heading the renderer may be called, and acts as on the first tree. */
  lemma InsideReady(r: HtmlRenderer, arena: A.Arena, v: Walk.Visit, buf: seq<Token>, tocLevel: nat,
                                      count: nat, t: Tree, root: NodeId, log: Log)
    requires TocState(r, arena, t, root, Walk.Cursor(Some(v.0), v.1), log, buf, true, tocLevel, count)
    requires !Listed(t.nodes[v.0])
    ensures v.0 < |arena.nodes| && Inside(t, root, v.0) && !arena.nodes[v.0].kind.Heading?
    ensures MayWrite(r.p, arena.nodes, v, r.disableTags) && Followable(r.p.flags, arena.nodes[v.0])
    ensures VisitShape(r.p, arena.nodes, v) == VisitShape(r.p, t.nodes, v)
    ensures Status(r.p, arena.nodes, v) == TocStatus(r.p, t, root, v)
    ensures DisableDelta(r.p, arena.nodes, v) == DisableDelta(r.p, t.nodes, v) && Request(arena.nodes, v) == []
  {
    InsideIsInline(t, root, v.0);
    SaneMayWrite(r.p, t, root, Walk.Cursor(Some(v.0), v.1), r.disableTags);
    SameInline(r.p, t, arena.T(), log.hs, v);
    hide VisitShape, MayWrite, Renumbered, TocInv;
  }

  /** The state after a visit inside a heading. */
  lemma InsideDone(r: HtmlRenderer, arena: A.Arena, v: Walk.Visit, buf: seq<Token>, ts: seq<Token>,
                                     tocLevel: nat, count: nat, t: Tree, root: NodeId, log: Log, disableTags: int)
    returns (log': Log)
    requires Renderable(r.p, t) && arena.Valid() && Renumbered(t, arena.T(), log.hs) && root < |t.nodes|
    requires var c := Walk.Cursor(Some(v.0), v.1);
             Walk.OnTree(t, root, c) && TocInv(r.p, t, root, Walk.Rest(t, root, c, TocVisitor(r.p, t, root)), log, buf,
                 true)
             && FlagAt(t, root, c) && SaneInside(r.p, t, root, c) && disableTags == CountAt(t, root, c)
    requires tocLevel == LastLevel(log.entries) && count == |log.entries|
    requires !Listed(t.nodes[v.0]) && Inside(t, root, v.0) && Blanked(ts) == VisitShape(r.p, t.nodes, v)
    requires r.disableTags == disableTags + DisableDelta(r.p, t.nodes, v)
    ensures TocState(r, arena, t, root,
                     Walk.AdvanceCursor(t.nodes, root, Walk.Cursor(Some(v.0), v.1), TocStatus(r.p, t, root, v)), log',
                     buf + ts, true, tocLevel, count)
  {
    hide Walk.AdvanceCursor, Walk.Rest, TocInv, SaneInside, ParserShaped, Renderable, Inside, Renumbered, TocBody,
         TocStep, TocVisitor, Tree.Valid, VisitShape, TocStatus, DisableDelta, Blanked;
    var c := Walk.Cursor(Some(v.0), v.1);
    Advanced(r.p, t, root, c);
    log' := GrowEntry(r.p, t, root, v, Walk.Rest(t, root, c, TocVisitor(r.p, t, root)), log, buf, ts);
  }

  /** A visit inside a heading is rendered into the table. */
  method InsideVisit(r: HtmlRenderer, arena: A.Arena, node: NodeId, entering: bool, buf: seq<Token>, tocLevel: nat,
                     count: nat, ghost t: Tree, ghost root: NodeId, ghost log: Log)
    returns (status: Walk.WalkStatus, buf': seq<Token>, ghost log': Log)
    requires TocState(r, arena, t, root, Walk.Cursor(Some(node), entering), log, buf, true, tocLevel, count)
    requires Esc.EntitiesShaped(r.p.ents) && !Listed(t.nodes[node])
    modifies r`headingIds, r`disableTags, r.sr
    ensures r.headingIds == old(r.headingIds) && status == TocStatus(r.p, t, root, (node, entering))
    ensures TocState(r, arena, t, root, Walk.AdvanceCursor(t.nodes, root, Walk.Cursor(Some(node), entering), status),
            log',
                     buf', true, tocLevel, count)
  {
    hide Walk.AdvanceCursor, Walk.Rest, Walk.OnTree, TocInv, SaneInside, ParserShaped, Renderable, Inside, Renumbered,
         TocBody, TocStep, TocVisitor, Tree.Valid, VisitShape, MayWrite, Followable, Status, Request, DisableDelta,
         HeadingIds.Grant, ExactText, Clean, FlagAt, CountAt, TocStatus, Blanked;
    GrantNothing(r.headingIds);
    InsideReady(r, arena, (node, entering), buf, tocLevel, count, t, root, log);
    ghost var disableTags := r.disableTags;
    var ts;
    ts, status := r.RenderNode(arena, node, entering);
    log' := InsideDone(r, arena, (node, entering), buf, ts, tocLevel, count, t, root, log, disableTags);
    buf' := buf + ts;
  }

  lemma LeaveVisit(r: HtmlRenderer, arena: A.Arena, node: NodeId, buf: seq<Token>, tocLevel: nat,
                                      count: nat,
                                     t: Tree, root: NodeId, log: Log) returns (log': Log)
    requires TocState(r, arena, t, root, Walk.Cursor(Some(node), false), log, buf, true, tocLevel, count)
    requires Listed(t.nodes[node])
    ensures TocState(r, arena, t, root, Walk.AdvanceCursor(t.nodes, root, Walk.Cursor(Some(node), false),
            Walk.GoToNext), log',
                     buf + [Close("a")], false, tocLevel, count)
  {
    ghost var c := Walk.Cursor(Some(node), false);
    Advanced(r.p, t, root, c);
    HeadingNotInside(r.p, t, root, node);
    hide Walk.AdvanceCursor, Walk.Rest, Walk.OnTree, TocInv, FlagAt, CountAt, SaneInside, ParserShaped, Renderable,
         Inside, Renumbered, TocBody, TocStep, TocVisitor, Tree.Valid;
    log' := LeaveEntry(r.p, t, root, node, Walk.Rest(t, root, c, TocVisitor(r.p, t, root)), log, buf);
  }

  lemma PassVisit(r: HtmlRenderer, arena: A.Arena, v: Walk.Visit, buf: seq<Token>, tocLevel: nat,
                                     count: nat,
                                    t: Tree, root: NodeId, log: Log) returns (log': Log)
    requires TocState(r, arena, t, root, Walk.Cursor(Some(v.0), v.1), log, buf, false, tocLevel, count)
    requires !Listed(t.nodes[v.0])
    ensures TocStatus(r.p, t, root, v) == Walk.GoToNext
    ensures TocState(r, arena, t, root, Walk.AdvanceCursor(t.nodes, root, Walk.Cursor(Some(v.0), v.1), Walk.GoToNext),
            log',
                     buf, false, tocLevel, count)
  {
    ghost var c := Walk.Cursor(Some(v.0), v.1);
    Advanced(r.p, t, root, c);
    hide Walk.AdvanceCursor, Walk.Rest, Walk.OnTree, TocInv, CountAt, SaneInside, ParserShaped, Renderable, Inside,
         Renumbered, TocBody, TocStep, TocVisitor, Tree.Valid;
    log' := PassBy(r.p, t, root, v, Walk.Rest(t, root, c, TocVisitor(r.p, t, root)), log, buf);
  }

  /** What the flag says at a heading, and that renumbering does not hide one. */
  lemma AtVisit(r: HtmlRenderer, arena: A.Arena, v: Walk.Visit, buf: seq<Token>, flag: bool, tocLevel: nat, count: nat,
                t: Tree, root: NodeId, log: Log)
    requires TocState(r, arena, t, root, Walk.Cursor(Some(v.0), v.1), log, buf, flag, tocLevel, count)
    ensures v.0 < |t.nodes| && v.0 < |arena.nodes| && Listed(arena.nodes[v.0]) == Listed(t.nodes[v.0])
    ensures Listed(t.nodes[v.0]) ==> flag == !v.1 && TocStatus(r.p, t, root, v) == Walk.GoToNext
  {
    assert SameButId(t.nodes[v.0], arena.nodes[v.0]);
  }

  /** One visit of the walk. */
  method TocVisit(r: HtmlRenderer, arena: A.Arena, node: NodeId, entering: bool, buf: seq<Token>, flag: bool,
                  tocLevel: nat, count: nat, ghost t: Tree, ghost root: NodeId, ghost log: Log)
    returns (status: Walk.WalkStatus, buf': seq<Token>, flag': bool, tocLevel': nat, count': nat, ghost log': Log)
    requires TocState(r, arena, t, root, Walk.Cursor(Some(node), entering), log, buf, flag, tocLevel, count)
    requires Esc.EntitiesShaped(r.p.ents)
    modifies r`headingIds, r`disableTags, r.sr, arena
    ensures r.headingIds == old(r.headingIds) && status == TocStatus(r.p, t, root, (node, entering))
    ensures TocState(r, arena, t, root, Walk.AdvanceCursor(t.nodes, root, Walk.Cursor(Some(node), entering), status),
            log',
                     buf', flag', tocLevel', count')
  {
    hide TocState, Walk.AdvanceCursor, Walk.Rest, TocStatus;
    AtVisit(r, arena, (node, entering), buf, flag, tocLevel, count, t, root, log);
    status, buf', flag', tocLevel', count', log' := Walk.GoToNext, buf, flag, tocLevel, count, log;
    if Listed(arena.nodes[node]) {
      flag' := entering;
      if entering {
        buf', tocLevel', count', log' := EnterHeading(r, arena, node, buf, tocLevel, count, t, root, log);
      } else {
        log' := LeaveVisit(r, arena, node, buf, tocLevel, count, t, root, log);
        buf' := buf + [Close("a")];
      }
    } else if flag {
      status, buf', log' := InsideVisit(r, arena, node, entering, buf, tocLevel, count, t, root, log);
    } else {
      log' := PassVisit(r, arena, (node, entering), buf, tocLevel, count, t, root, log);
    }
  }

  /** Listed headings have a level, and title blocks no id of their own. */
  ghost predicate HeadingsShaped(t: Tree) {
    forall x :: 0 <= x < |t.nodes| && t.Kind(x).Heading? ==>
      if t.nodes[x].data.heading.isTitleblock then t.nodes[x].data.heading.id == []
      else t.nodes[x].data.heading.level >= 1
  }

  /** One entry per listed heading met, in order, with its level and its rendered text. */
  ghost predicate Entries(p: Params, t: Tree, root: NodeId, es: seq<Entry>, hs: seq<NodeId>) {
    && t.Valid() && root < |t.nodes| && hs == Hits(t, Walk.Events(t, root, TocVisitor(p, t, root))) && |es| == |hs|
    && (forall k :: 0 <= k < |hs| ==>
          hs[k] < |t.nodes| && Listed(t.nodes[hs[k]])
          && es[k] == Entry(t.nodes[hs[k]].data.heading.level, KidShapes(p, t, hs[k], 0)))
  }

  function Nav(es: seq<Entry>): seq<Token> {
    if es == [] then [] else [Open("nav", [])] + Toc(es) + [Close("nav")]
  }

  /** What heading texts write is well nested by itself. */
  lemma EntriesNeutral(p: Params, t: Tree, root: NodeId, es: seq<Entry>, hs: seq<NodeId>)
    requires Renderable(p, t) && Entries(p, t, root, es, hs)
    ensures ContentsNeutral(es)
  {
    forall k | 0 <= k < |es| ensures Neutral(es[k].content) {
      forall stack | Free(stack) ensures Run(stack, es[k].content) == Some(stack) {
        KidsBalanced(p, t, hs[k], 0, stack);
      }
    }
  }

  lemma NavBalanced(p: Params, t: Tree, root: NodeId, es: seq<Entry>, hs: seq<NodeId>)
    requires Renderable(p, t) && HeadingsShaped(t) && Entries(p, t, root, es, hs)
    ensures Run([], Nav(es)) == Some([])
  {
    EntriesNeutral(p, t, root, es, hs);
    assert LevelsPositive(es);
    hide Run, Toc, Entries, LevelsPositive, ContentsNeutral, ParserShaped, Renderable, HeadingsShaped;
    TocBalancedAnywhere(es, ["nav"]);
    assert [] + ["nav"] == ["nav"];
    if es != [] { Wrapped([], "nav", [], Toc(es)); }
  }

  /** A word that is well nested by itself is so inside other elements. */
  lemma {:induction false} RunBelow(below: seq<bytes>, stack: seq<bytes>, ts: seq<Token>)
    requires Free(below) && Run(stack, ts).Some?
    ensures Run(below + stack, ts) == Some(below + Run(stack, ts).value)
    decreases |ts|
  {
    if ts != [] {
      var next := Step(stack, ts[0]).value;
      StepBelow(below, stack, ts[0]);
      RunBelow(below, next, ts[1..]);
    }
  }

  lemma StepBelow(below: seq<bytes>, stack: seq<bytes>, t: Token)
    requires Free(below) && Step(stack, t).Some?
    ensures Step(below + stack, t) == Some(below + Step(stack, t).value)
  {
    if stack == [] {
      assert below + stack == below;
      assert t.Open? ==> below + ([] + [t.tag]) == below + [t.tag];
      assert below + ([] + [Img]) == below + [Img];
    } else {
      var both := below + stack;
      assert both[|both| - 1] == stack[|stack| - 1];
      assert both[..|both| - 1] == below + stack[..|stack| - 1];
      assert t.Open? ==> both + [t.tag] == below + (stack + [t.tag]);
      assert both + [Img] == below + (stack + [Img]);
    }
  }

  lemma TocBalancedAnywhere(es: seq<Entry>, below: seq<bytes>)
    requires ContentsNeutral(es) && LevelsPositive(es) && Free(below)
    ensures Run(below, Toc(es)) == Some(below)
  {
    TocBalanced(es);
    RunBelow(below, [], Toc(es));
    assert below + [] == below;
  }

  /** The markup of the finished walk. */
  lemma TocFinished(r: HtmlRenderer, arena: A.Arena, t: Tree, root: NodeId, c: Walk.Cursor, log: Log,
                                      buf: seq<Token>, flag: bool, tocLevel: nat, count: nat, tail: seq<Token>)
    requires TocState(r, arena, t, root, c, log, buf, flag, tocLevel, count) && c.current == None
    requires tail == Times(tocLevel, CloseList)
    ensures Entries(r.p, t, root, log.entries, log.hs) && Blanked(buf + tail) == Toc(log.entries)
    ensures Renumbered(t, arena.T(), log.hs) && r.disableTags == 0 && arena.Valid()
    ensures buf + tail == [] <==> log.entries == []
  {
    hide Walk.Events, Renderable, ParserShaped, Renumbered, Walk.OnTree, SaneInside, Pending, TocVisitor, Tree.Valid,
         TocOpen, TocStep;
    assert log.done + [] == log.done;
    PlainWord(CloseList);
    BlankedTimes(tocLevel, CloseList);
    BlankedConcat(buf, tail);
    TocEmpty(log.entries);
    assert |Blanked(buf + tail)| == |buf + tail|;
  }

  lemma TocEmpty(es: seq<Entry>)
    ensures Toc(es) == [] <==> es == []
  {
    if es != [] { assert |Anchor(|es| - 1, es[|es| - 1].content)| > 0; }
  }

  lemma TocBegins(r: HtmlRenderer, arena: A.Arena, t: Tree, root: NodeId)
    requires Renderable(r.p, t) && t == arena.T() && root < |t.nodes| && r.disableTags == 0
    ensures TocState(r, arena, t, root, Walk.Cursor(Some(root), true), Log([], [], [], []), [], false, 0, 0)
  {
    TocStarts(r.p, t, root);
    var c := Walk.Cursor(Some(root), true);
    assert !Inside(t, root, root);
    assert Walk.Rest(t, root, c, TocVisitor(r.p, t, root)) == Walk.Events(t, root, TocVisitor(r.p, t, root));
  }

  /** How many visits are to come. */
  ghost function Togo(p: Params, t: Tree, root: NodeId, c: Walk.Cursor): nat {
    if Walk.OnTree(t, root, c) then |Walk.Rest(t, root, c, TocVisitor(p, t, root))| else 0
  }

  lemma TogoShrinks(r: HtmlRenderer, arena: A.Arena, t: Tree, root: NodeId, c: Walk.Cursor, log: Log,
                                      buf: seq<Token>, flag: bool, tocLevel: nat, count: nat)
    requires TocState(r, arena, t, root, c, log, buf, flag, tocLevel, count) && c.current.Some?
    ensures c.current.value < |t.nodes| && t.Valid()
    ensures Togo(r.p, t, root, Walk.AdvanceCursor(t.nodes, root, c,
            TocStatus(r.p, t, root, (c.current.value, c.entering))))
          < Togo(r.p, t, root, c)
  {
    Advanced(r.p, t, root, c);
  }

  lemma MovesAlike(r: HtmlRenderer, arena: A.Arena, t: Tree, root: NodeId, c: Walk.Cursor, status: Walk.WalkStatus,
                   log: Log, buf: seq<Token>, flag: bool, tocLevel: nat, count: nat)
    requires c.current.Some? ==> c.current.value < |t.nodes|
    requires TocState(r, arena, t, root, Walk.AdvanceCursor(t.nodes, root, c, status), log, buf, flag, tocLevel, count)
    ensures c.current.Some? ==> c.current.value < |arena.nodes|
    ensures Walk.AdvanceCursor(arena.nodes, root, c, status) == Walk.AdvanceCursor(t.nodes, root, c, status)
  {
    SameMoves(t, arena.T(), log.hs, root, c, status);
  }

  method CloseAll(tocLevel: nat) returns (ts: seq<Token>)
    ensures ts == Times(tocLevel, CloseList)
  {
    ts := [];
    var level := tocLevel;
    while level > 0
      invariant 0 <= level <= tocLevel && ts == Times(tocLevel - level, CloseList)
    {
      level := level - 1;
      ts := ts + CloseList;
    }
  }

  lemma NavBlanked(es: seq<Entry>, buf: seq<Token>)
    requires es != [] && Blanked(buf) == Toc(es)
    ensures Blanked([Open("nav", [])] + buf + [Close("nav")]) == Nav(es)
  {
    PlainWord([Open("nav", [])]);
    PlainWord([Close("nav")]);
    BlankedConcat([Open("nav", [])], buf);
    BlankedConcat([Open("nav", [])] + buf, [Close("nav")]);
  }

  /** One visit and the cursor's move after it. */
  method TocMove(r: HtmlRenderer, arena: A.Arena, w: A.Walker, buf: seq<Token>, flag: bool, tocLevel: nat, count: nat,
                 ghost t: Tree, ghost root: NodeId, ghost log: Log)
    returns (buf': seq<Token>, flag': bool, tocLevel': nat, count': nat, ghost log': Log)
    requires w.root == root && w.current.Some? && TocState(r, arena, t, root, w.C(), log, buf, flag, tocLevel, count)
    requires Esc.EntitiesShaped(r.p.ents)
    modifies r`headingIds, r`disableTags, r.sr, arena, w
    ensures r.headingIds == old(r.headingIds)
    ensures TocState(r, arena, t, root, w.C(), log', buf', flag', tocLevel', count')
    ensures Togo(r.p, t, root, w.C()) < old(Togo(r.p, t, root, w.C()))
  {
    hide TocState, Walk.AdvanceCursor, Walk.Rest, TocStatus, Togo;
    ghost var c := w.C();
    var status;
    TogoShrinks(r, arena, t, root, c, log, buf, flag, tocLevel, count);
    status, buf', flag', tocLevel', count', log' :=
      TocVisit(r, arena, w.current.value, w.entering, buf, flag, tocLevel, count, t, root, log);
    MovesAlike(r, arena, t, root, c, status, log', buf', flag', tocLevel', count');
    w.Advance(arena, status);
  }

  /** Closes the lists and wraps the markup, if there is any. */
  method FinishToc(r: HtmlRenderer, arena: A.Arena, buf: seq<Token>, flag: bool, tocLevel: nat, count: nat,
                   ghost t: Tree, ghost root: NodeId, ghost c: Walk.Cursor, ghost log: Log) returns (out: seq<Token>)
    requires TocState(r, arena, t, root, c, log, buf, flag, tocLevel, count) && c.current == None
    requires Renderable(r.p, t) && HeadingsShaped(t)
    ensures Entries(r.p, t, root, log.entries, log.hs) && Renumbered(t, arena.T(), log.hs)
    ensures r.disableTags == 0 && arena.Valid()
    ensures Blanked(out) == Nav(log.entries) && Run([], out) == Some([])
  {
    hide TocState, Entries, Renumbered, ParserShaped, Renderable, Toc, HeadingsShaped, Run, Blanked;
    var tail := CloseAll(tocLevel);
    TocFinished(r, arena, t, root, c, log, buf, flag, tocLevel, count, tail);
    NavBalanced(r.p, t, root, log.entries, log.hs);
    var body := buf + tail;
    out := [];
    BlankedNone();
    if body != [] {
      out := [Open("nav", [])] + body + [Close("nav")];
      NavBlanked(log.entries, body);
    }
    RunBlanked([], out);
  }

  /** The table of contents: headings are renumbered in the order met, and a link to
      each is written at the depth of its level. */
  method WriteToc(r: HtmlRenderer, arena: A.Arena, root: NodeId)
    returns (out: seq<Token>, ghost es: seq<Entry>, ghost hs: seq<NodeId>)
    requires Renderable(r.p, arena.T()) && HeadingsShaped(arena.T()) && root < |arena.nodes|
    requires Esc.EntitiesShaped(r.p.ents) && r.disableTags == 0
    modifies r`headingIds, r`disableTags, r.sr, arena
    ensures r.headingIds == old(r.headingIds) && r.disableTags == 0 && arena.Valid()
    ensures Entries(r.p, old(arena.T()), root, es, hs) && Renumbered(old(arena.T()), arena.T(), hs)
    ensures Blanked(out) == Nav(es) && Run([], out) == Some([])
  {
    ghost var t, ids := arena.T(), r.headingIds;
    TocBegins(r, arena, t, root);
    hide TocState, Togo, Entries, Renumbered, ParserShaped, Renderable, Nav, Run, Blanked, HeadingsShaped;
    var buf, flag, tocLevel: nat, count: nat := [], false, 0, 0;
    ghost var log := Log([], [], [], []);
    var w := new A.Walker(root);
    while w.current.Some?
      invariant w.root == root && TocState(r, arena, t, root, w.C(), log, buf, flag, tocLevel, count)
          && r.headingIds == ids
      decreases Togo(r.p, t, root, w.C())
    {
      buf, flag, tocLevel, count, log := TocMove(r, arena, w, buf, flag, tocLevel, count, t, root, log);
    }
    out := FinishToc(r, arena, buf, flag, tocLevel, count, t, root, w.C(), log);
    es, hs := log.entries, log.hs;
  }

  // ----- the body pass after it -----

  lemma RenumberedShaped(p: Params, t: Tree, u: Tree, hs: seq<NodeId>)
    requires Renderable(p, t) && Renumbered(t, u, hs) && u.Valid()
    ensures Renderable(p, u)
  {
    forall x | 0 <= x < |u.nodes| && u.Parent(x).Some?
      ensures u.Parent(x).value < |u.nodes| && EdgeOk(u.Kind(u.Parent(x).value), u.Kind(x))
    {
      assert SameButId(t.nodes[x], u.nodes[x]) && t.Parent(x).Some?;
      assert SameButId(t.nodes[t.Parent(x).value], u.nodes[t.Parent(x).value]);
    }
    forall x | 0 <= x < |u.nodes|
      ensures u.Kind(x) == t.Kind(x) && u.nodes[x].data.list == t.nodes[x].data.list
              && u.nodes[x].data.link == t.nodes[x].data.link
    {
      assert SameButId(t.nodes[x], u.nodes[x]);
    }
  }

  /** The visits do not depend on ids. */
  lemma {:induction false} EventsRenumbered(t: Tree, u: Tree, hs: seq<NodeId>, x: NodeId, v: Walk.Visitor,
                                            w: Walk.Visitor)
    requires t.Valid() && u.Valid() && Renumbered(t, u, hs) && x < |t.nodes| && forall e :: v(e) == w(e)
    ensures Walk.Events(t, x, v) == Walk.Events(u, x, w)
    decreases Walk.MaxLevel(t.level) - t.level[x], |t.kids[x]| + 1
  {
    assert SameButId(t.nodes[x], u.nodes[x]);
    if Walk.Opens(t, x, v) { KidEventsRenumbered(t, u, hs, x, 0, v, w); }
  }

  lemma {:induction false} KidEventsRenumbered(t: Tree, u: Tree, hs: seq<NodeId>, x: NodeId, k: nat, v: Walk.Visitor,
                                              w: Walk.Visitor)
    requires t.Valid() && u.Valid() && Renumbered(t, u, hs) && x < |t.nodes| && (forall e :: v(e) == w(e))
    requires k <= |t.kids[x]|
    ensures Walk.KidEvents(t, x, k, v) == Walk.KidEvents(u, x, k, w)
    decreases Walk.MaxLevel(t.level) - t.level[x], |t.kids[x]| - k
  {
    if k < |t.kids[x]| {
      t.KidOf(x, t.kids[x][k]);
      EventsRenumbered(t, u, hs, t.kids[x][k], v, w);
      KidEventsRenumbered(t, u, hs, x, k + 1, v, w);
    }
  }

  function TocIds(n: nat): seq<bytes> { seq(n, k requires 0 <= k < n => TocId(k)) }

  ghost predicate Identified(u: Tree, s: seq<NodeId>) {
    forall k :: 0 <= k < |s| ==> s[k] < |u.nodes| && u.nodes[s[k]].data.heading.id != []
  }

  /** The body asks for the ids of the listed headings met, in order. */
  lemma {:induction false} RequestsAreHits(t: Tree, u: Tree, hs: seq<NodeId>, events: seq<Walk.Visit>)
    requires Renumbered(t, u, hs) && HeadingsShaped(t) && OnNodes(u, events)
    requires Identified(u, Hits(t, events))
    ensures |Requests(u, events)| == |Hits(t, events)|
    ensures forall k :: 0 <= k < |Hits(t, events)| ==>
              Hits(t, events)[k] < |u.nodes| && Requests(u, events)[k] == u.nodes[Hits(t, events)[k]].data.heading.id
  {
    if events != [] {
      var v := events[|events| - 1];
      assert Hits(t, events[..|events| - 1]) <= Hits(t, events);
      RequestsAreHits(t, u, hs, events[..|events| - 1]);
      assert SameButId(t.nodes[v.0], u.nodes[v.0]);
      hide HeadingsShaped, Renumbered;
      if v.1 && Listed(t.nodes[v.0]) { assert Hits(t, events)[|Hits(t, events)| - 1] == v.0; }
      if v.1 && t.Kind(v.0).Heading? && !Listed(t.nodes[v.0]) { TitleUntouched(t, u, hs, v.0); }
    }
  }

  lemma TitleUntouched(t: Tree, u: Tree, hs: seq<NodeId>, x: NodeId)
    requires Renumbered(t, u, hs) && HeadingsShaped(t) && x < |t.nodes| && t.Kind(x).Heading? && !Listed(t.nodes[x])
    ensures u.nodes[x].data.heading.id == []
  {
    assert x !in hs;
  }

  lemma TocIdsSize(n: nat)
    ensures |TocIds(n)| == n
  {
  }

  lemma TocIdsDistinct(n: nat)
    ensures forall i, j :: 0 <= i < j < n ==> TocIds(n)[i] != TocIds(n)[j]
  {
    forall i, j | 0 <= i < j < n ensures TocId(i) != TocId(j) {
      if TocId(i) == TocId(j) {
        assert TocId(i)[4..] == HeadingIds.Decimal(i) && TocId(j)[4..] == HeadingIds.Decimal(j);
        HeadingIds.DecimalInjective(i, j);
      }
    }
  }

  /** After the first walk the body asks for `toc_0`, `toc_1`, … in that order. */
  lemma BodyRequests(p: Params, t: Tree, u: Tree, root: NodeId, es: seq<Entry>, hs: seq<NodeId>)
    requires Renderable(p, t) && HeadingsShaped(t) && Entries(p, t, root, es, hs) && Renumbered(t, u, hs) && u.Valid()
    ensures TreeRequests(p, u, root) == TocIds(|hs|)
  {
    var events := Walk.Events(u, root, Visitor(p, u.nodes));
    EventsOnNodes(u, root, Visitor(p, u.nodes));
    SameStatus(p, t, u, hs);
    EventsRenumbered(t, u, hs, root, Visitor(p, t.nodes), Visitor(p, u.nodes));
    HitsAgree(t, root, TocVisitor(p, t, root), Visitor(p, t.nodes));
    RequestsAreHits(t, u, hs, events);
  }

  lemma SameStatus(p: Params, t: Tree, u: Tree, hs: seq<NodeId>)
    requires Renumbered(t, u, hs)
    ensures forall e :: Visitor(p, t.nodes)(e) == Visitor(p, u.nodes)(e)
  {
    forall e: Walk.Visit ensures Visitor(p, t.nodes)(e) == Visitor(p, u.nodes)(e) {
      if e.0 < |t.nodes| { assert SameButId(t.nodes[e.0], u.nodes[e.0]); }
    }
  }

  /** A rendering with a table of contents: both parts are well nested, every entry of
      the table links to `#toc_k`, and the heading ids of the body are `toc_0` to
      `toc_{n-1}`, each once, in the same order. */
  method RenderWithToc(r: HtmlRenderer, arena: A.Arena, root: NodeId)
    returns (toc: seq<Token>, body: seq<Token>, ghost es: seq<Entry>, ghost hs: seq<NodeId>)
    requires Renderable(r.p, arena.T()) && HeadingsShaped(arena.T()) && root < |arena.nodes|
    requires Esc.EntitiesShaped(r.p.ents) && r.disableTags == 0 && r.headingIds == map[]
    modifies r`headingIds, r`disableTags, r.sr, arena
    ensures Entries(r.p, old(arena.T()), root, es, hs) && Blanked(toc) == Nav(es)
    ensures Run([], toc) == Some([]) && Run([], body) == Some([]) && r.disableTags == 0
    ensures IdsOf(body) == TocIds(|es|) && Clean(r.p, body)
    ensures arena.Valid() && |arena.nodes| == |old(arena.nodes)| && Blanked(body) == TreeShape(r.p, arena.T(), root)
    ensures Renumbered(old(arena.T()), arena.T(), hs)
  {
    ghost var t := arena.T();
    toc, es, hs := WriteToc(r, arena, root);
    RenumberedShaped(r.p, t, arena.T(), hs);
    BodyRequests(r.p, t, arena.T(), root, es, hs);
    TocIdsDistinct(|hs|);
    HeadingIds.GrantFresh(map[], TocIds(|hs|));
    body := r.Render(arena, root);
  }
}
