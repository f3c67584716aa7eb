/** Working through the footnote queue, seen on trees (src/markdown.rs). */
module NoteTrace {
  import opened Bytes
  import opened Node
  import opened Growth
  import opened MD = Markdown
  import opened InlineTree
  import IN = Inline
  import opened InlinePass
  import opened ParsedTree
  import opened Outline
  import BlockSpec
  import GW = GrowingWalk
  import Walk

  // ----- the order of the list -----

  /** The children of the list once the items in `log` were attached, one after the
      other, each time at the end. */
  function Latest(log: seq<NodeId>): seq<NodeId> {
    if log == [] then []
    else
      var x := log[|log| - 1];
      Without(Latest(log[..|log| - 1]), x) + [x]
  }

  /** When `x` was attached last. */
  function LastAt(log: seq<NodeId>, x: NodeId): (n: nat)
    requires x in log
    ensures n < |log| && log[n] == x
  {
    if log[|log| - 1] == x then |log| - 1 else LastAt(log[..|log| - 1], x)
  }

  /** The children are exactly the items attached, each once. */
  lemma {:induction false} LatestIsSet(log: seq<NodeId>)
    ensures NoDup(Latest(log)) && forall x :: x in Latest(log) <==> x in log
  {
    if log != [] {
      var n := |log| - 1;
      var before, x := Latest(log[..n]), log[n];
      LatestIsSet(log[..n]);
      WithoutProps(before, x);
      hide Without;
      forall y ensures y in Latest(log) <==> y in log {
        assert log == log[..n] + [x];
      }
    }
  }

  /** The children are ordered by their latest attachment. */
  lemma {:induction false} LatestIsOrdered(log: seq<NodeId>, a: nat, b: nat)
    requires a < b < |Latest(log)|
    ensures Latest(log)[a] in log && Latest(log)[b] in log
    ensures LastAt(log, Latest(log)[a]) < LastAt(log, Latest(log)[b])
  {
    LatestIsSet(log);
    var n := |log| - 1;
    var before, x := Latest(log[..n]), log[n];
    var w := Without(before, x);
    assert Latest(log) == w + [x];
    LatestIsSet(log[..n]);
    WithoutProps(before, x);
    assert w[a] in w && (b < |w| ==> w[b] in w);
    if b < |w| {
      var i := KeptAt(before, x, a);
      var j := KeptAt(before, x, b);
      hide Latest, Without, NoDup;
      LatestIsOrdered(log[..n], i, j);
    }
  }

  /** Where an element that was kept stood before. */
  lemma KeptAt(s: seq<NodeId>, x: NodeId, a: nat) returns (i: nat)
    requires a < |Without(s, x)|
    ensures i < |s| && s[i] == Without(s, x)[a] && i == if x in s && a >= IndexOf(s, x) then a + 1 else a
  {
    i := a;
    if x in s {
      RemoveIndex(s, IndexOf(s, x));
      if a >= IndexOf(s, x) { i := a + 1; }
    }
  }

  /** Moving a child to the end. */
  lemma LatestStep(log: seq<NodeId>, x: NodeId, k: seq<NodeId>)
    requires k == Latest(log)
    ensures Latest(log + [x]) == Without(k, x) + [x]
  {
    assert (log + [x])[..|log|] == log;
  }

  // ----- one entry -----

  /** What attaching an item does to the tree. */
  ghost predicate Attached(t: Tree, u: Tree, list: NodeId, item: NodeId, flags: ListType, link: bytes) {
    && t.Valid() && u.Valid() && list < |t.nodes| && item < |t.nodes| && |u.nodes| == |t.nodes|
    && t.Kind(item).Item? && (t.Parent(item) == None || t.Parent(item) == Some(list))
    && u.kids == Markdown.MoveKid(t.kids, t.Parent(item), list, item)
    && u.nodes[item].data == t.nodes[item].data.(list := t.nodes[item].data.list.(flags := flags,
        refLink := Some(link)))
    && (forall x :: 0 <= x < |t.nodes| ==>
          u.Kind(x) == t.Kind(x) && u.Parent(x) == (if x == item then Some(list) else t.Parent(x))
          && (x != item ==> u.nodes[x].data == t.nodes[x].data))
  }

  /** What one queue entry does: its item goes to the end of the list, and its text is
      parsed below the item, as blocks or as running text.  `room` is the nesting left. */
  ghost predicate Stepped(m: Markdown, t: Tree, mid: Tree, u: Tree, list: NodeId, item: NodeId, flags: ListType,
                          handle: Reference, room: nat) {
    && Attached(t, mid, list, item, flags, handle.link) && Grown(mid, u, item)
    && (if handle.hasBlock then
          BlockGrown(mid, u, item, mid.level[item] + 2 * room + 2) && Terminated(handle.title)
          && Gains(mid, u, item, BlockSpec.Parts(m, handle.title, room))
        else Fit(mid, u) && exists ps, tail :: IN.Laid(mid, u, item, handle.title, ps, tail))
  }

  /** The first item is marked as such. */
  function EntryFlags(k: nat): ListType { NoListType.(ordered := true, beginningOfList := k == 0) }

  /** The trees between the entries: entry `k` takes `ts[k]` to `ts[k + 1]` and puts the
      item `log[k]` at the end of the list. */
  ghost predicate Trace(m: Markdown, ts: seq<Tree>, list: NodeId, log: seq<NodeId>, notes: seq<Reference>, room: nat) {
    && |ts| == |log| + 1 && |log| <= |notes|
    && (forall k :: 0 <= k < |log| ==> TraceStep(m, ts[k], ts[k + 1], list, log[k], EntryFlags(k), notes[k], room))
  }

  ghost predicate TraceStep(m: Markdown, t: Tree, u: Tree, list: NodeId, item: NodeId, flags: ListType,
                            handle: Reference, room: nat) {
    exists mid :: Stepped(m, t, mid, u, list, item, flags, handle, room)
  }

  lemma TraceGrows(m: Markdown, ts: seq<Tree>, list: NodeId, log: seq<NodeId>, notes: seq<Reference>,
                   notes': seq<Reference>, room: nat, u: Tree, item: NodeId)
    requires Trace(m, ts, list, log, notes, room) && notes <= notes' && |log| < |notes|
    requires TraceStep(m, ts[|log|], u, list, item, EntryFlags(|log|), notes[|log|], room)
    ensures Trace(m, ts + [u], list, log + [item], notes', room)
  {
    hide TraceStep;
  }

  lemma TraceLonger(m: Markdown, ts: seq<Tree>, list: NodeId, log: seq<NodeId>, notes: seq<Reference>,
                    notes': seq<Reference>, room: nat)
    requires Trace(m, ts, list, log, notes, room) && notes <= notes'
    ensures Trace(m, ts, list, log, notes', room)
  {
    hide TraceStep;
  }

  // ----- which item an entry shows at its turn -----

  /** What was attached for entry `k` is the item of a reference through its handle. */
  ghost predicate TurnIs(t: Tree, links: seq<NodeId>, notes: seq<Reference>, k: nat, item: NodeId, id: nat) {
    && k < id <= |notes| && id <= |links| && notes[id - 1] == notes[k]
    && links[id - 1] < |t.nodes| && t.nodes[links[id - 1]].data.link.footnote == Some(item)
  }

  ghost predicate Turned(t: Tree, links: seq<NodeId>, notes: seq<Reference>, log: seq<NodeId>) {
    |log| <= |notes| && forall k :: 0 <= k < |log| ==> HasTurn(t, links, notes, k, log[k])
  }

  ghost predicate HasTurn(t: Tree, links: seq<NodeId>, notes: seq<Reference>, k: nat, item: NodeId) {
    exists id :: TurnIs(t, links, notes, k, item, id)
  }

  /** A later tree and later books keep what was entered. */
  ghost predicate Onward(t: Tree, b: Books, u: Tree, b': Books) {
    && |t.nodes| <= |u.nodes| && b.links <= b'.links
    && (forall x :: 0 <= x < |t.nodes| ==> u.nodes[x].data.link == t.nodes[x].data.link)
  }

  lemma TurnedKept(t: Tree, b: Books, u: Tree, b': Books, notes: seq<Reference>, notes': seq<Reference>,
                   log: seq<NodeId>)
    requires Turned(t, b.links, notes, log) && Onward(t, b, u, b') && notes <= notes'
    ensures Turned(u, b'.links, notes', log)
  {
    forall k | 0 <= k < |log| ensures HasTurn(u, b'.links, notes', k, log[k]) {
      assert HasTurn(t, b.links, notes, k, log[k]);
      var id :| TurnIs(t, b.links, notes, k, log[k], id);
      assert TurnIs(u, b'.links, notes', k, log[k], id);
    }
  }

  /** The entry whose turn it is shows the item of the latest reference so far. */
  lemma TurnTaken(t: Tree, b: Books, notes: seq<Reference>, view: seq<(nat, Option<NodeId>)>, log: seq<NodeId>,
                  item: NodeId)
    requires Turned(t, b.links, notes, log) && NotesFit(t, b, notes, view) && |log| < |notes|
    requires view[|log|].1 == Some(item)
    ensures Turned(t, b.links, notes, log + [item])
  {
    assert NoteFits(t, b.links, notes, view, |log|);
    var log' := log + [item];
    forall k | 0 <= k < |log'| ensures HasTurn(t, b.links, notes, k, log'[k]) {
      if k == |log| {
        assert TurnIs(t, b.links, notes, k, log'[k], view[k].0);
      } else {
        assert log'[k] == log[k] && HasTurn(t, b.links, notes, k, log[k]);
      }
    }
  }

  /** Once every entry had its turn, the item an entry shows is one of those attached. */
  lemma ShownIsLogged(t: Tree, b: Books, notes: seq<Reference>, view: seq<(nat, Option<NodeId>)>, log: seq<NodeId>,
                      k: nat)
    requires Turned(t, b.links, notes, log) && NotesFit(t, b, notes, view) && k < |notes| && view[k].0 <= |log|
    ensures view[k].1.Some? && view[k].1.value in log
  {
    assert NoteFits(t, b.links, notes, view, k);
    var last := view[k].0 - 1;
    assert HasTurn(t, b.links, notes, last, log[last]);
    var id :| TurnIs(t, b.links, notes, last, log[last], id);
    assert id == view[k].0;
  }

  // ----- the rest of the tree -----

  /** After the document walk: below `base` are the block nodes, all items of them in
      lists; above it inline nodes and detached footnote items. */
  ghost predicate Settled(t: Tree, base: nat) {
    && t.Valid() && base <= |t.nodes|
    && (forall x :: 0 <= x < base ==>
          (t.Kind(x).Item? ==> t.Parent(x).Some?) && (t.Parent(x).Some? ==> t.Parent(x).value < base))
    && (forall x :: base <= x < |t.nodes| ==> t.Kind(x).IsInline() || (t.Kind(x).Item? && t.Parent(x) == None))
  }

  /** The document as it was, but for the footnote items and the list, which is its last
      child. */
  ghost predicate Beside(t2: Tree, t: Tree, base: nat, doc: NodeId, list: NodeId) {
    && t2.Valid() && t.Valid() && doc < base <= |t2.nodes| <= list < |t.nodes|
    && t.kids[doc] == t2.kids[doc] + [list]
    && (forall x :: 0 <= x < |t2.nodes| ==> KeptNode(t2, t, base, doc, x))
  }

  ghost predicate KeptNode(t2: Tree, t: Tree, base: nat, doc: NodeId, x: NodeId)
    requires x < |t2.nodes| <= |t.nodes| && |t2.kids| == |t2.nodes| && |t.kids| == |t.nodes|
  {
    && t.Kind(x) == t2.Kind(x)
    && ((t2.Kind(x).Item? && x >= base)
        || (t.nodes[x].data == t2.nodes[x].data && t.Parent(x) == t2.Parent(x)
            && (x == doc || t.kids[x] == t2.kids[x])))
  }

  /** The items that are attached are those of footnotes. */
  lemma ItemIsNew(t2: Tree, t: Tree, base: nat, doc: NodeId, list: NodeId, item: NodeId)
    requires Settled(t2, base) && Beside(t2, t, base, doc, list) && item < |t.nodes| && t.Kind(item).Item?
    requires t.Parent(item) == None || t.Parent(item) == Some(list)
    ensures item >= base
  {
    if item < |t2.nodes| { assert KeptNode(t2, t, base, doc, item); }
  }

  lemma BesideStep(m: Markdown, t2: Tree, t: Tree, mid: Tree, u: Tree, base: nat, doc: NodeId, list: NodeId,
                   item: NodeId, flags: ListType, handle: Reference, room: nat)
    requires Settled(t2, base) && Beside(t2, t, base, doc, list)
    requires Stepped(m, t, mid, u, list, item, flags, handle, room)
    ensures Beside(t2, u, base, doc, list)
  {
    hide BlockGrown, Fit, IN.Laid, Settled, Gains, BlockSpec.Parts;
    ItemIsNew(t2, t, base, doc, list, item);
    forall x | 0 <= x < |t2.nodes| ensures KeptNode(t2, u, base, doc, x) {
      assert KeptNode(t2, t, base, doc, x) && Same(mid, u, x);
      if x != item { assert mid.kids[x] == t.kids[x]; }
    }
  }

  /** Working through the queue leaves the document as it was. */
  lemma {:induction false} BesideTrace(m: Markdown, t2: Tree, ts: seq<Tree>, base: nat, doc: NodeId, list: NodeId,
                                       log: seq<NodeId>, notes: seq<Reference>, room: nat, k: nat)
    requires Settled(t2, base) && Trace(m, ts, list, log, notes, room) && Beside(t2, ts[0], base, doc, list)
    requires k <= |log|
    ensures Beside(t2, ts[k], base, doc, list)
  {
    hide Settled, Beside, Stepped;
    if k > 0 {
      BesideTrace(m, t2, ts, base, doc, list, log, notes, room, k - 1);
      assert TraceStep(m, ts[k - 1], ts[k - 1 + 1], list, log[k - 1], EntryFlags(k - 1), notes[k - 1], room);
      var mid :| Stepped(m, ts[k - 1], mid, ts[k], list, log[k - 1], EntryFlags(k - 1), notes[k - 1], room);
      BesideStep(m, t2, ts[k - 1], mid, ts[k], base, doc, list, log[k - 1], EntryFlags(k - 1), notes[k - 1], room);
    }
  }

  /** A text laid out by the document walk stays laid out. */
  lemma FilledBeside(t1: Tree, t2: Tree, t: Tree, base: nat, doc: NodeId, list: NodeId, x: NodeId)
    requires Beside(t2, t, base, doc, list) && Filled(t1, t2, x) && x < base && x != doc
    ensures Filled(t1, t, x)
  {
    var ps, tail :| IN.Laid(t1, t2, x, t1.nodes[x].data.content, ps, tail);
    assert KeptNode(t2, t, base, doc, x);
    hide IN.Chained, IN.Shown, IN.NodesOf;
    forall z, beg: nat, end: nat | IN.TextIs(t2, t1.nodes[x].data.content, z, beg, end)
      ensures IN.TextIs(t, t1.nodes[x].data.content, z, beg, end)
    {
      assert KeptNode(t2, t, base, doc, z);
    }
    assert IN.Laid(t1, t, x, t1.nodes[x].data.content, ps, tail);
  }

  // ----- the closing walk -----

  /** The paragraphs and headings below the list, in order; no table cells. */
  ghost function Bodies(t: Tree, list: NodeId): seq<NodeId> {
    if t.Valid() && list < |t.nodes| then GW.Targets(t, Walk.Events(t, list, GW.Always()), false) else []
  }

  /** The closing walk inlines each of them once, with its own text. */
  ghost predicate ClosingWalk(t: Tree, u: Tree, list: NodeId) {
    && list < |t.nodes| && Walked(t, u, Bodies(t, list)) && NoDup(Bodies(t, list))
    && forall x :: x in Bodies(t, list) ==> Filled(t, u, x)
  }

  /** The cells of a table in a footnote are passed over: they keep their text. */
  lemma CellsStay(t: Tree, u: Tree, list: NodeId, x: NodeId)
    requires ClosingWalk(t, u, list) && x < |t.nodes| && t.Kind(x).TableCell?
    ensures x < |u.nodes| && u.nodes[x].data == t.nodes[x].data && |u.kids| == |u.nodes| && |t.kids| == |t.nodes|
    ensures u.kids[x] == t.kids[x]
  {
    GW.TargetsIn(t, Walk.Events(t, list, GW.Always()), false, x);
    assert OldNode(t, u, x, x in Bodies(t, list));
  }

  /** Nothing below `base` hangs in the list. */
  lemma {:induction false} NotInList(t2: Tree, t: Tree, base: nat, doc: NodeId, list: NodeId, x: NodeId)
    requires Settled(t2, base) && Beside(t2, t, base, doc, list) && x < base
    ensures !Walk.Reached(t, list, x, GW.Always())
    decreases t.level[x]
  {
    assert KeptNode(t2, t, base, doc, x);
    if t.Parent(x).Some? {
      assert t.UpOk(x);
      NotInList(t2, t, base, doc, list, t.Parent(x).value);
    }
  }

  lemma BesideClosing(t2: Tree, t: Tree, u: Tree, base: nat, doc: NodeId, list: NodeId)
    requires Settled(t2, base) && Beside(t2, t, base, doc, list) && ClosingWalk(t, u, list)
    ensures Beside(t2, u, base, doc, list)
  {
    hide Walk.Reached, Filled;
    forall x | 0 <= x < |t2.nodes| ensures KeptNode(t2, u, base, doc, x) && x !in Bodies(t, list) {
      assert KeptNode(t2, t, base, doc, x);
      GW.TargetsAreReached(t, list, false, x);
      if x < base { NotInList(t2, t, base, doc, list, x); }
      assert OldNode(t, u, x, x in Bodies(t, list));
    }
    assert OldNode(t, u, doc, doc in Bodies(t, list));
  }

  // ----- whose footnotes are all listed -----

  /** The shown item is in the list exactly when the number shown was given before the
      closing walk. */
  lemma ListedIff(t: Tree, u: Tree, b: Books, b': Books, notes: seq<Reference>, notes': seq<Reference>, view: seq<(nat,
                  Option<NodeId>)>, view': seq<(nat, Option<NodeId>)>, list: NodeId, log: seq<NodeId>, k: nat)
    requires t.Valid() && list < |t.nodes| && t.kids[list] == Latest(log) && |log| == |notes|
    requires Sound(t, b) && NotesFit(t, b, notes, view) && Turned(t, b.links, notes, log)
    requires Walked(t, u, Bodies(t, list)) && Entered(t, u, b, b') && notes <= notes' && NotesFit(u, b', notes', view')
    requires k < |notes'|
    ensures view'[k].1.Some?
    ensures view'[k].1.value in Latest(log) <==> view'[k].0 <= |log|
  {
    assert NoteFits(u, b'.links, notes', view', k);
    LatestIsSet(log);
    WalkedOnward(t, u, b, b', list);
    TurnedKept(t, b, u, b', notes, notes', log);
    if view'[k].0 <= |log| {
      ShownIsLogged(u, b', notes', view', log, k);
    } else {
      NewItem(t, u, b, b', list, b'.links[view'[k].0 - 1]);
      assert t.KidsOk(list);
      if view'[k].1.value in t.kids[list] { t.KidOf(list, view'[k].1.value); }
    }
  }

  lemma WalkedOnward(t: Tree, u: Tree, b: Books, b': Books, list: NodeId)
    requires Walked(t, u, Bodies(t, list)) && Entered(t, u, b, b')
    ensures Onward(t, b, u, b')
  {
    forall x | 0 <= x < |t.nodes| ensures u.nodes[x].data.link == t.nodes[x].data.link {
      assert OldNode(t, u, x, x in Bodies(t, list));
    }
  }

  /** A number given by the closing walk belongs to a new link with a new item. */
  lemma NewItem(t: Tree, u: Tree, b: Books, b': Books, list: NodeId, x: NodeId)
    requires Sound(t, b) && Walked(t, u, Bodies(t, list)) && Entered(t, u, b, b') && x < |u.nodes| && u.Kind(x).Link?
    requires u.nodes[x].data.link.noteId > |b.links| && u.nodes[x].data.link.footnote.Some?
    ensures u.nodes[x].data.link.footnote.value >= |t.nodes|
  {
    if x < |t.nodes| {
      OldNumber(t, u, b, list, x);
    } else {
      assert EnteredNode(u.nodes[x], x, |t.nodes|, |u.nodes|, b, b');
    }
  }

  lemma OldNumber(t: Tree, u: Tree, b: Books, list: NodeId, x: NodeId)
    requires Sound(t, b) && Walked(t, u, Bodies(t, list)) && x < |t.nodes| && u.Kind(x).Link?
    ensures u.nodes[x].data.link.noteId <= |b.links|
  {
    assert OldNode(t, u, x, x in Bodies(t, list)) && SoundNode(t, x, b);
  }

  // ----- footnotes without block bodies -----

  /** Below the footnote items hang inline nodes only. */
  ghost predicate Airy(t: Tree, list: NodeId) {
    forall c :: 0 <= c < |t.nodes| && t.Parent(c).Some? ==> AiryKid(t, list, c)
  }

  ghost predicate AiryKid(t: Tree, list: NodeId, c: NodeId)
    requires c < |t.nodes| && t.Parent(c).Some?
  {
    var x := t.Parent(c).value;
    x < |t.nodes| && t.Kind(x).Item? && (t.Parent(x) == None || t.Parent(x) == Some(list)) ==> t.Kind(c).IsInline()
  }

  lemma AiryStarts(t2: Tree, t: Tree, base: nat, doc: NodeId, list: NodeId)
    requires Settled(t2, base) && Beside(t2, t, base, doc, list) && |t.nodes| == list + 1 == |t2.nodes| + 1
    requires t.Parent(list) == Some(doc) && t2.Kind(doc).Document? && t.kids[list] == [] && EdgesOk(t)
    ensures Airy(t, list)
  {
    forall c | 0 <= c < |t.nodes| && t.Parent(c).Some? ensures AiryKid(t, list, c) {
      var x := t.Parent(c).value;
      t.ParentOf(c);
      if t.Kind(x).Item? && (t.Parent(x) == None || t.Parent(x) == Some(list)) {
        if t.Parent(x) == Some(list) { t.ParentOf(x); }
        assert KeptNode(t2, t, base, doc, doc) && EdgeOk(t.Kind(x), t.Kind(c));
        ItemIsNew(t2, t, base, doc, list, x);
        if c < |t2.nodes| { assert KeptNode(t2, t, base, doc, c); }
      }
    }
  }

  lemma AiryStep(m: Markdown, t: Tree, mid: Tree, u: Tree, list: NodeId, item: NodeId, flags: ListType,
                 handle: Reference, room: nat)
    requires Airy(t, list) && Stepped(m, t, mid, u, list, item, flags, handle, room) && !handle.hasBlock
    requires !t.Kind(list).Item?
    ensures Airy(u, list) && !u.Kind(list).Item?
  {
    hide IN.Laid, Markdown.MoveKid, Gains, BlockSpec.Parts;
    assert Same(mid, u, list);
    forall c | 0 <= c < |u.nodes| && u.Parent(c).Some? ensures AiryKid(u, list, c) {
      if c >= |t.nodes| {
        assert FitNode(u.nodes[c]);
      } else {
        assert Same(mid, u, c);
        mid.ParentOf(c);
        assert Same(mid, u, u.Parent(c).value);
        if c != item { assert AiryKid(t, list, c); }
      }
    }
  }

  /** None of the first `n` entries has a block body. */
  predicate BlockFree(notes: seq<Reference>, n: nat) {
    forall k :: 0 <= k < n && k < |notes| ==> !notes[k].hasBlock
  }

  lemma {:induction false} AiryTrace(m: Markdown, ts: seq<Tree>, list: NodeId, log: seq<NodeId>, notes: seq<Reference>,
                                     room: nat, k: nat)
    requires Trace(m, ts, list, log, notes, room) && list < |ts[0].nodes| && Airy(ts[0], list) && k <= |log|
    requires !ts[0].Kind(list).Item? && BlockFree(notes, |log|)
    ensures list < |ts[k].nodes| && Airy(ts[k], list) && !ts[k].Kind(list).Item?
  {
    hide Airy;
    if k > 0 {
      AiryTrace(m, ts, list, log, notes, room, k - 1);
      assert TraceStep(m, ts[k - 1], ts[k - 1 + 1], list, log[k - 1], EntryFlags(k - 1), notes[k - 1], room);
      var mid :| Stepped(m, ts[k - 1], mid, ts[k], list, log[k - 1], EntryFlags(k - 1), notes[k - 1], room);
      AiryStep(m, ts[k - 1], mid, ts[k], list, log[k - 1], EntryFlags(k - 1), notes[k - 1], room);
    }
  }

  /** Below such a list there is nothing left to inline. */
  lemma AiryHasNoBodies(t: Tree, list: NodeId)
    requires t.Valid() && EdgesOk(t) && list < |t.nodes| && t.Kind(list).List? && Airy(t, list)
    ensures Bodies(t, list) == []
  {
    var bodies := Bodies(t, list);
    if bodies != [] {
      var x := bodies[0];
      assert x in bodies;
      BodiesAreOld(t, list, x);
      GW.TargetsAreReached(t, list, false, x);
      AiryReached(t, list, x);
      assert false;
    }
  }

  /** Once entries were turned: the document is as it was, and without block bodies
      there is nothing left to inline. */
  lemma TraceEnd(m: Markdown, t2: Tree, ts: seq<Tree>, base: nat, doc: NodeId, list: NodeId, log: seq<NodeId>,
                 notes: seq<Reference>, room: nat)
    requires Trace(m, ts, list, log, notes, room) && Settled(t2, base) && Beside(t2, ts[0], base, doc, list)
    requires list < |ts[0].nodes| && Airy(ts[0], list) && ts[0].Kind(list).List?
    requires ts[|log|].Valid() && EdgesOk(ts[|log|]) && list < |ts[|log|].nodes| && ts[|log|].Kind(list).List?
    ensures Beside(t2, ts[|log|], base, doc, list)
    ensures BlockFree(notes, |log|) ==> Bodies(ts[|log|], list) == []
  {
    hide Airy, Bodies, Settled, Beside, BlockFree, TraceStep, EdgesOk, Tree.Valid;
    BesideTrace(m, t2, ts, base, doc, list, log, notes, room, |log|);
    if BlockFree(notes, |log|) {
      AiryTrace(m, ts, list, log, notes, room, |log|);
      AiryHasNoBodies(ts[|log|], list);
    }
  }

  lemma BodiesAreOld(t: Tree, list: NodeId, x: NodeId)
    requires x in Bodies(t, list)
    ensures x < |t.nodes|
  {
    var events := Walk.Events(t, list, GW.Always());
    GW.TargetWasVisited(t, events, false, x);
    GW.EventsOld(t, list);
  }

  lemma {:induction false} AiryReached(t: Tree, list: NodeId, x: NodeId)
    requires t.Valid() && EdgesOk(t) && list < |t.nodes| && t.Kind(list).List? && Airy(t, list) && x < |t.nodes|
    requires Walk.Reached(t, list, x, GW.Always())
    ensures x == list || (t.Kind(x).Item? && t.Parent(x) == Some(list)) || t.Kind(x).IsInline()
    decreases t.level[x]
  {
    if x != list {
      assert t.UpOk(x);
      AiryReached(t, list, t.Parent(x).value);
      assert AiryKid(t, list, x);
    }
  }
}
