/** The footnote list (`parse_refs_to_ast` of src/markdown.rs). */
module Footnotes {
  import opened Bytes
  import opened Node
  import opened Growth
  import opened MD = Markdown
  import opened InlineTree
  import IN = Inline
  import opened InlinePass
  import opened NoteTrace
  import opened ParsedTree
  import opened Outline
  import Block
  import BlockSpec
  import Walk
  import GW = GrowingWalk

  // ----- the list under construction -----

  /** The item of a numbered link hangs nowhere, or in the list. */
  ghost predicate Loose(t: Tree, list: NodeId, x: NodeId)
    requires x < |t.nodes|
  {
    var l := t.nodes[x].data.link;
    t.Kind(x).Link? && l.noteId != 0 && l.footnote.Some? && l.footnote.value < |t.nodes|
        && t.Kind(l.footnote.value).Item? ==>
      t.Parent(l.footnote.value) == None || t.Parent(l.footnote.value) == Some(list)
  }

  /** The list is a child of the document and holds what was attached. */
  ghost predicate Listing(t: Tree, doc: NodeId, list: NodeId, log: seq<NodeId>) {
    && t.Valid() && doc < |t.nodes| && t.Kind(doc).Document? && t.Parent(doc) == None
    && list < |t.nodes| && t.Kind(list).List? && t.Parent(list) == Some(doc)
    && t.kids[list] == Latest(log)
    && (forall x :: 0 <= x < |t.nodes| ==> Loose(t, list, x))
  }

  /** The state between two queue entries. */
  ghost predicate Going(m: Markdown, list: NodeId, log: seq<NodeId>)
    reads m, m.arena, m.notes
  {
    && Live(m) && !m.ext.definitionLists && m.nesting < m.maxNesting
    && Sound(m.arena.T(), m.books) && Listing(m.arena.T(), m.doc, list, log)
    && ClimbsTo(m.arena.T(), m.tip, NodeType.Item, list)
  }

  lemma ListingGrown(t: Tree, u: Tree, e: NodeId, doc: NodeId, list: NodeId, log: seq<NodeId>, books: Books)
    requires Grown(t, u, e) && e != list && Listing(t, doc, list, log) && Sound(t, books)
    requires forall x :: |t.nodes| <= x < |u.nodes| ==> Loose(u, list, x)
    ensures Listing(u, doc, list, log)
  {
    assert Same(t, u, doc) && Same(t, u, list);
    forall x | 0 <= x < |u.nodes| ensures Loose(u, list, x) {
      if x < |t.nodes| {
        assert Same(t, u, x) && Loose(t, list, x) && SoundNode(t, x, books);
        var l := t.nodes[x].data.link;
        if t.Kind(x).Link? && l.noteId != 0 { assert Same(t, u, l.footnote.value); }
      }
    }
  }

  lemma LooseInline(t: Tree, u: Tree, list: NodeId, b: Books, b': Books, x: NodeId)
    requires Fit(t, u) && Entered(t, u, b, b') && |t.nodes| <= x < |u.nodes|
    ensures Loose(u, list, x)
  {
    assert EnteredNode(u.nodes[x], x, |t.nodes|, |u.nodes|, b, b');
    var l := u.nodes[x].data.link;
    if u.Kind(x).Link? && l.noteId != 0 { assert FitNode(u.nodes[l.footnote.value]); }
  }

  lemma ListingMoved(t: Tree, u: Tree, doc: NodeId, list: NodeId, item: NodeId, log: seq<NodeId>)
    requires Listing(t, doc, list, log) && Markdown.MovedToEnd(t, u, list, item) && t.Kind(item).Item?
    requires t.Parent(item) == None || t.Parent(item) == Some(list)
    ensures Listing(u, doc, list, log + [item])
  {
    MovedLast(t, u, list, item, log);
    hide Latest, Tree.Valid, EdgesOk, Markdown.MoveKid;
    forall x | 0 <= x < |u.nodes| ensures Loose(u, list, x) { assert Loose(t, list, x); }
  }

  /** An item that hung nowhere is not among the children before. */
  lemma MovedLast(t: Tree, u: Tree, list: NodeId, item: NodeId, log: seq<NodeId>)
    requires t.Valid() && list < |t.nodes| && item < |t.nodes| && t.kids[list] == Latest(log)
    requires t.Parent(item) == None || t.Parent(item) == Some(list)
    requires u.kids == Markdown.MoveKid(t.kids, t.Parent(item), list, item)
    ensures list < |u.kids| && u.kids[list] == Latest(log + [item])
  {
    LatestStep(log, item, t.kids[list]);
    hide Latest;
    if t.Parent(item) == None && item in t.kids[list] { t.KidOf(list, item); }
  }

  lemma ListingData(t: Tree, doc: NodeId, list: NodeId, item: NodeId, log: seq<NodeId>, d: Data)
    requires Listing(t, doc, list, log) && item < |t.nodes| && t.Kind(item).Item?
    ensures Listing(WithData(t, item, d), doc, list, log)
  {
    var u := WithData(t, item, d);
    SameLinksValid(t, u);
    forall x | 0 <= x < |u.nodes| ensures Loose(u, list, x) { assert Loose(t, list, x); }
  }

  /** The list is never below one of its items. */
  lemma ListNotUnderItem(t: Tree, doc: NodeId, list: NodeId, item: NodeId, log: seq<NodeId>)
    requires Listing(t, doc, list, log) && item < |t.nodes| && t.Kind(item).Item?
    ensures !t.Under(list, item)
  {
    assert t.UpOk(list) && !t.Under(doc, item);
  }

  // ----- one entry -----

  lemma AttachKeeps(t: Tree, v: Tree, doc: NodeId, list: NodeId, item: NodeId, log: seq<NodeId>, flags: ListType,
                    link: bytes, books: Books, notes: seq<Reference>, view: seq<(nat, Option<NodeId>)>)
    requires Listing(t, doc, list, log) && Sound(t, books) && NotesFit(t, books, notes, view)
    requires Markdown.MovedToEnd(t, v, list, item) && t.Kind(item).Item? && !flags.term && !flags.definition
    requires t.Parent(item) == None || t.Parent(item) == Some(list)
    ensures var d := v.nodes[item].data;
            var u := WithData(v, item, d.(list := d.list.(flags := flags, refLink := Some(link))));
            u.Valid() && EdgesOk(u) && SameLinks(v, u) && Listing(u, doc, list, log + [item]) && Sound(u, books)
            && NotesFit(u, books, notes, view) && Attached(t, u, list, item, flags, link)
                && u.Parent(item) == Some(list)
  {
    hide Listing, Sound, Tree.Valid, EdgesOk, Markdown.MovedToEnd, NotesFit, Attached, SameLinks, Tree.Under;
    ListingMoved(t, v, doc, list, item, log);
    MovedParts(t, v, list, item);
    SoundSame(t, v, books);
    NotesSame(t, v, books, notes, view);
    var d := v.nodes[item].data;
    var d' := d.(list := d.list.(flags := flags, refLink := Some(link)));
    FilledParts(v, item, d');
    ListingData(v, doc, list, item, log + [item], d');
    SoundData(v, item, d', books);
    NotesSame(v, WithData(v, item, d'), books, notes, view);
    AttachedParts(t, v, list, item, flags, link);
  }

  lemma MovedParts(t: Tree, v: Tree, list: NodeId, item: NodeId)
    requires Markdown.MovedToEnd(t, v, list, item)
    ensures v.Valid() && EdgesOk(v) && item < |t.nodes| == |v.nodes| && v.Parent(item) == Some(list)
    ensures forall x :: 0 <= x < |t.nodes| ==> v.nodes[x].data == t.nodes[x].data && v.Kind(x) == t.Kind(x)
  {
  }

  lemma FilledParts(v: Tree, item: NodeId, d: Data)
    requires v.Valid() && EdgesOk(v) && item < |v.nodes| && v.Kind(item).Item?
    ensures var u := WithData(v, item, d);
            u.Valid() && EdgesOk(u) && SameLinks(v, u) && u.Parent(item) == v.Parent(item) && |u.nodes| == |v.nodes|
    ensures d.link == v.nodes[item].data.link ==>
              forall x :: 0 <= x < |v.nodes| ==> WithData(v, item, d).nodes[x].data.link == v.nodes[x].data.link
                                                 && WithData(v, item, d).Kind(x) == v.Kind(x)
  {
    SameLinksValid(v, WithData(v, item, d));
  }

  lemma AttachedParts(t: Tree, v: Tree, list: NodeId, item: NodeId, flags: ListType, link: bytes)
    requires Markdown.MovedToEnd(t, v, list, item) && t.Kind(item).Item?
    requires t.Parent(item) == None || t.Parent(item) == Some(list)
    ensures var d := v.nodes[item].data;
            Attached(t, WithData(v, item, d.(list := d.list.(flags := flags, refLink := Some(link)))), list, item,
                flags, link)
  {
    var d := v.nodes[item].data;
    SameLinksValid(v, WithData(v, item, d.(list := d.list.(flags := flags, refLink := Some(link)))));
    hide Markdown.MoveKid, EdgesOk;
  }

  lemma NotesSame(t: Tree, u: Tree, books: Books, notes: seq<Reference>, view: seq<(nat, Option<NodeId>)>)
    requires NotesFit(t, books, notes, view) && |u.nodes| == |t.nodes|
    requires forall x :: 0 <= x < |t.nodes| ==> u.Kind(x) == t.Kind(x) && u.nodes[x].data.link == t.nodes[x].data.link
    ensures NotesFit(u, books, notes, view)
  {
    forall k | 0 <= k < |notes| ensures NoteFits(u, books.links, notes, view, k) { assert NoteFits(t, books.links,
        notes, view, k); }
  }

  /** Moves the item to the end of the list and fills in its data. */
  method Attach(m: Markdown, list: NodeId, item: NodeId, flags: ListType, link: bytes, ghost log: seq<NodeId>)
    requires Going(m, list, log) && item < |m.arena.nodes| && m.arena.T().Kind(item).Item? && !flags.term
             && !flags.definition
    requires m.arena.T().Parent(item) == None || m.arena.T().Parent(item) == Some(list)
    modifies m`tip, m.arena
    ensures Going(m, list, log + [item]) && m.tip == item
    ensures Attached(old(m.arena.T()), m.arena.T(), list, item, flags, link)
    ensures m.arena.T().Kind(item).Item? && m.arena.T().Parent(item) == Some(list)
  {
    hide Listing, Sound, NotesFit, Tree.Valid, EdgesOk, Tree.Under, Markdown.MovedToEnd;
    ghost var t, books, notes, view := m.arena.T(), m.books, m.notes, m.View();
    ListingParts(t, m.doc, list, log);
    ListNotUnderItem(t, m.doc, list, item, log);
    m.AddExistingChild(item, list);
    ghost var v := m.arena.T();
    AttachKeeps(t, v, m.doc, list, item, log, flags, link, books, notes, view);
    var d := m.arena.nodes[item].data;
    m.arena.SetData(item, d.(list := d.list.(flags := flags, refLink := Some(link))));
    assert m.View() == view;
    MovedParts(t, v, list, item);
    ItemTip(m.arena.T(), m.doc, list, log + [item], item);
  }

  lemma ListingParts(t: Tree, doc: NodeId, list: NodeId, log: seq<NodeId>)
    requires Listing(t, doc, list, log)
    ensures t.Valid() && list < |t.nodes| && t.Kind(list).List? && t.Parent(list) == Some(doc) && doc < |t.nodes|
    ensures |t.level| == |t.nodes|
  {
  }

  /** Below an item of the list, the next item climbs to the list. */
  lemma ItemTip(t: Tree, doc: NodeId, list: NodeId, log: seq<NodeId>, item: NodeId)
    requires Listing(t, doc, list, log) && item < |t.nodes| && t.Kind(item).Item? && t.Parent(item) == Some(list)
    ensures ClimbsTo(t, item, NodeType.Item, list)
  {
    ItemClimbs(t, item, item, list);
  }

  /** `item` is in the list and the insertion point is at it. */
  ghost predicate AtItem(m: Markdown, list: NodeId, item: NodeId, log: seq<NodeId>)
    reads m, m.arena, m.notes
  {
    && Going(m, list, log) && m.tip == item && item < |m.arena.nodes|
    && m.arena.T().Kind(item).Item? && m.arena.T().Parent(item) == Some(list)
  }

  lemma BlockBodyKeeps(t: Tree, u: Tree, doc: NodeId, list: NodeId, item: NodeId, log: seq<NodeId>, b: nat,
                       books: Books, notes: seq<Reference>, view: seq<(nat, Option<NodeId>)>)
    requires Listing(t, doc, list, log) && Sound(t, books) && NotesFit(t, books, notes, view)
             && BlockGrown(t, u, item, b)
    requires t.Kind(item).Item? && t.Parent(item) == Some(list)
    ensures Listing(u, doc, list, log) && Sound(u, books) && NotesFit(u, books, notes, view)
    ensures u.Kind(item).Item? && u.Parent(item) == Some(list) && list < |u.nodes| && u.Kind(list).List?
  {
    assert Same(t, u, item);
    SoundBlock(t, u, item, b, books);
    NotesKept(t, u, books, notes, view);
    forall x | |t.nodes| <= x < |u.nodes| ensures Loose(u, list, x) {}
    hide Loose, Sound, NotesFit;
    ListingGrown(t, u, item, doc, list, log, books);
  }

  /** A body of blocks. */
  method BlockBody(m: Markdown, list: NodeId, item: NodeId, title: bytes, ghost log: seq<NodeId>)
    requires AtItem(m, list, item, log) && Terminated(title)
    modifies m, m.arena
    ensures Going(m, list, log) && m.Frame() == old(m.Frame()) && fresh(m.handles - old(m.handles))
    ensures BlockGrown(old(m.arena.T()), m.arena.T(), item, old(Block.BlockBound(m, item)))
    ensures Gains(old(m.arena.T()), m.arena.T(), item, BlockSpec.Parts(m, title, old(Block.Room(m))))
  {
    hide Listing, Sound, NotesFit, Tree.Valid, EdgesOk, BlockGrown, Gains, BlockSpec.Parts;
    ghost var t, books, notes, view := m.arena.T(), m.books, m.notes, m.View();
    ListingParts(t, m.doc, list, log);
    ghost var b := Block.BlockBound(m, item);
    Block.Block(m, title, item);
    assert m.View() == view;
    BlockBodyKeeps(t, m.arena.T(), m.doc, list, item, log, b, books, notes, view);
    ItemClimbs(m.arena.T(), m.tip, item, list);
  }

  lemma InlineBodyKeeps(t: Tree, u: Tree, doc: NodeId, list: NodeId, item: NodeId, log: seq<NodeId>,
                                           b: Books, b': Books)
    requires Listing(t, doc, list, log) && Sound(t, b) && item < |t.nodes| && t.Kind(item).Item?
             && t.Parent(item) == Some(list)
    requires Grown(t, u, item) && Fit(t, u) && Entered(t, u, b, b')
    ensures Listing(u, doc, list, log) && Sound(u, b') && ClimbsTo(u, item, NodeType.Item, list)
  {
    assert Same(t, u, item);
    SoundInline(t, u, item, b, b');
    forall x | |t.nodes| <= x < |u.nodes| ensures Loose(u, list, x) { LooseInline(t, u, list, b, b', x); }
    hide Loose, Sound, Fit, Entered;
    ListingGrown(t, u, item, doc, list, log, b);
    ItemTip(u, doc, list, log, item);
  }

  /** A body of running text. */
  method InlineBody(m: Markdown, list: NodeId, item: NodeId, title: bytes, ghost log: seq<NodeId>)
    returns (ghost ps: seq<IN.Piece>, ghost tail: Option<NodeId>)
    requires AtItem(m, list, item, log)
    modifies m`nesting, m`insideLink, m`notes, m`books, m.arena, m.handles
    ensures Going(m, list, log) && m.nesting == old(m.nesting) && m.insideLink == old(m.insideLink)
    ensures Inlined(m, old(m.arena.T()), old(m.books), old(m.notes), item)
    ensures IN.Laid(old(m.arena.T()), m.arena.T(), item, title, ps, tail)
  {
    hide Listing, Sound, NotesFit, Tree.Valid, EdgesOk, IN.Laid, Grown, Fit, Entered;
    ghost var t, books := m.arena.T(), m.books;
    ps, tail := IN.Inline(m, item, title);
    InlineBodyKeeps(t, m.arena.T(), m.doc, list, item, log, books, m.books);
  }

  /** The item an entry shows, ready to be attached. */
  lemma EntryItem(t: Tree, doc: NodeId, list: NodeId, log: seq<NodeId>, books: Books, notes: seq<Reference>,
                  view: seq<(nat, Option<NodeId>)>, i: nat)
    requires Listing(t, doc, list, log) && Sound(t, books) && NotesFit(t, books, notes, view) && i < |notes|
    ensures view[i].1.Some?
    ensures var item := view[i].1.value;
            item < |t.nodes| && t.Kind(item).Item? && (t.Parent(item) == None || t.Parent(item) == Some(list))
  {
    assert NoteFits(t, books.links, notes, view, i);
    var x := books.links[view[i].0 - 1];
    assert t.Kind(books.links[view[i].0 - 1]).Link?
        && t.nodes[books.links[view[i].0 - 1]].data.link.noteId == view[i].0;
    assert Loose(t, list, x);
  }

  lemma StepOnward(t: Tree, mid: Tree, u: Tree, list: NodeId, item: NodeId, flags: ListType, link: bytes, b: Books,
                   b': Books)
    requires Attached(t, mid, list, item, flags, link) && Grown(mid, u, item) && b.links <= b'.links
    ensures Onward(t, b, u, b')
  {
    forall x | 0 <= x < |t.nodes| ensures u.nodes[x].data.link == t.nodes[x].data.link { assert Same(mid, u, x); }
  }

  lemma LiveParts(m: Markdown)
    requires Live(m)
    ensures m.arena.T().Valid() && EdgesOk(m.arena.T()) && NotesFit(m.arena.T(), m.books, m.notes, m.View())
  {
  }

  /** One queue entry.  The item is read through the handle, so it is the one of the
      latest reference made so far. */
  method NoteStep(m: Markdown, list: NodeId, i: nat, flags: ListType, ghost log: seq<NodeId>)
    returns (ghost item: NodeId, ghost mid: Tree)
    requires Going(m, list, log) && i < |m.notes| && !flags.term && !flags.definition
    modifies m, m.arena, m.handles
    ensures old(m.View())[i].1 == Some(item) && Going(m, list, log + [item])
    ensures m.nesting == old(m.nesting) && m.insideLink == old(m.insideLink) && old(m.notes) <= m.notes
    ensures fresh(m.handles - old(m.handles))
    ensures Stepped(m, old(m.arena.T()), mid, m.arena.T(), list, item, flags.(ordered := true), old(m.notes)[i],
                    m.maxNesting - m.nesting)
    ensures Onward(old(m.arena.T()), old(m.books), m.arena.T(), m.books)
  {
    hide Listing, Sound, NotesFit, Tree.Valid, EdgesOk, IN.Laid, Grown, Fit, Entered, Attached, Onward, Gains,
         BlockSpec.Parts;
    ghost var t, books := m.arena.T(), m.books;
    EntryItem(t, m.doc, list, log, m.books, m.notes, m.View(), i);
    var handle := m.notes[i];
    var id := handle.footnote.value;
    item := id;
    Attach(m, list, id, flags.(ordered := true), handle.link, log);
    mid := m.arena.T();
    ListingParts(mid, m.doc, list, log + [item]);
    if handle.hasBlock {
      BlockBody(m, list, id, handle.title, log + [item]);
    } else {
      ghost var ps, tail := InlineBody(m, list, id, handle.title, log + [item]);
      InlinedParts(m, mid, books, old(m.notes), item);
    }
    StepOnward(t, mid, m.arena.T(), list, item, flags.(ordered := true), handle.link, books, m.books);
  }

  lemma InlinedParts(m: Markdown, t: Tree, b: Books, n: seq<Reference>, e: NodeId)
    requires Inlined(m, t, b, n, e)
    ensures Grown(t, m.arena.T(), e) && Fit(t, m.arena.T()) && b.links <= m.books.links
  {
  }

  /** Entries turned so far: the trees between them, and what each attached. */
  ghost predicate Working(m: Markdown, list: NodeId, ts: seq<Tree>, log: seq<NodeId>)
    reads m, m.arena, m.notes
  {
    && Going(m, list, log) && Turned(m.arena.T(), m.books.links, m.notes, log)
    && Trace(m, ts, list, log, m.notes, m.maxNesting - m.nesting) && ts[|log|] == m.arena.T()
  }

  lemma WorkBegins(m: Markdown, list: NodeId)
    requires Going(m, list, [])
    ensures Working(m, list, [m.arena.T()], [])
  {
    hide Going;
    GoingNests(m, list, []);
  }

  lemma GoingNests(m: Markdown, list: NodeId, log: seq<NodeId>)
    requires Going(m, list, log)
    ensures Live(m) && m.nesting < m.maxNesting && |m.View()| == |m.notes|
  {
  }

  /** One more entry was turned. */
  lemma WorkGoesOn(m: Markdown, t: Tree, b: Books, notes: seq<Reference>, view: seq<(nat, Option<NodeId>)>,
                   list: NodeId, ts: seq<Tree>, log: seq<NodeId>, item: NodeId, mid: Tree)
    requires NotesFit(t, b, notes, view) && Turned(t, b.links, notes, log) && m.nesting < m.maxNesting
    requires Trace(m, ts, list, log, notes, m.maxNesting - m.nesting) && |ts| == |log| + 1 && ts[|log|] == t
    requires |log| < |notes| && view[|log|].1 == Some(item) && Going(m, list, log + [item]) && notes <= m.notes
    requires Stepped(m, t, mid, m.arena.T(), list, item, EntryFlags(|log|), notes[|log|], m.maxNesting - m.nesting)
    requires Onward(t, b, m.arena.T(), m.books)
    ensures Working(m, list, ts + [m.arena.T()], log + [item])
  {
    hide Going, Stepped, Turned, Trace, Onward, NotesFit;
    TurnTaken(t, b, notes, view, log, item);
    TurnedKept(t, b, m.arena.T(), m.books, notes, m.notes, log + [item]);
    assert TraceStep(m, t, m.arena.T(), list, item, EntryFlags(|log|), notes[|log|], m.maxNesting - m.nesting);
    TraceGrows(m, ts, list, log, notes, m.notes, m.maxNesting - m.nesting, m.arena.T(), item);
  }

  lemma WorkingParts(m: Markdown, list: NodeId, ts: seq<Tree>, log: seq<NodeId>)
    requires Working(m, list, ts, log)
    ensures Going(m, list, log) && Live(m) && m.nesting < m.maxNesting && |log| <= |m.notes| && |ts| == |log| + 1
    ensures Turned(m.arena.T(), m.books.links, m.notes, log) && m.arena.T() == ts[|log|]
    ensures Trace(m, ts, list, log, m.notes, m.maxNesting - m.nesting)
    ensures NotesFit(m.arena.T(), m.books, m.notes, m.View())
  {
  }

  /** Works through at most `limit` entries; bodies may queue more while it runs.  When
      it stops, entry `k` has attached the item `log[k]` its handle showed then, filled
      it in and parsed its text, and the list holds the items in the order of their
      latest turn. */
  method NoteSteps(m: Markdown, list: NodeId, limit: nat)
    returns (done: bool, ghost ts: seq<Tree>, ghost log: seq<NodeId>)
    requires Going(m, list, [])
    modifies m, m.arena, m.handles
    ensures Working(m, list, ts, log) && ts[0] == old(m.arena.T())
    ensures |log| <= |m.notes| && (if done then |log| == |m.notes| else |log| == limit)
    ensures m.nesting == old(m.nesting) && m.insideLink == old(m.insideLink) && old(m.notes) <= m.notes
    ensures fresh(m.handles - old(m.handles))
  {
    hide Going, Stepped, Working, Trace, Turned, Onward, Live, NotesFit, Markdown.View;
    var flags := NoListType.(beginningOfList := true);
    log, ts := [], [m.arena.T()];
    WorkBegins(m, list);
    var i := 0;
    while i < |m.notes| && i < limit
      invariant Working(m, list, ts, log) && |ts| == |log| + 1 && ts[0] == old(m.arena.T())
      invariant |log| == i <= |m.notes| && i <= limit
      invariant flags == NoListType.(beginningOfList := i == 0)
      invariant m.nesting == old(m.nesting) && m.insideLink == old(m.insideLink) && old(m.notes) <= m.notes
      invariant fresh(m.handles - old(m.handles))
      decreases limit - i
    {
      WorkingParts(m, list, ts, log);
      GoingNests(m, list, log);
      ghost var t, b, notes, view := m.arena.T(), m.books, m.notes, m.View();
      ghost var item, mid := NoteStep(m, list, i, flags, log);
      GoingNests(m, list, log + [item]);
      WorkGoesOn(m, t, b, notes, view, list, ts, log, item, mid);
      log, ts := log + [item], ts + [m.arena.T()];
      flags := flags.(beginningOfList := false, containsBlock := false);
      i := i + 1;
    }
    done := i == |m.notes|;
    WorkingParts(m, list, ts, log);
  }

  // ----- the whole list -----

  /** Between the phases: a sound tree below the document, no footnote item placed yet. */
  ghost predicate Between(m: Markdown)
    reads m, m.arena, m.notes
  {
    && Live(m) && !m.ext.definitionLists && m.nesting < m.maxNesting && Sound(m.arena.T(), m.books)
    && Unplaced(m.arena.T(), m.doc)
  }

  ghost predicate Unplaced(t: Tree, doc: NodeId) {
    && doc < |t.nodes| && t.Kind(doc).Document? && t.Parent(doc) == None
    && (forall x :: 0 <= x < |t.nodes| ==> Loose(t, |t.nodes|, x))
  }

  lemma ListStarts(t: Tree, u: Tree, doc: NodeId, list: NodeId, d: Data, books: Books, notes: seq<Reference>,
                   view: seq<(nat, Option<NodeId>)>)
    requires t.Valid() && Unplaced(t, doc) && Sound(t, books) && NotesFit(t, books, notes, view)
    requires Markdown.Added(t, u, doc, list, NodeType.List) && EdgesOk(u) && u.nodes[list].data == NoData
    ensures var v := WithData(u, list, d);
            v.Valid() && EdgesOk(v) && SameLinks(u, v) && Listing(v, doc, list, []) && Sound(v, books)
                && NotesFit(v, books, notes, view)
            && ClimbsTo(v, list, NodeType.Item, list)
  {
    var v := WithData(u, list, d);
    DataGrows(t, u, doc, list, d);
    assert Same(t, v, doc);
    forall x | 0 <= x < |v.nodes| ensures Loose(v, list, x) && SoundNode(v, x, books) {
      if x < |t.nodes| {
        assert Same(t, v, x) && Loose(t, |t.nodes|, x) && SoundNode(t, x, books);
        LooseStays(t, v, list, x, books);
      } else {
        assert PlainNode(v.nodes[x]) && x !in books.lost;
      }
    }
    NotesKept(t, v, books, notes, view);
  }

  lemma LooseStays(t: Tree, v: Tree, list: NodeId, x: NodeId, books: Books)
    requires |t.nodes| <= |v.nodes| && |t.level| == |t.nodes| && |v.level| == |v.nodes| && x < |t.nodes|
    requires forall y :: 0 <= y < |t.nodes| ==> Same(t, v, y)
    requires t.Valid() && Loose(t, |t.nodes|, x) && SoundNode(t, x, books)
    ensures Loose(v, list, x)
  {
    assert Same(t, v, x);
    var l := t.nodes[x].data.link;
    if t.Kind(x).Link? && l.noteId != 0 {
      assert Same(t, v, l.footnote.value) && t.UpOk(l.footnote.value);
    }
  }

  /** The list is the document's last child, with nothing below it. */
  lemma ListBeside(t: Tree, u: Tree, base: nat, doc: NodeId, list: NodeId, d: Data)
    requires Settled(t, base) && doc < base && t.Kind(doc).Document?
    requires Markdown.Added(t, u, doc, list, NodeType.List) && EdgesOk(u)
    ensures Beside(t, WithData(u, list, d), base, doc, list) && Airy(WithData(u, list, d), list)
  {
    var v := WithData(u, list, d);
    SameLinksValid(u, v);
    forall x | 0 <= x < |t.nodes| ensures KeptNode(t, v, base, doc, x) { assert Same(t, u, x); }
    AiryStarts(t, v, base, doc, list);
  }

  /** Adds the list below the document. */
  method StartNotes(m: Markdown, ghost base: nat) returns (list: NodeId)
    requires Between(m) && Settled(m.arena.T(), base) && m.doc < base
    modifies m`tip, m`oldTip, m`allClosed, m.arena
    ensures Going(m, list, []) && m.arena.nodes[list].data.list.isFootnotesList
            && m.arena.nodes[list].data.list.flags.ordered
    ensures Beside(old(m.arena.T()), m.arena.T(), base, m.doc, list) && Airy(m.arena.T(), list)
  {
    hide Listing, Sound, NotesFit, Tree.Valid, EdgesOk, Unplaced, Markdown.Added, Settled, Beside, Airy;
    ghost var t, books, notes, view := m.arena.T(), m.books, m.notes, m.View();
    UnplacedParts(t, m.doc);
    m.tip := m.doc;
    list := m.AddBlock(NodeType.List, "", m.doc);
    var d := NoData.(list := NoData.list.(flags := NoListType.(ordered := true), isFootnotesList := true));
    ListStarts(t, m.arena.T(), m.doc, list, d, books, notes, view);
    ListBeside(t, m.arena.T(), base, m.doc, list, d);
    m.arena.SetData(list, d);
    assert m.View() == view;
    ListingParts(m.arena.T(), m.doc, list, []);
  }

  lemma UnplacedParts(t: Tree, doc: NodeId)
    requires Unplaced(t, doc)
    ensures doc < |t.nodes| && t.Kind(doc).Document?
  {
  }

  /** Closes the list and moves the insertion point above it. */
  method CloseList(m: Markdown, list: NodeId, ghost log: seq<NodeId>)
    requires Going(m, list, log)
    modifies m`tip, m.arena
    ensures Live(m) && m.nesting < m.maxNesting && list < |m.arena.nodes|
            && m.arena.T() == Closed(old(m.arena.T()), list)
    ensures Listing(m.arena.T(), m.doc, list, log) && Sound(m.arena.T(), m.books)
  {
    hide Listing, Sound, NotesFit, Tree.Valid, EdgesOk, ClimbsTo;
    ghost var t, view := m.arena.T(), m.View();
    ListingParts(t, m.doc, list, log);
    CloseKeeps(t, list, m.doc, log, m.books, m.notes, view);
    var above := m.arena.nodes[list].links.parent;
    m.arena.Close(list);
    if above.Some? { m.tip := above.value; }
    assert m.View() == view;
  }

  lemma CloseKeeps(t: Tree, list: NodeId, doc: NodeId, log: seq<NodeId>, books: Books, notes: seq<Reference>,
                   view: seq<(nat, Option<NodeId>)>)
    requires Listing(t, doc, list, log) && EdgesOk(t) && Sound(t, books) && NotesFit(t, books, notes, view)
    ensures var u := Closed(t, list);
            u.Valid() && EdgesOk(u) && SameLinks(t, u) && Listing(u, doc, list, log) && Sound(u, books)
                && NotesFit(u, books, notes, view)
  {
    var u := Closed(t, list);
    ClosedGrows(t, list);
    SoundSame(t, u, books);
    NotesSame(t, u, books, notes, view);
    forall x | 0 <= x < |u.nodes| ensures Loose(u, list, x) { assert Loose(t, list, x); }
  }

  /** Closing the list changes none of the bodies. */
  lemma BodiesClosed(t: Tree, list: NodeId)
    requires t.Valid() && list < |t.nodes|
    ensures Bodies(Closed(t, list), list) == Bodies(t, list)
  {
    var u := Closed(t, list);
    ClosedGrows(t, list);
    GW.EventsRelabelled(t, u, list);
    GW.TargetsRelabelled(t, u, Walk.Events(t, list, GW.Always()), false);
  }

  /** The walk over the closed list, seen from the tree before it was closed. */
  lemma WalkCloses(t: Tree, u: Tree, list: NodeId)
    requires t.Valid() && list < |t.nodes| && Walked(Closed(t, list), u, Bodies(t, list))
    requires forall x :: x in Bodies(t, list) ==> Filled(Closed(t, list), u, x)
    ensures ClosingWalk(t, u, list)
  {
    hide Bodies;
    var v := Closed(t, list);
    forall x | 0 <= x < |t.nodes| ensures OldNode(t, u, x, x in Bodies(t, list)) {
      assert OldNode(v, u, x, x in Bodies(t, list));
    }
    forall x | x in Bodies(t, list) ensures Filled(t, u, x) {
      var ps, tail :| IN.Laid(v, u, x, v.nodes[x].data.content, ps, tail);
      FilledOpen(t, u, list, x, ps, tail);
    }
    BodiesOnce(t, list);
  }

  lemma FilledOpen(t: Tree, u: Tree, list: NodeId, x: NodeId, ps: seq<IN.Piece>, tail: Option<NodeId>)
    requires t.Valid() && list < |t.nodes| && x < |t.nodes|
    requires IN.Laid(Closed(t, list), u, x, Closed(t, list).nodes[x].data.content, ps, tail)
    ensures Filled(t, u, x)
  {
    hide IN.Chained, IN.Texts, IN.Shown, IN.NodesOf;
    assert IN.Laid(t, u, x, t.nodes[x].data.content, ps, tail);
  }

  lemma BodiesOnce(t: Tree, list: NodeId)
    requires t.Valid() && list < |t.nodes|
    ensures NoDup(Bodies(t, list))
  {
    GW.TargetsOnce(t, list, false);
  }

  lemma WalkKeepsList(t: Tree, u: Tree, list: NodeId, b: Books, b': Books)
    requires t.Valid() && list < |t.nodes| && t.Kind(list).List? && Sound(t, b) && Entered(t, u, b, b')
    requires Walked(t, u, Bodies(t, list))
    ensures list < |u.kids| && u.kids[list] == t.kids[list] && Sound(u, b')
  {
    SoundWalked(t, u, Bodies(t, list), b, b');
    GW.TargetsIn(t, Walk.Events(t, list, GW.Always()), false, list);
    assert OldNode(t, u, list, list in Bodies(t, list));
  }

  /** The item that entry `k` shows is in the list. */
  ghost predicate IsListed(m: Markdown, list: NodeId, k: nat)
    reads m, m.arena, m.notes
  {
    && k < |m.notes| && list < |m.arena.kids|
    && m.View()[k].1.Some? && m.View()[k].1.value in m.arena.kids[list]
  }

  /** The footnotes whose item is listed are those whose number was given before the
      closing walk; so all of them are exactly when that walk queued nothing. */
  ghost predicate ListedFits(m: Markdown, list: NodeId, log: seq<NodeId>)
    reads m, m.arena, m.notes
  {
    && (forall k :: 0 <= k < |m.notes| ==> (IsListed(m, list, k) <==> m.View()[k].0 <= |log|))
    && ((forall k :: 0 <= k < |m.notes| ==> IsListed(m, list, k)) <==> |m.notes| == |log|)
  }

  lemma ListingFits(m: Markdown, t: Tree, b: Books, notes: seq<Reference>, view: seq<(nat, Option<NodeId>)>,
                    list: NodeId, log: seq<NodeId>)
    requires Live(m) && t.Valid() && list < |t.nodes| && t.kids[list] == Latest(log) && |log| == |notes|
    requires Sound(t, b) && NotesFit(t, b, notes, view) && Turned(t, b.links, notes, log)
    requires Walked(t, m.arena.T(), Bodies(t, list)) && Entered(t, m.arena.T(), b, m.books) && notes <= m.notes
    requires list < |m.arena.kids| && m.arena.kids[list] == Latest(log)
    ensures ListedFits(m, list, log)
  {
    LiveParts(m);
    hide Live, Sound, NotesFit, Turned, Walked, Entered, Bodies, Latest, Tree.Valid;
    forall k | 0 <= k < |m.notes| ensures IsListed(m, list, k) <==> m.View()[k].0 <= |log| {
      ListedIff(t, m.arena.T(), b, m.books, notes, m.notes, view, m.View(), list, log, k);
    }
    NumbersShown(m);
    if |m.notes| > |log| { assert !IsListed(m, list, |m.notes| - 1); }
  }

  lemma NumbersShown(m: Markdown)
    requires Live(m)
    ensures forall k :: 0 <= k < |m.notes| ==> k < m.View()[k].0 <= |m.notes|
  {
    forall k | 0 <= k < |m.notes| ensures k < m.View()[k].0 <= |m.notes| {
      assert NoteFits(m.arena.T(), m.books.links, m.notes, m.View(), k);
    }
  }

  lemma GoingParts(m: Markdown, list: NodeId, log: seq<NodeId>)
    requires Going(m, list, log)
    ensures m.arena.T().Valid() && list < |m.arena.nodes| && EdgesOk(m.arena.T()) && m.arena.T().Kind(list).List?
    ensures Live(m) && m.nesting < m.maxNesting && Sound(m.arena.T(), m.books) && m.arena.kids[list] == Latest(log)
    ensures NotesFit(m.arena.T(), m.books, m.notes, m.View())
  {
  }

  lemma BodiesWalked(m: Markdown, t: Tree, b: Books, n: seq<Reference>, list: NodeId)
    requires t.Valid() && list < |t.nodes|
    requires Progress(m, t, b, n, GW.Targets(t, Walk.Events(t, list, GW.Always()), false))
    ensures Live(m) && Walked(t, m.arena.T(), Bodies(t, list)) && Entered(t, m.arena.T(), b, m.books) && n <= m.notes
    ensures forall x :: x in Bodies(t, list) ==> Filled(t, m.arena.T(), x)
    ensures Bodies(t, list) == [] ==> m.notes == n
    ensures forall x :: x in Bodies(t, list) && Cites(m, t, x) ==> |m.notes| > |n|
  {
    hide Filled, Walked, Entered, Live, Cites;
    var done := GW.Targets(t, Walk.Events(t, list, GW.Always()), false);
    assert done == Bodies(t, list);
    forall x | x in done ensures Filled(t, m.arena.T(), x) && (Cites(m, t, x) ==> |m.notes| > |n|) {
      var k :| 0 <= k < |done| && done[k] == x;
    }
  }

  /** A body parsed as blocks holds a text that starts with a reference to a defined
      footnote. */
  ghost predicate Overlooks(m: Markdown, t: Tree, list: NodeId)
    reads m
  {
    exists x :: x in Bodies(t, list) && Cites(m, t, x)
  }

  /** Closes the list and inlines what the bodies left.  The queue may grow once more,
      and is not looked at again: a body whose text starts with a reference to a
      defined footnote does that. */
  method FinishNotes(m: Markdown, list: NodeId, ghost log: seq<NodeId>)
    requires Going(m, list, log) && |log| == |m.notes| && Turned(m.arena.T(), m.books.links, m.notes, log)
    modifies m, m.arena, m.handles
    ensures Live(m) && Sound(m.arena.T(), m.books) && old(m.notes) <= m.notes
    ensures m.nesting == old(m.nesting) && m.insideLink == old(m.insideLink)
    ensures list < |m.arena.kids| && m.arena.kids[list] == Latest(log)
    ensures ClosingWalk(old(m.arena.T()), m.arena.T(), list) && ListedFits(m, list, log)
    ensures Turned(m.arena.T(), m.books.links, m.notes, log)
    ensures old(Bodies(m.arena.T(), list)) == [] ==> |m.notes| == |log|
    ensures Overlooks(m, old(m.arena.T()), list) ==> |m.notes| > |log|
  {
    hide Going, Live, Listing, Sound, Entered, Walked, Tree.Valid, EdgesOk, Progress, Turned, Bodies, ListedFits,
         NotesFit, Cites, ClosingWalk, Latest;
    ghost var t, b, n, view := m.arena.T(), m.books, m.notes, m.View();
    GoingParts(m, list, log);
    CloseList(m, list, log);
    ClosedIsValid(t, list);
    InlineWalk(m, list, false);
    Finished(m, t, b, n, view, list, log);
  }

  /** What the walk over the closed list comes to. */
  lemma Finished(m: Markdown, t: Tree, b: Books, n: seq<Reference>, view: seq<(nat, Option<NodeId>)>, list: NodeId,
                 log: seq<NodeId>)
    requires t.Valid() && list < |t.nodes| && t.kids[list] == Latest(log) && |log| == |n|
    requires Sound(t, b) && NotesFit(t, b, n, view) && Turned(t, b.links, n, log)
    requires Closed(t, list).Valid()
    requires Progress(m, Closed(t, list), b, n,
                      GW.Targets(Closed(t, list), Walk.Events(Closed(t, list), list, GW.Always()), false))
    requires t.Kind(list).List?
    ensures Live(m) && Sound(m.arena.T(), m.books) && n <= m.notes
    ensures list < |m.arena.kids| && m.arena.kids[list] == Latest(log)
    ensures ClosingWalk(t, m.arena.T(), list) && ListedFits(m, list, log)
    ensures Turned(m.arena.T(), m.books.links, m.notes, log)
    ensures Bodies(t, list) == [] ==> |m.notes| == |log|
    ensures Overlooks(m, t, list) ==> |m.notes| > |log|
  {
    hide Live, Sound, Entered, Walked, Tree.Valid, Progress, Turned, Bodies, ListedFits, NotesFit, ClosingWalk, Latest,
         Cites, Filled, Closed;
    var v, u := Closed(t, list), m.arena.T();
    CloseParts(t, list, b, n, view, log);
    BodiesWalked(m, v, b, n, list);
    WalkKeepsList(v, u, list, b, m.books);
    ListingFits(m, v, b, n, view, list, log);
    WalkedOnward(v, u, b, m.books, list);
    TurnedKept(v, b, u, m.books, n, m.notes, log);
    WalkCloses(t, u, list);
    forall x | x in Bodies(t, list) && Cites(m, t, x) ensures Cites(m, v, x) { CitesClosed(m, t, list, x); }
  }

  lemma ClosedIsValid(t: Tree, list: NodeId)
    requires t.Valid() && list < |t.nodes|
    ensures Closed(t, list).Valid()
  {
    ClosedGrows(t, list);
  }

  lemma CitesClosed(m: Markdown, t: Tree, list: NodeId, x: NodeId)
    requires list < |t.nodes| && Cites(m, t, x)
    ensures Cites(m, Closed(t, list), x)
  {
  }

  lemma CloseParts(t: Tree, list: NodeId, b: Books, n: seq<Reference>, view: seq<(nat, Option<NodeId>)>,
                   log: seq<NodeId>)
    requires t.Valid() && list < |t.nodes| && Sound(t, b) && NotesFit(t, b, n, view) && Turned(t, b.links, n, log)
    ensures var v := Closed(t, list);
            v.Valid() && |v.nodes| == |t.nodes| && v.kids == t.kids && v.Kind(list) == t.Kind(list)
            && Sound(v, b) && NotesFit(v, b, n, view) && Turned(v, b.links, n, log)
            && Bodies(v, list) == Bodies(t, list)
  {
    ClosedGrows(t, list);
    SoundSame(t, Closed(t, list), b);
    NotesSame(t, Closed(t, list), b, n, view);
    TurnedKept(t, b, Closed(t, list), b, n, n, log);
    BodiesClosed(t, list);
  }

  /** What the footnotes of a document come to.  `t2` is the tree before, `ts` are the
      trees between the entries, and `log` the items they attached: the list is the last
      child of the document and holds them in the order of their latest turn; the rest of
      the document is as it was.  Once the queue was worked through, a last walk inlines
      the bodies that were parsed as blocks. */
  ghost predicate NotesDone(m: Markdown, t2: Tree, base: nat, list: NodeId, ts: seq<Tree>, log: seq<NodeId>,
                            finished: bool)
    reads m, m.arena, m.notes
  {
    && m.nesting <= m.maxNesting && Trace(m, ts, list, log, m.notes, m.maxNesting - m.nesting)
    && Beside(t2, ts[0], base, m.doc, list)
    && list < |m.arena.kids| && m.arena.kids[list] == Latest(log)
    && Turned(m.arena.T(), m.books.links, m.notes, log) && Beside(t2, m.arena.T(), base, m.doc, list)
    && (if finished then Closing(m, ts[|log|], list, log) else m.arena.T() == ts[|log|])
  }

  /** What the closing walk leaves. */
  ghost predicate Closing(m: Markdown, t: Tree, list: NodeId, log: seq<NodeId>)
    reads m, m.arena, m.notes
  {
    && ClosingWalk(t, m.arena.T(), list) && ListedFits(m, list, log)
    && (BlockFree(m.notes, |log|) ==> |m.notes| == |log|)
    && (Overlooks(m, t, list) ==> |m.notes| > |log|)
  }

  lemma NotesPause(m: Markdown, t2: Tree, base: nat, list: NodeId, ts: seq<Tree>, log: seq<NodeId>)
    requires m.nesting <= m.maxNesting && Trace(m, ts, list, log, m.notes, m.maxNesting - m.nesting)
    requires Beside(t2, ts[0], base, m.doc, list) && ts[|log|] == m.arena.T()
    requires Beside(t2, m.arena.T(), base, m.doc, list) && Turned(m.arena.T(), m.books.links, m.notes, log)
    requires list < |m.arena.kids| && m.arena.kids[list] == Latest(log)
    ensures NotesDone(m, t2, base, list, ts, log, false)
  {
  }

  /** The list is made and its entries are worked through. */
  method WorkNotes(m: Markdown, limit: nat, ghost base: nat)
    returns (done: bool, list: NodeId, ghost ts: seq<Tree>, ghost log: seq<NodeId>)
    requires Between(m) && Settled(m.arena.T(), base) && m.doc < base
    modifies m, m.arena, m.handles
    ensures Working(m, list, ts, log) && |ts| == |log| + 1 && ts[|log|] == m.arena.T()
    ensures Beside(old(m.arena.T()), ts[0], base, m.doc, list)
            && Beside(old(m.arena.T()), m.arena.T(), base, m.doc, list)
    ensures Live(m) && Sound(m.arena.T(), m.books) && NotesDone(m, old(m.arena.T()), base, list, ts, log, false)
    ensures |log| <= |m.notes| && (if done then |log| == |m.notes| else |log| == limit)
    ensures BlockFree(m.notes, |log|) ==> Bodies(m.arena.T(), list) == []
    ensures m.nesting == old(m.nesting) && m.insideLink == old(m.insideLink) && old(m.notes) <= m.notes
    ensures fresh(m.handles - old(m.handles))
  {
    hide Going, Stepped, Working, Trace, Turned, Live, NotesFit, Settled, Beside, Airy, Bodies, Sound, Unplaced,
         Tree.Valid, EdgesOk, BlockFree, NotesDone;
    ghost var t2 := m.arena.T();
    list := StartNotes(m, base);
    GoingParts(m, list, []);
    done, ts, log := NoteSteps(m, list, limit);
    WorkingParts(m, list, ts, log);
    GoingParts(m, list, log);
    TraceEnd(m, t2, ts, base, m.doc, list, log, m.notes, m.maxNesting - m.nesting);
    NotesPause(m, t2, base, list, ts, log);
  }

  lemma NotesEnd(m: Markdown, t2: Tree, base: nat, list: NodeId, ts: seq<Tree>, log: seq<NodeId>, t: Tree,
                 notes: seq<Reference>)
    requires m.nesting <= m.maxNesting && Trace(m, ts, list, log, notes, m.maxNesting - m.nesting) && ts[|log|] == t
    requires Settled(t2, base) && Beside(t2, ts[0], base, m.doc, list) && Beside(t2, t, base, m.doc, list)
    requires list < |m.arena.kids| && m.arena.kids[list] == Latest(log)
    requires notes <= m.notes && Turned(m.arena.T(), m.books.links, m.notes, log) && |log| == |notes|
    requires ClosingWalk(t, m.arena.T(), list) && ListedFits(m, list, log)
    requires BlockFree(notes, |log|) ==> Bodies(t, list) == []
    requires Bodies(t, list) == [] ==> |m.notes| == |log|
    requires Overlooks(m, t, list) ==> |m.notes| > |log|
    ensures NotesDone(m, t2, base, list, ts, log, true)
  {
    hide Settled, Beside, Turned, ClosingWalk, ListedFits, Bodies, Latest, Overlooks, TraceStep;
    BesideClosing(t2, t, m.arena.T(), base, m.doc, list);
    TraceLonger(m, ts, list, log, notes, m.notes, m.maxNesting - m.nesting);
  }

  /** The walk that follows once the queue was worked through. */
  method EndNotes(m: Markdown, list: NodeId, ghost t2: Tree, ghost base: nat, ghost ts: seq<Tree>,
                  ghost log: seq<NodeId>)
    requires Working(m, list, ts, log) && |log| == |m.notes| && |ts| == |log| + 1
    requires Settled(t2, base) && Beside(t2, ts[0], base, m.doc, list) && Beside(t2, m.arena.T(), base, m.doc, list)
    requires BlockFree(m.notes, |log|) ==> Bodies(m.arena.T(), list) == []
    modifies m, m.arena, m.handles
    ensures Live(m) && Sound(m.arena.T(), m.books) && m.nesting == old(m.nesting) && old(m.notes) <= m.notes
    ensures NotesDone(m, t2, base, list, ts, log, true)
  {
    hide Going, Working, Trace, Turned, Live, NotesFit, Settled, Beside, Bodies, Sound, Tree.Valid, EdgesOk, BlockFree,
         NotesDone, Overlooks, ListedFits, ClosingWalk, Latest;
    WorkingParts(m, list, ts, log);
    GoingParts(m, list, log);
    ghost var t, notes := m.arena.T(), m.notes;
    FinishNotes(m, list, log);
    NotesEnd(m, t2, base, list, ts, log, t, notes);
  }

  /** The footnotes of a document, if there are any: `done` says that the whole queue
      was worked through. */
  method ParseNotes(m: Markdown, limit: nat, ghost base: nat)
    returns (done: bool, ghost list: Option<NodeId>, ghost ts: seq<Tree>, ghost log: seq<NodeId>)
    requires Between(m) && Settled(m.arena.T(), base) && m.doc < base
    modifies m, m.arena, m.handles
    ensures Live(m) && Sound(m.arena.T(), m.books) && m.nesting == old(m.nesting) && old(m.notes) <= m.notes
    ensures list == None <==> !m.ext.footnotes || old(m.notes) == []
    ensures list == None ==> done && m.arena.T() == old(m.arena.T()) && m.books == old(m.books)
    ensures list.Some? ==> NotesDone(m, old(m.arena.T()), base, list.value, ts, log, done)
    ensures list.Some? && !done ==> |log| == limit
    ensures list.Some? && done ==> |old(m.notes)| <= |log| <= |m.notes|
  {
    if !m.ext.footnotes || m.notes == [] { return true, None, [], []; }
    hide *;
    ghost var t2 := m.arena.T();
    var id: NodeId;
    done, id, ts, log := WorkNotes(m, limit, base);
    list := Some(id);
    if done { EndNotes(m, id, t2, base, ts, log); }
  }
}
