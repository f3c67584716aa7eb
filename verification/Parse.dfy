/** The whole parse, and what a parsed document gives the renderer (src/markdown.rs). */
module Parse {
  import opened Bytes
  import opened Node
  import opened Growth
  import opened MD = Markdown
  import opened BlockLeaf
  import opened InlineTree
  import opened InlinePass
  import opened NoteTrace
  import opened ParsedTree
  import opened Outline
  import Block
  import BlockSpec
  import Contents
  import Esc
  import Footnotes
  import GW = GrowingWalk
  import HeadingIds
  import Html
  import Shape
  import Tags
  import Walk

  /** A parser nobody has used yet. */
  ghost predicate Unused(m: Markdown)
    reads m, m.arena, m.notes
  {
    && m.Valid() && m.maxNesting == MaxNesting && m.nesting == 0 && !m.insideLink
    && |m.arena.nodes| == 1 && m.doc == m.tip == 0
    && m.refs == map[] && m.handles == {} && m.notes == [] && m.books == NoBooks
  }

  method NewParser(ext: Extensions, uni: Unicode, names: MD.U.Names) returns (m: Markdown)
    ensures fresh(m) && fresh(m.arena) && Unused(m) && m.ext == ext && m.uni == uni && m.names == names
  {
    m := new Markdown(ext, uni, names);
  }

  // ----- the block phase -----

  /** What the block phase leaves: block nodes only, none of them deep, and nothing
      detached but tables that were given up. */
  ghost predicate BlockTree(t: Tree) {
    && t.Valid() && EdgesOk(t) && t.nodes != [] && t.Kind(0).Document? && t.Parent(0) == None
    && (forall x :: 0 <= x < |t.nodes| ==> t.level[x] <= 2 * MaxNesting + 2)
    && (forall x :: 1 <= x < |t.nodes| ==> BlockNode(t.nodes[x]) && (t.Parent(x) == None ==> t.Kind(x).Table?))
  }

  lemma BlockTreeGrown(t0: Tree, t: Tree)
    requires |t0.nodes| == 1 && t0.Kind(0).Document? && BlockGrown(t0, t, 0, 2 * MaxNesting + 2) && EdgesOk(t)
    ensures BlockTree(t)
  {
    assert t0.UpOk(0) && Same(t0, t, 0);
  }

  /** Trees that differ only in which blocks are open. */
  ghost predicate SameButOpen(t: Tree, u: Tree) {
    SameLinks(t, u) && forall x :: 0 <= x < |t.nodes| ==> u.nodes[x].data == t.nodes[x].data
  }

  lemma BlockTreeClosed(t: Tree, u: Tree)
    requires BlockTree(t) && SameButOpen(t, u)
    ensures BlockTree(u)
  {
    SameLinksValid(t, u);
  }

  /** Closes every block from the insertion point up to the root. */
  method CloseBlocks(m: Markdown)
    requires m.Valid()
    modifies m`tip, m.arena
    ensures m.Valid() && SameButOpen(old(m.arena.T()), m.arena.T())
  {
    ghost var t := m.arena.T();
    var tip: Option<NodeId> := Some(m.tip);
    while tip.Some?
      invariant m.Valid() && SameButOpen(t, m.arena.T()) && (tip.Some? ==> tip.value < |m.arena.nodes|)
      decreases if tip.Some? then t.level[tip.value] + 1 else 0
    {
      assert m.arena.T().UpOk(tip.value);
      ClosedGrows(m.arena.T(), tip.value);
      var above := m.arena.nodes[tip.value].links.parent;
      m.arena.Close(tip.value);
      if above.Some? { m.tip := above.value; }
      tip := above;
    }
  }

  lemma BlockTreeIsSound(t: Tree)
    requires BlockTree(t)
    ensures Sound(t, NoBooks) && NotesFit(t, NoBooks, [], [])
  {
    forall x | 0 <= x < |t.nodes| ensures SoundNode(t, x, NoBooks) {}
  }

  /** The document's children are `parts`, with all that is below them. */
  ghost predicate Outlined(t: Tree, parts: seq<Part>) {
    && 0 < |t.kids| && |t.kids[0]| == |parts|
    && forall k :: 0 <= k < |parts| ==> Shows(t, t.kids[0][k], parts[k])
  }

  /** A tree of one node has no children. */
  lemma GainedIsAll(t0: Tree, t: Tree, parts: seq<Part>)
    requires t0.Valid() && |t0.nodes| == 1 && Gains(t0, t, 0, parts)
    ensures Outlined(t, parts)
  {
    hide Shows;
    if t0.kids[0] != [] {
      t0.KidOf(0, t0.kids[0][0]);
      assert false;
    }
    forall k | 0 <= k < |parts| ensures Shows(t, t.kids[0][k], parts[k]) {
      assert t.kids[0][k] == t.kids[0][|t0.kids[0]| + k];
    }
  }

  lemma OutlineKept(t: Tree, u: Tree, parts: seq<Part>)
    requires Outlined(t, parts) && SameButOpen(t, u)
    ensures Outlined(u, parts)
  {
    forall k | 0 <= k < |parts| ensures Shows(u, u.kids[0][k], parts[k]) { ShowsSame(t, u, t.kids[0][k], parts[k]); }
  }

  /** Block structure first: every block of the input, then all of them closed.  The
      document holds exactly the nodes the text comes to. */
  method ParseBlocks(m: Markdown, input: bytes)
    requires Unused(m) && !m.ext.definitionLists && Terminated(input)
    modifies m, m.arena
    ensures Live(m) && BlockTree(m.arena.T()) && m.doc < |m.arena.nodes|
    ensures m.nesting == 0 && !m.insideLink && m.books == NoBooks && m.notes == [] && fresh(m.handles)
    ensures Outlined(m.arena.T(), BlockSpec.Parts(m, input, MaxNesting))
  {
    hide BlockGrown, BlockTree, SameButOpen, Tree.Valid, EdgesOk, Gains, Outlined, BlockSpec.Parts;
    ghost var t0 := m.arena.T();
    UnusedIsReady(m);
    Block.Block(m, input, m.doc);
    GainedIsAll(t0, m.arena.T(), BlockSpec.Parts(m, input, MaxNesting));
    BlockTreeGrown(t0, m.arena.T());
    ghost var t := m.arena.T();
    CloseBlocks(m);
    BlockTreeClosed(t, m.arena.T());
    OutlineKept(t, m.arena.T(), BlockSpec.Parts(m, input, MaxNesting));
    BlockTreeIsSound(m.arena.T());
    assert m.View() == [];
  }

  lemma UnusedIsReady(m: Markdown)
    requires Unused(m) && !m.ext.definitionLists
    ensures Ready(m, m.doc) && Block.BlockBound(m, m.doc) == 2 * MaxNesting + 2
    ensures Block.Room(m) == MaxNesting && m.arena.T().Valid()
  {
    assert m.arena.T().UpOk(0);
  }

  // ----- the document walk -----

  /** The targets of the document walk: each is inlined once, and holds its own text. */
  ghost predicate DocumentInlined(t1: Tree, t2: Tree) {
    && t1.Valid() && t1.nodes != []
    && Walked(t1, t2, GW.Targets(t1, Walk.Events(t1, 0, GW.Always()), true))
    && (forall x :: x in GW.Targets(t1, Walk.Events(t1, 0, GW.Always()), true) ==> Filled(t1, t2, x))
  }

  lemma WalkedIsBetween(t1: Tree, t2: Tree, done: seq<NodeId>, books: Books)
    requires BlockTree(t1) && Walked(t1, t2, done) && Entered(t1, t2, NoBooks, books)
    ensures Sound(t2, books) && Footnotes.Unplaced(t2, 0)
  {
    BlockTreeIsSound(t1);
    SoundWalked(t1, t2, done, NoBooks, books);
    assert OldNode(t1, t2, 0, 0 in done);
    forall x | 0 <= x < |t2.nodes| ensures Footnotes.Loose(t2, |t2.nodes|, x) {
      if x < |t1.nodes| {
        assert OldNode(t1, t2, x, x in done);
      } else {
        Footnotes.LooseInline(t1, t2, |t2.nodes|, NoBooks, books, x);
      }
    }
  }

  lemma WalkedSettles(t1: Tree, t2: Tree, done: seq<NodeId>)
    requires BlockTree(t1) && Walked(t1, t2, done)
    ensures Settled(t2, |t1.nodes|)
  {
    forall x | 0 <= x < |t1.nodes|
      ensures t2.Kind(x).Item? ==> t2.Parent(x).Some?
      ensures t2.Parent(x).Some? ==> t2.Parent(x).value < |t1.nodes|
    {
      assert OldNode(t1, t2, x, x in done);
      if t1.Parent(x).Some? { t1.ParentOf(x); }
    }
    forall x | |t1.nodes| <= x < |t2.nodes|
      ensures t2.Kind(x).IsInline() || (t2.Kind(x).Item? && t2.Parent(x) == None)
    {
      assert FitNode(t2.nodes[x]);
    }
  }

  lemma WalkEnds(m: Markdown, t1: Tree)
    requires BlockTree(t1) && m.doc == 0 && !m.ext.definitionLists
    requires Progress(m, t1, NoBooks, [], GW.Targets(t1, Walk.Events(t1, 0, GW.Always()), true))
    ensures DocumentInlined(t1, m.arena.T()) && Footnotes.Between(m) && Settled(m.arena.T(), |t1.nodes|)
    ensures !m.ext.footnotes ==> m.books == NoBooks && m.notes == []
  {
    hide GW.Targets, Walk.Events, Filled, Walked, Entered, NotesFit, Footnotes.Unplaced, Sound;
    var done := GW.Targets(t1, Walk.Events(t1, 0, GW.Always()), true);
    WalkedIsBetween(t1, m.arena.T(), done, m.books);
    WalkedSettles(t1, m.arena.T(), done);
    forall x | x in done ensures Filled(t1, m.arena.T(), x) {
      var k :| 0 <= k < |done| && done[k] == x;
    }
  }

  lemma BlockTreeParts(t: Tree)
    requires BlockTree(t)
    ensures t.Valid() && t.nodes != []
  {
  }

  lemma LiveParts(m: Markdown)
    requires Live(m)
    ensures m.arena.T().Valid() && EdgesOk(m.arena.T()) && Astray(m.arena.T(), m.books.lost) && m.doc < |m.arena.nodes|
  {
  }

  // ----- the parse -----

  /** The course of a parse: the tree after the block phase, the one after the document
      walk, and with footnotes the list, the trees between the queue entries and the
      items attached. */
  datatype Course = Course(t1: Tree, t2: Tree, list: Option<NodeId>, ts: seq<Tree>, log: seq<NodeId>)

  /** How the final tree `t` comes from the course: the document's blocks are those the
      input comes to; every paragraph, heading and cell of
      the document that is reached holds its own text, laid out in order; with footnotes
      the list is the document's last child and the rest is as the walk left it. */
  ghost predicate Tied(m: Markdown, input: bytes, t: Tree, c: Course)
    requires Terminated(input)
  {
    && Outlined(c.t1, BlockSpec.Parts(m, input, MaxNesting)) && BlockTree(c.t1) && DocumentInlined(c.t1, c.t2)
    && AllFilled(c.t1, t)
    && match c.list
       case None => t == c.t2
       case Some(list) =>
         && Beside(c.t2, t, |c.t1.nodes|, 0, list)
         && list < |t.kids| && t.kids[list] == Latest(c.log)
  }

  /** The footnotes of the course, if there are any. */
  ghost predicate Noted(m: Markdown, c: Course, finished: bool)
    reads m, m.arena, m.notes
  {
    match c.list
    case None => finished
    case Some(list) => Footnotes.NotesDone(m, c.t2, |c.t1.nodes|, list, c.ts, c.log, finished)
  }

  ghost predicate AllFilled(t1: Tree, t: Tree) {
    && t1.Valid() && t1.nodes != []
    && forall x :: x in GW.Targets(t1, Walk.Events(t1, 0, GW.Always()), true) ==> Filled(t1, t, x)
  }

  lemma FilledAfterNotes(t1: Tree, t2: Tree, t: Tree, list: NodeId)
    requires BlockTree(t1) && DocumentInlined(t1, t2) && Beside(t2, t, |t1.nodes|, 0, list)
    ensures AllFilled(t1, t)
  {
    hide Filled, Beside;
    var targets := GW.Targets(t1, Walk.Events(t1, 0, GW.Always()), true);
    GW.TargetsIn(t1, Walk.Events(t1, 0, GW.Always()), true, 0);
    forall x | x in targets ensures Filled(t1, t, x) {
      FilledIsOld(t1, t2, x);
      FilledBeside(t1, t2, t, |t1.nodes|, 0, list, x);
    }
  }

  lemma FilledIsOld(t1: Tree, t2: Tree, x: NodeId)
    requires Filled(t1, t2, x)
    ensures x < |t1.nodes|
  {
  }

  lemma ParseEnds(m: Markdown, input: bytes, c: Course, finished: bool)
    requires Terminated(input) && Outlined(c.t1, BlockSpec.Parts(m, input, MaxNesting))
    requires BlockTree(c.t1) && DocumentInlined(c.t1, c.t2) && m.doc == 0 && Noted(m, c, finished)
    requires c.list == None ==> m.arena.T() == c.t2
    ensures Tied(m, input, m.arena.T(), c)
  {
    hide BlockSpec.Parts, Outlined;
    if c.list.Some? { FilledAfterNotes(c.t1, c.t2, m.arena.T(), c.list.value); }
  }

  lemma NotedIs(m: Markdown, c: Course, finished: bool)
    requires match c.list
             case None => finished
             case Some(list) => Footnotes.NotesDone(m, c.t2, |c.t1.nodes|, list, c.ts, c.log, finished)
    ensures Noted(m, c, finished)
  {
  }

  /** Parses `input`; footnotes are worked through until the queue is empty or `limit`
      entries were done.  The headings always suit the renderer, and the whole tree does
      exactly when no footnote mark was given an empty target or the flags skip such
      links. */
  method Parse(m: Markdown, input: bytes, limit: nat) returns (finished: bool, ghost c: Course)
    requires Unused(m) && !m.ext.definitionLists && Terminated(input)
    modifies m, m.arena
    ensures Live(m) && Sound(m.arena.T(), m.books) && m.doc < |m.arena.nodes|
    ensures Tied(m, input, m.arena.T(), c) && Noted(m, c, finished)
    ensures Contents.HeadingsShaped(m.arena.T()) && Shape.ParserShaped(m.arena.T())
    ensures forall p: Shape.Params ::
              Shape.Renderable(p, m.arena.T()) <==> m.books.lost == [] || p.flags.skipLinks || p.flags.safelink
    ensures !m.ext.footnotes ==> finished && c.list == None && m.books == NoBooks
  {
    hide Live, Sound, BlockTree, DocumentInlined, Tree.Valid, EdgesOk, Progress, Entered, Walked, Settled, Tied,
         Outlined, BlockSpec.Parts, Noted, Footnotes.Unplaced, Footnotes.Between, Footnotes.NotesDone,
         Shape.Renderable;
    ParseBlocks(m, input);
    ghost var t1 := m.arena.T();
    BlockTreeParts(t1);
    InlineWalk(m, m.doc, true);
    ghost var t2 := m.arena.T();
    WalkEnds(m, t1);
    ghost var list, ts, log;
    finished, list, ts, log := Footnotes.ParseNotes(m, limit, |t1.nodes|);
    c := Course(t1, t2, list, ts, log);
    NotedIs(m, c, finished);
    ParseEnds(m, input, c, finished);
    LiveParts(m);
    SoundIsShaped(m.arena.T(), m.books);
    forall p: Shape.Params { SoundIsRenderable(p, m.arena.T(), m.books); }
  }

  // ----- parse, then render -----

  /** What a rendering is: the recursive markup of the tree, well nested, its heading ids
      granted in the order of the tree's requests from an empty table, so distinct. */
  ghost predicate Rendering(p: Shape.Params, t: Tree, root: NodeId, out: seq<Tags.Token>) {
    && t.Valid() && root < |t.nodes|
    && Tags.Blanked(out) == Shape.TreeShape(p, t, root) && Tags.Run([], out) == Some([]) && Html.Clean(p, out)
    && var requests := Html.TreeRequests(p, t, root);
    && Tags.IdsOf(out) == HeadingIds.Grant(map[], requests).0
    && HeadingIds.Granted(map[], requests, Tags.IdsOf(out), HeadingIds.Grant(map[], requests).1)
  }

  /** Whatever tree it is of: well nested, clean, and no two heading ids alike. */
  ghost predicate WellWritten(p: Shape.Params, out: seq<Tags.Token>) {
    && Tags.Run([], out) == Some([]) && Html.Clean(p, out)
    && forall i, j :: 0 <= i < j < |Tags.IdsOf(out)| ==> Tags.IdsOf(out)[i] != Tags.IdsOf(out)[j]
  }

  lemma RenderingIsWell(p: Shape.Params, t: Tree, root: NodeId, out: seq<Tags.Token>)
    requires Rendering(p, t, root, out)
    ensures WellWritten(p, out)
  {
    hide Tags.Run, Html.Clean, HeadingIds.Grant, Html.TreeRequests, Shape.TreeShape, Tags.Blanked, Tags.IdsOf;
  }

  lemma NumberedIsWell(p: Shape.Params, body: seq<Tags.Token>, n: nat)
    requires Tags.Run([], body) == Some([]) && Html.Clean(p, body) && Tags.IdsOf(body) == Contents.TocIds(n)
    ensures WellWritten(p, body)
  {
    hide Tags.Run, Html.Clean, Contents.TocIds, Tags.IdsOf;
    Contents.TocIdsDistinct(n);
    Contents.TocIdsSize(n);
  }

  /** The flags never send a link without destination to the renderer's byte test. */
  predicate Suits(ext: Extensions, p: Shape.Params) {
    !ext.definitionLists && (ext.footnotes ==> p.flags.skipLinks || p.flags.safelink)
  }

  lemma RenderableIsValid(p: Shape.Params, t: Tree)
    requires Shape.Renderable(p, t)
    ensures t.Valid()
  {
  }

  /** Renders a tree the renderer can take, from a renderer nobody has used yet. */
  method RenderTree(m: Markdown, p: Shape.Params) returns (out: seq<Tags.Token>)
    requires m.arena.Valid() && m.doc < |m.arena.nodes| && Shape.Renderable(p, m.arena.T())
             && Esc.EntitiesShaped(p.ents)
    ensures Rendering(p, m.arena.T(), m.doc, out)
  {
    hide Tags.Run, Tags.Blanked, Tags.IdsOf, Html.Clean, Html.TreeRequests, HeadingIds.Granted, HeadingIds.Grant,
         Shape.TreeShape, Shape.Renderable, Tree.Valid;
    var r := new Html.HtmlRenderer(p);
    ghost var t := m.arena.T();
    RenderableIsValid(p, t);
    HeadingIds.GrantDistinct(map[], Html.TreeRequests(p, t, m.doc));
    out := r.Render(m.arena, m.doc);
  }

  /** The whole conversion, for every terminated input.  Footnotes may be on if the flags
      suit them; without them `finished` is always true. */
  method Convert(ext: Extensions, uni: Unicode, names: MD.U.Names, p: Shape.Params, input: bytes, limit: nat)
    returns (finished: bool, out: seq<Tags.Token>, ghost m: Markdown, ghost t: Tree, ghost c: Course)
    requires Suits(ext, p) && Terminated(input) && Esc.EntitiesShaped(p.ents)
    ensures m.ext == ext && m.uni == uni && m.names == names && Tied(m, input, t, c)
    ensures t == m.arena.T() && Noted(m, c, finished) && (!ext.footnotes ==> finished && c.list == None)
    ensures finished ==> Rendering(p, t, 0, out)
    ensures finished ==> WellWritten(p, out)
  {
    hide Live, Sound, Tied, Rendering, WellWritten, Noted, Shape.Renderable, Shape.ParserShaped,
         Contents.HeadingsShaped;
    var parser := NewParser(ext, uni, names);
    finished, c := Parse(parser, input, limit);
    m, t, out := parser, parser.arena.T(), [];
    Fits(parser, p, t);
    if finished {
      out := RenderTree(parser, p);
      RenderingIsWell(p, t, 0, out);
    }
  }

  lemma Fits(m: Markdown, p: Shape.Params, t: Tree)
    requires Suits(m.ext, p) && Live(m) && (!m.ext.footnotes ==> m.books == NoBooks)
    requires Shape.Renderable(p, t) <==> m.books.lost == [] || p.flags.skipLinks || p.flags.safelink
    ensures Shape.Renderable(p, t) && m.arena.Valid()
  {
  }

  /** The same with a table of contents: both parts are well nested, the table lists the
      headings of the parsed tree in order, and the heading ids of the body are the ones
      the table links to. */
  method ConvertWithToc(ext: Extensions, uni: Unicode, names: MD.U.Names, p: Shape.Params, input: bytes, limit: nat)
    returns (finished: bool, toc: seq<Tags.Token>, body: seq<Tags.Token>, ghost m: Markdown, ghost t: Tree,
             ghost u: Tree, ghost c: Course, ghost es: seq<Tags.Entry>, ghost hs: seq<NodeId>)
    requires Suits(ext, p) && Terminated(input) && Esc.EntitiesShaped(p.ents)
    ensures m.ext == ext && m.uni == uni && m.names == names && Tied(m, input, t, c)
    ensures !ext.footnotes ==> finished && c.list == None
    ensures finished ==>
              && Contents.Entries(p, t, 0, es, hs) && Tags.Blanked(toc) == Contents.Nav(es)
              && Contents.Renumbered(t, u, hs) && u.Valid() && 0 < |u.nodes|
              && Tags.Blanked(body) == Shape.TreeShape(p, u, 0) && Tags.IdsOf(body) == Contents.TocIds(|es|)
    ensures finished ==> Tags.Run([], toc) == Some([]) && WellWritten(p, body)
  {
    hide Live, Sound, Tied, Noted, WellWritten, Tags.Run, Tags.Blanked, Tags.IdsOf, Html.Clean, Shape.TreeShape,
         Shape.Renderable, Shape.ParserShaped, Contents.HeadingsShaped, Contents.Nav, Contents.Entries, Contents.TocIds,
         Contents.Renumbered;
    var parser := NewParser(ext, uni, names);
    finished, c := Parse(parser, input, limit);
    m, t, u := parser, parser.arena.T(), parser.arena.T();
    toc, body, es, hs := [], [], [], [];
    Fits(parser, p, t);
    if finished {
      var r := new Html.HtmlRenderer(p);
      toc, body, es, hs := Contents.RenderWithToc(r, parser.arena, parser.doc);
      u := parser.arena.T();
      NumberedIsWell(p, body, |es|);
    }
  }
}
