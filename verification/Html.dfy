/** The renderer and its state (src/html.rs). */
module Html {
  import opened Bytes
  import opened Node
  import opened Growth
  import opened Shape
  import opened Tags
  import A = Arena
  import Esc
  import HeadingIds
  import Slug
  import Smartypants
  import Unescape
  import Walk

  // ----- what the text of a node becomes -----

  /** Text that cannot end an attribute value, and cannot open a tag; with smart
      punctuation on, the tags of fractions are the only exception. */
  ghost predicate CleanChars(p: Params, s: bytes) {
    if p.flags.smartypants then Smartypants.Tidy(s) else Esc.RawFree(s)
  }

  lemma CleanText(p: Params, s: bytes)
    requires Esc.RawFree(s)
    ensures CleanChars(p, s)
  {
    Smartypants.RawFreeIsTidy(s);
  }

  ghost predicate Clean(p: Params, ts: seq<Token>) {
    forall k :: 0 <= k < |ts| && ts[k].Chars? ==> CleanChars(p, ts[k].text)
  }

  lemma CleanConcat(p: Params, a: seq<Token>, b: seq<Token>)
    requires Clean(p, a) && Clean(p, b)
    ensures Clean(p, a + b)
  {
  }

  /** The text written for a node when smart punctuation is off; code never gets it. */
  predicate ExactText(p: Params, ns: seq<Node>, x: NodeId, ts: seq<Token>)
    requires x < |ns|
  {
    var d := ns[x].data;
    match ns[x].kind
    case Text =>
      p.flags.smartypants
      || ts == [Chars(if KindAt(ns, ns[x].links.parent) == Some(Link) then EscapedLink(p, d.literal)
                      else Esc.Escape(p.ents, d.literal, false))]
    case Code => |ts| == 3 && ts[1] == Chars(Esc.Escape(p.ents, d.literal, true))
    case CodeBlock => |ts| == 5 && ts[2] == Chars(Esc.Escape(p.ents, d.literal, true))
    case Link => |ts| == 5 ==> ts[2] == Chars(HeadingIds.Decimal(d.link.noteId))
    case _ => true
  }

  // ----- suppressed tags -----

  /** How a visit changes the count of images being written. */
  function DisableDelta(p: Params, ns: seq<Node>, v: Walk.Visit): int
    requires v.0 < |ns|
  {
    if ns[v.0].kind.Image? && !p.flags.skipImages then (if v.1 then 1 else -1) else 0
  }

  /** How many images are being written at a visit of a parser-shaped tree. */
  function DisableAt(ns: seq<Node>, root: NodeId, v: Walk.Visit): int
    requires v.0 < |ns|
  {
    if v.1 then (if v.0 != root && KindAt(ns, ns[v.0].links.parent) == Some(Image) then 1 else 0)
    else (if ns[v.0].kind.Image? then 1 else 0)
  }

  /** Tags can be written at every visit but that of text: image descendants are
      text only, so the stripping of suppressed tags is never needed. */
  predicate MayWrite(p: Params, ns: seq<Node>, v: Walk.Visit, disableTags: int)
    requires v.0 < |ns|
  {
    ns[v.0].kind.Text? || disableTags == (if ns[v.0].kind.Image? && !v.1 then 1 else 0)
  }

  function DisableFor(ns: seq<Node>, root: NodeId, c: Walk.Cursor): int {
    if c.current.Some? && c.current.value < |ns| then DisableAt(ns, root, (c.current.value, c.entering)) else 0
  }

  /** Only containers are left, and skipped images are not entered. */
  ghost predicate Sane(p: Params, t: Tree, root: NodeId, c: Walk.Cursor) {
    c.current.Some? ==>
      && c.current.value < |t.nodes|
      && (!c.entering ==> t.Kind(c.current.value).IsContainer())
      && (p.flags.skipImages ==> DisableFor(t.nodes, root, c) == 0)
  }

  /** Children of images are text. */
  lemma UnderImage(t: Tree, x: NodeId, q: NodeId)
    requires t.Valid() && EdgesOk(t) && x < |t.nodes| && t.Parent(x) == Some(q)
    ensures q < |t.nodes| && (t.Kind(q).Image? ==> t.Kind(x).Text?) && t.Kind(q).IsContainer()
  {
  }

  lemma SaneMayWrite(p: Params, t: Tree, root: NodeId, c: Walk.Cursor, disableTags: int)
    requires Renderable(p, t) && Sane(p, t, root, c) && c.current.Some?
    requires disableTags == DisableFor(t.nodes, root, c)
    ensures MayWrite(p, t.nodes, (c.current.value, c.entering), disableTags)
    ensures Followable(p.flags, t.nodes[c.current.value])
  {
    var x := c.current.value;
    if t.Parent(x).Some? { UnderImage(t, x, t.Parent(x).value); }
  }

  /** The counter of suppressed tags always equals what the cursor's place says, so
      it ends at zero. */
  lemma DisableStep(p: Params, t: Tree, root: NodeId, c: Walk.Cursor)
    requires Renderable(p, t) && Walk.OnTree(t, root, c) && root < |t.nodes| && Sane(p, t, root, c) && c.current.Some?
    ensures var v := (c.current.value, c.entering);
            var d := Walk.AdvanceCursor(t.nodes, root, c, Status(p, t.nodes, v));
            Sane(p, t, root, d)
            && DisableFor(t.nodes, root, d) == DisableFor(t.nodes, root, c) + DisableDelta(p, t.nodes, v)
  {
    var x := c.current.value;
    var status := Status(p, t.nodes, (x, c.entering));
    var d := Walk.AdvanceCursor(t.nodes, root, c, status);
    var m := Walk.Moves(t, root, c, status);
    hide Walk.AdvanceCursor, Walk.OnTree;
    if t.Parent(x).Some? { UnderImage(t, x, t.Parent(x).value); }
    if d.current.Some? && t.Parent(d.current.value).Some? { UnderImage(t, d.current.value,
        t.Parent(d.current.value).value); }
  }

  /** The heading id a visit asks for. */
  function Request(ns: seq<Node>, v: Walk.Visit): seq<bytes>
    requires v.0 < |ns|
  {
    if ns[v.0].kind.Heading? && v.1 && ns[v.0].data.heading.id != [] then [ns[v.0].data.heading.id] else []
  }

  ghost function Requests(t: Tree, events: seq<Walk.Visit>): seq<bytes>
    requires OnNodes(t, events)
  {
    if events == [] then []
    else Requests(t, events[..|events| - 1]) + Request(t.nodes, events[|events| - 1])
  }

  // ----- escaping into an empty buffer -----

  method Escaped(p: Params, s: bytes) returns (out: bytes)
    requires Esc.EntitiesShaped(p.ents)
    ensures out == Esc.Escape(p.ents, s, false) && Esc.RawFree(out)
  {
    Esc.EscapeIsRawFree(p.ents, s, false);
    out := Esc.EscapeHtml(p.ents, "", s);
    assert "" + Esc.Escape(p.ents, s, false) == Esc.Escape(p.ents, s, false);
  }

  method EscapedAll(p: Params, s: bytes) returns (out: bytes)
    requires Esc.EntitiesShaped(p.ents)
    ensures out == Esc.Escape(p.ents, s, true) && Esc.RawFree(out)
  {
    Esc.EscapeIsRawFree(p.ents, s, true);
    out := Esc.EscapeAllHtml(p.ents, "", s);
    assert "" + Esc.Escape(p.ents, s, true) == Esc.Escape(p.ents, s, true);
  }

  method EscapedDest(p: Params, s: bytes) returns (out: bytes)
    requires Esc.EntitiesShaped(p.ents)
    ensures out == EscapedLink(p, s) && Esc.RawFree(out)
  {
    Esc.EscapeIsRawFree(p.ents, Unescape.UnescapeText(p.names, s), false);
    out := Esc.EscLink(p.ents, p.names, "", s);
    assert "" + EscapedLink(p, s) == EscapedLink(p, s);
  }

  class HtmlRenderer {
    const p: Params
    const sr: Smartypants.SpRenderer
    var headingIds: HeadingIds.Ids
    var disableTags: int

    constructor (p: Params)
      ensures this.p == p && headingIds == map[] && disableTags == 0 && fresh(sr)
    {
      this.p, headingIds, disableTags := p, map[], 0;
      sr := new Smartypants.SpRenderer(p.flags.smart);
    }

    /** Makes an id unique in this rendering. */
    method EnsureUniqueHeadingId(request: bytes) returns (id: bytes)
      modifies this`headingIds
      ensures (id, headingIds) == HeadingIds.UniqueId(old(headingIds), request)
    {
      id := request;
      while id in headingIds
        invariant HeadingIds.UniqueId(old(headingIds), request) == HeadingIds.UniqueId(headingIds, id)
                  || (id !in headingIds
                      && HeadingIds.UniqueId(old(headingIds), request) == (id, headingIds[id := 0]))
        decreases HeadingIds.Ahead(headingIds, id)
      {
        var count := headingIds[id];
        var tmp := HeadingIds.Numbered(id, count + 1);
        if tmp !in headingIds {
          ghost var before := headingIds;
          HeadingIds.SearchShrinks(headingIds, id, tmp);
          headingIds := headingIds[id := count + 1];
          assert HeadingIds.Ahead(headingIds, tmp) == HeadingIds.Ahead(before, tmp);
          id := tmp;
        } else {
          HeadingIds.SearchShrinks(headingIds, id, id + "-1");
          id := id + "-1";
        }
      }
      headingIds := headingIds[id := 0];
    }

    // ----- one node -----

    /** Text: escaped, then handed to smart punctuation if that is on. */
    method RenderText(arena: A.Arena, node: NodeId) returns (ts: seq<Token>)
      requires node < |arena.nodes| && arena.nodes[node].kind.Text? && Esc.EntitiesShaped(p.ents)
      modifies sr
      ensures Blanked(ts) == [Chars("")] && Clean(p, ts) && ExactText(p, arena.nodes, node, ts)
    {
      var literal := arena.nodes[node].data.literal;
      var out;
      if p.flags.smartypants {
        var tmp := Escaped(p, literal);
        ghost var tokens;
        out, tokens := sr.Process("", tmp);
        SmartIsTidy(tokens, out);
      } else if KindAt(arena.nodes, arena.nodes[node].links.parent) == Some(Link) {
        out := EscapedDest(p, literal);
      } else {
        out := Escaped(p, literal);
      }
      ts := [Chars(out)];
    }

    /** Code text is escaped in full and never gets smart punctuation. */
    method CodeText(literal: bytes) returns (out: bytes)
      requires Esc.EntitiesShaped(p.ents)
      ensures out == Esc.Escape(p.ents, literal, true) && CleanChars(p, out)
    {
      out := EscapedAll(p, literal);
      CleanText(p, out);
    }

    method RenderLink(d: LinkData, entering: bool) returns (ts: seq<Token>)
      requires Esc.EntitiesShaped(p.ents)
      requires d.noteId == 0 && !NeedSkipLink(p.flags, d.destination) ==> d.destination != []
      ensures |ts| == 5 ==> ts[2] == Chars(HeadingIds.Decimal(d.noteId))
      ensures Clean(p, ts)
      ensures Blanked(ts) == if NeedSkipLink(p.flags, d.destination) then Ends(entering, "tt")
                             else if d.noteId != 0 then (if entering then FootnoteRef(p, d) else [])
                             else if entering then [Open("a", LinkAttrs(p, d))] else [Close("a")]
    {
      EndsBlank(entering, "tt");
      if NeedSkipLink(p.flags, d.destination) { return Ends(entering, "tt"); }
      if entering {
        if d.noteId != 0 {
          DecimalIsClean(p, d.noteId);
          ts := FootnoteRef(p, d)[2 := Chars(HeadingIds.Decimal(d.noteId))];
          FootnoteBlanks(p, d, ts);
          return;
        }
        var dest := AddAbsPrefix(p, d.destination);
        var href := EscapedDest(p, dest);
        var attrs := [Attr("href", href)] + LinkPolicy(p.flags, dest);
        if d.title.Some? && d.title.value != [] {
          var title := Escaped(p, d.title.value);
          attrs := attrs + [Attr("title", title)];
        }
        ts := [Open("a", attrs)];
        PlainAttrs(p, d, attrs);
      } else if d.noteId == 0 {
        ts := [Close("a")];
      } else {
        ts := [];
      }
    }

    /** An image's start and end; tags stay suppressed in between. */
    method RenderImage(d: LinkData, entering: bool) returns (ts: seq<Token>)
      requires Esc.EntitiesShaped(p.ents) && disableTags == (if entering then 0 else 1)
      modifies this`disableTags
      ensures disableTags == if entering then 1 else 0
      ensures ts == if entering then [ImgOpen(EscapedLink(p, AddAbsPrefix(p, d.destination)))]
                    else [ImgClose(if d.title.Some? then Some(Esc.Escape(p.ents, d.title.value, false)) else None)]
    {
      ts := [];
      if entering {
        var dest := AddAbsPrefix(p, d.destination);
        if disableTags == 0 {
          var src := EscapedDest(p, dest);
          ts := [ImgOpen(src)];
        }
        disableTags := disableTags + 1;
      } else {
        disableTags := disableTags - 1;
        if disableTags == 0 {
          var title: Option<bytes> := None;
          if d.title.Some? {
            var escaped := Escaped(p, d.title.value);
            title := Some(escaped);
          }
          ts := [ImgClose(title)];
        }
      }
    }

    /** A heading's tags; a wanted id is made unique first. */
    method RenderHeading(h: HeadingData, entering: bool) returns (ts: seq<Token>)
      modifies this`headingIds
      ensures Blanked(ts) == HeadingShape(p, h, entering) && Clean(p, ts)
      ensures var wanted := if entering && h.id != [] then [h.id] else [];
              (IdsOf(ts), headingIds) == HeadingIds.Grant(old(headingIds), wanted)
    {
      GrantNothing(headingIds);
      GrantOne(headingIds, h.id);
      hide HeadingIds.Grant, HeadingIds.UniqueId, IdsOf, TokenIds;
      var tag := HeadingTag(p.headingLevelOffset + h.level);
      if !entering {
        ts := [Close(tag)];
        IdsOfOne(ts[0]);
        return;
      }
      var attrs: seq<Attr> := if h.isTitleblock then [Attr("class", "title")] else [];
      if h.id != [] {
        var unique := EnsureUniqueHeadingId(h.id);
        attrs := attrs + [HeadingId(unique)];
      }
      ts := [Open(tag, attrs)];
      IdsOfOne(ts[0]);
      assert Blank(ts[0]).attrs == HeadingShape(p, h, true)[0].attrs;
    }

    /** One visit of one node.  Tags are never suppressed where one would be written,
        so `out` only ever appends. */
    method RenderNode(arena: A.Arena, node: NodeId, entering: bool) returns (ts: seq<Token>, status: Walk.WalkStatus)
      requires node < |arena.nodes| && Esc.EntitiesShaped(p.ents)
      requires MayWrite(p, arena.nodes, (node, entering), disableTags)
      requires Followable(p.flags, arena.nodes[node])
      modifies this`headingIds, this`disableTags, sr
      ensures Blanked(ts) == VisitShape(p, arena.nodes, (node, entering))
      ensures status == Status(p, arena.nodes, (node, entering))
      ensures disableTags == old(disableTags) + DisableDelta(p, arena.nodes, (node, entering))
      ensures (IdsOf(ts), headingIds) == HeadingIds.Grant(old(headingIds), Request(arena.nodes, (node, entering)))
      ensures Clean(p, ts) && ExactText(p, arena.nodes, node, ts)
    {
      hide HeadingIds.Grant, IdsOf, Blanked, Esc.Escape, NeedSkipLink, FootnoteRef, LinkAttrs, CleanChars, EscapedLink;
      var d := arena.nodes[node].data;
      var kind := arena.nodes[node].kind;
      status := Walk.GoToNext;
      if kind.Image? && p.flags.skipImages {
        ts, status := [], Walk.SkipChildren;
        BlankedNone();
      } else if kind.Image? {
        ts := RenderImage(d.link, entering);
        BlankedImage(ts[0]);
      } else if kind.Heading? {
        ts := RenderHeading(d.heading, entering);
      } else if kind.Text? {
        ts := RenderText(arena, node);
      } else if kind.Link? {
        ts := RenderLink(d.link, entering);
      } else if kind.Code? || kind.CodeBlock? {
        ts := RenderCode(kind.CodeBlock?, d);
      } else {
        ts := RenderPlain(arena, node, entering);
        PlainBlank(p, arena.nodes, (node, entering));
      }
      if !kind.Heading? {
        NoIdsElsewhere(p, arena.nodes, (node, entering), ts);
        GrantNothing(headingIds);
      }
    }

    method RenderCode(block: bool, d: Data) returns (ts: seq<Token>)
      requires Esc.EntitiesShaped(p.ents)
      ensures Clean(p, ts)
      ensures block ==> |ts| == 5 && ts[2] == Chars(Esc.Escape(p.ents, d.literal, true))
      ensures !block ==> |ts| == 3 && ts[1] == Chars(Esc.Escape(p.ents, d.literal, true))
      ensures Blanked(ts)
           == if block then [Open("pre", []), Open("code", LanguageAttr(d.codeBlock.info)), Chars(""), Close("code"),
               Close("pre")]
              else [Open("code", []), Chars(""), Close("code")]
    {
      var text := CodeText(d.literal);
      if block {
        var attrs := LanguageAttr(d.codeBlock.info);
        ts := [Open("pre", []), Open("code", attrs), Chars(text), Close("code"), Close("pre")];
        assert Blank(ts[0]).attrs == [] && Blank(ts[1]).attrs == attrs;
      } else {
        ts := [Open("code", []), Chars(text), Close("code")];
        assert Blank(ts[0]).attrs == [];
      }
    }

    /** The nodes whose tags depend on nothing but the node. */
    method RenderPlain(arena: A.Arena, node: NodeId, entering: bool) returns (ts: seq<Token>)
      requires node < |arena.nodes| && Plain(arena.nodes[node].kind)
      ensures ts == VisitShape(p, arena.nodes, (node, entering))
    {
      hide SkipParagraph;
      var d, kind := arena.nodes[node].data, arena.nodes[node].kind;
      ts := [];
      if kind.List? {
        ts := RenderList(d.list, entering);
      } else if kind.Item? {
        ts := RenderItem(d.list, entering);
      } else if kind.TableCell? {
        var tag := if d.cell.isHeader then "th" else "td";
        ts := if entering then [Open(tag, Alignment(d.cell.align))] else [Close(tag)];
      } else if kind.HTMLSpan? || kind.HTMLBlock? {
        if !p.flags.skipHtml { ts := [Raw(d.literal)]; }
      } else if kind.Paragraph? {
        if !SkipParagraph(arena.nodes, node) { ts := Ends(entering, "p"); }
      } else if kind.Hardbreak? || kind.HorizontalRule? {
        ts := [Void(if kind.Hardbreak? then "br" else "hr")];
      } else if SimpleTag(kind) != "" {
        ts := Ends(entering, SimpleTag(kind));
      }
    }

    method RenderList(d: ListData, entering: bool) returns (ts: seq<Token>)
      ensures ts == if entering then
                      (if d.isFootnotesList then [Open("div", [Attr("class", "footnotes")]), Void("hr")] else [])
                      + [Open(ListTag(d.flags), [])]
                    else [Close(ListTag(d.flags))] + (if d.isFootnotesList then [Close("div")] else [])
    {
      var tag := ListTag(d.flags);
      if entering {
        ts := [];
        if d.isFootnotesList { ts := [Open("div", [Attr("class", "footnotes")]), Void("hr")]; }
        ts := ts + [Open(tag, [])];
      } else {
        ts := [Close(tag)];
        if d.isFootnotesList { ts := ts + [Close("div")]; }
      }
    }

    /** Renders the subtree at `root`: exactly what its recursive traversal calls for,
        well nested, with heading ids in request order and no tag left suppressed. */
    method Render(arena: A.Arena, root: NodeId) returns (out: seq<Token>)
      requires Renderable(p, arena.T()) && root < |arena.nodes| && Esc.EntitiesShaped(p.ents) && disableTags == 0
      modifies this`headingIds, this`disableTags, sr
      ensures Blanked(out) == TreeShape(p, arena.T(), root)
      ensures Run([], out) == Some([]) && disableTags == 0 && Clean(p, out)
      ensures (IdsOf(out), headingIds) == HeadingIds.Grant(old(headingIds), TreeRequests(p, arena.T(), root))
    {
      ghost var t, ids := arena.T(), headingIds;
      ghost var done: seq<Walk.Visit> := [];
      RenderStarts(p, t, root, ids);
      hide Walk.Rest, Walk.Events, Walk.OnTree, ParserShaped, Renderable, Sane, Rendered, DisableFor, TreeShape,
           TreeRequests, Run, Clean, HeadingIds.Grant, Blanked;
      var w := new A.Walker(root);
      arena.StartRest(root, Visitor(p, t.nodes));
      out := [];
      while w.current.Some?
        invariant w.root == root && t == arena.T() && Walk.OnTree(t, root, w.C()) && Sane(p, t, root, w.C())
        invariant done + Walk.Rest(t, root, w.C(), Visitor(p, t.nodes)) == Walk.Events(t, root, Visitor(p, t.nodes))
        invariant Rendered(p, t, done, ids, out, headingIds) && disableTags == DisableFor(t.nodes, root, w.C())
        decreases |Walk.Rest(t, root, w.C(), Visitor(p, t.nodes))|
      {
        out, done := RenderMove(arena, w, out, t, root, ids, done);
      }
      RenderEnds(p, t, root, done, ids, out, headingIds);
    }

    /** One visit and the cursor's move after it. */
    method RenderMove(arena: A.Arena, w: A.Walker, out: seq<Token>, ghost t: Tree, ghost root: NodeId,
                      ghost ids: HeadingIds.Ids, ghost done: seq<Walk.Visit>)
      returns (out': seq<Token>, ghost done': seq<Walk.Visit>)
      requires w.root == root && t == arena.T() && Walk.OnTree(t, root, w.C()) && Sane(p, t, root, w.C())
               && w.current.Some?
      requires Renderable(p, t) && root < |t.nodes| && Esc.EntitiesShaped(p.ents)
      requires Rendered(p, t, done, ids, out, headingIds) && disableTags == DisableFor(t.nodes, root, w.C())
      modifies this`headingIds, this`disableTags, sr, w
      ensures Walk.OnTree(t, root, w.C()) && Sane(p, t, root, w.C())
      ensures done' + Walk.Rest(t, root, w.C(), Visitor(p, t.nodes)) == done + old(Walk.Rest(t, root, w.C(),
              Visitor(p, t.nodes)))
      ensures |Walk.Rest(t, root, w.C(), Visitor(p, t.nodes))| < old(|Walk.Rest(t, root, w.C(), Visitor(p, t.nodes))|)
      ensures Rendered(p, t, done', ids, out', headingIds) && disableTags == DisableFor(t.nodes, root, w.C())
    {
      hide Walk.Events, Walk.After, Walk.AdvanceCursor, Walk.Rest, ParserShaped, Renderable, Sane, MayWrite, Rendered,
           Followable, DisableFor, DisableDelta, HeadingIds.Grant, ExactText, Request, Blanked, Clean, VisitShape,
           Tree.Valid;
      ghost var c := w.C();
      ghost var v := (c.current.value, c.entering);
      SaneMayWrite(p, t, root, c, disableTags);
      DoneOnNodes(p, t, done, ids, out, headingIds);
      DisableStep(p, t, root, c);
      Walk.AdvanceConsumes(t, root, c, Visitor(p, t.nodes));
      ShiftRest(done, Walk.Rest(t, root, c, Visitor(p, t.nodes)), v);
      ghost var mid := headingIds;
      var ts, status := RenderNode(arena, w.current.value, w.entering);
      RenderedStep(p, t, done, v, ids, out, ts, mid, headingIds);
      done' := done + [v];
      out' := out + ts;
      w.Advance(arena, status);
    }

    method RenderItem(d: ListData, entering: bool) returns (ts: seq<Token>)
      ensures ts == ItemShape(p, d, entering)
    {
      if entering {
        match d.refLink
        case Some(ref) => ts := [Open("li", [Attr("id", "fn:" + p.footnoteAnchorPrefix + Slug.Slugify(ref))])];
        case None => ts := [Open(ItemTag(d.flags), [])];
      } else {
        ts := [];
        if d.refLink.Some? && p.flags.footnoteReturnLinks { ts := ReturnLink(p, d.refLink.value); }
        ts := ts + [Close(ItemTag(d.flags))];
      }
    }
  }

  predicate Plain(k: NodeType) {
    !k.Image? && !k.Heading? && !k.Text? && !k.Link? && !k.Code? && !k.CodeBlock?
  }

  /** Element names that depend on the node type alone. */
  function SimpleTag(k: NodeType): bytes {
    match k
    case Emph => "em" case Strong => "strong" case Del => "del" case BlockQuote => "blockquote"
    case Table => "table" case TableHead => "thead" case TableBody => "tbody" case TableRow => "tr"
    case _ => ""
  }

  lemma BlankedNone()
    ensures Blanked([]) == []
  {
  }

  lemma BlankedImage(t: Token)
    requires t.ImgOpen? || t.ImgClose?
    ensures Blanked([t]) == [t]
  {
  }

  /** Such nodes write no text and no heading id. */
  lemma PlainBlank(p: Params, ns: seq<Node>, v: Walk.Visit)
    requires v.0 < |ns| && Plain(ns[v.0].kind)
    ensures Blanked(VisitShape(p, ns, v)) == VisitShape(p, ns, v) && Clean(p, VisitShape(p, ns, v))
  {
    ShapeIdless(p, ns, v);
    ShapeTextless(p, ns, v);
    var ts := VisitShape(p, ns, v);
    hide VisitShape;
    forall k | 0 <= k < |ts| ensures Blank(ts[k]) == ts[k] {
      if ts[k].Open? { assert Blank(ts[k]).attrs == ts[k].attrs; }
    }
  }

  lemma ShapeTextless(p: Params, ns: seq<Node>, v: Walk.Visit)
    requires v.0 < |ns| && Plain(ns[v.0].kind)
    ensures forall k :: 0 <= k < |VisitShape(p, ns, v)| ==> !VisitShape(p, ns, v)[k].Chars?
  {
    hide SkipParagraph;
  }

  // ----- a whole rendering -----

  ghost function TreeRequests(p: Params, t: Tree, root: NodeId): seq<bytes>
    requires t.Valid() && root < |t.nodes|
  {
    EventsOnNodes(t, root, Visitor(p, t.nodes));
    Requests(t, Walk.Events(t, root, Visitor(p, t.nodes)))
  }

  /** What has been written after the visits `done`. */
  ghost predicate Rendered(p: Params, t: Tree, done: seq<Walk.Visit>, ids: HeadingIds.Ids, out: seq<Token>,
                           ids': HeadingIds.Ids)
  {
    && OnNodes(t, done) && Blanked(out) == Shapes(p, t, done) && Clean(p, out)
    && (IdsOf(out), ids') == HeadingIds.Grant(ids, Requests(t, done))
  }

  lemma RenderStarts(p: Params, t: Tree, root: NodeId, ids: HeadingIds.Ids)
    requires Renderable(p, t) && root < |t.nodes|
    ensures Rendered(p, t, [], ids, [], ids) && Sane(p, t, root, Walk.Cursor(Some(root), true))
    ensures DisableFor(t.nodes, root, Walk.Cursor(Some(root), true)) == 0
  {
  }

  lemma ShiftRest(done: seq<Walk.Visit>, rest: seq<Walk.Visit>, v: Walk.Visit)
    requires rest != [] && rest[0] == v
    ensures (done + [v]) + rest[1..] == done + rest
  {
  }

  lemma DoneOnNodes(p: Params, t: Tree, done: seq<Walk.Visit>, ids: HeadingIds.Ids, out: seq<Token>,
                    ids': HeadingIds.Ids)
    requires Rendered(p, t, done, ids, out, ids')
    ensures OnNodes(t, done)
  {
  }

  lemma RenderedStep(p: Params, t: Tree, done: seq<Walk.Visit>, v: Walk.Visit, ids: HeadingIds.Ids, out: seq<Token>,
                     ts: seq<Token>, mid: HeadingIds.Ids, ids': HeadingIds.Ids)
    requires v.0 < |t.nodes| && OnNodes(t, done)
    requires Blanked(ts) == VisitShape(p, t.nodes, v) && Clean(p, ts)
    requires Rendered(p, t, done, ids, out, mid) && (IdsOf(ts), ids') == HeadingIds.Grant(mid, Request(t.nodes, v))
    ensures Rendered(p, t, done + [v], ids, out + ts, ids')
  {
    assert (done + [v])[..|done|] == done;
    BlankedConcat(out, ts);
    CleanConcat(p, out, ts);
    IdsOfConcat(out, ts);
    GrantConcat(ids, Requests(t, done), Request(t.nodes, v));
  }

  /** Granting in two parts. */
  lemma {:induction false} GrantConcat(ids: HeadingIds.Ids, a: seq<bytes>, b: seq<bytes>)
    ensures var (g, mid) := HeadingIds.Grant(ids, a);
            var (h, last) := HeadingIds.Grant(mid, b);
            HeadingIds.Grant(ids, a + b) == (g + h, last)
    decreases |b|
  {
    if b == [] {
      assert a + b == a;
      assert HeadingIds.Grant(ids, a).0 + [] == HeadingIds.Grant(ids, a).0;
    } else {
      assert (a + b)[..|a + b| - 1] == a + b[..|b| - 1];
      GrantConcat(ids, a, b[..|b| - 1]);
      var (g, mid) := HeadingIds.Grant(ids, a);
      var (h, last) := HeadingIds.Grant(mid, b[..|b| - 1]);
      var r := HeadingIds.UniqueId(last, b[|b| - 1]).0;
      assert (g + h) + [r] == g + (h + [r]);
    }
  }

  lemma RenderEnds(p: Params, t: Tree, root: NodeId, done: seq<Walk.Visit>, ids: HeadingIds.Ids, out: seq<Token>,
                   ids': HeadingIds.Ids)
    requires Renderable(p, t) && root < |t.nodes| && Rendered(p, t, done, ids, out, ids')
    requires done + [] == Walk.Events(t, root, Visitor(p, t.nodes))
    ensures Blanked(out) == TreeShape(p, t, root) && Run([], out) == Some([]) && Clean(p, out)
    ensures (IdsOf(out), ids') == HeadingIds.Grant(ids, TreeRequests(p, t, root))
  {
    assert done + [] == done;
    TreeBalanced(p, t, root, []);
    RunBlanked([], out);
  }

  predicate Idless(ts: seq<Token>) {
    forall k :: 0 <= k < |ts| && ts[k].Open? ==> forall j :: 0 <= j < |ts[k].attrs| ==> !ts[k].attrs[j].HeadingId?
  }

  lemma {:induction false} IdlessAttrs(attrs: seq<Attr>)
    requires forall j :: 0 <= j < |attrs| ==> !attrs[j].HeadingId?
    ensures AttrIds(attrs) == []
  {
    if attrs != [] { IdlessAttrs(attrs[..|attrs| - 1]); }
  }

  lemma {:induction false} IdlessTokens(ts: seq<Token>)
    requires Idless(ts)
    ensures IdsOf(ts) == []
  {
    if ts != [] {
      var last := ts[|ts| - 1];
      IdlessTokens(ts[..|ts| - 1]);
      if last.Open? { IdlessAttrs(last.attrs); }
    }
  }

  lemma IdsOfOne(t: Token)
    ensures IdsOf([t]) == TokenIds(t)
    ensures !t.Open? || t.attrs == [] ==> TokenIds(t) == []
    ensures t.Open? && |t.attrs| == 1 ==> TokenIds(t) == (if t.attrs[0].HeadingId? then [t.attrs[0].id] else [])
    ensures t.Open? && |t.attrs| == 2 && !t.attrs[0].HeadingId? && t.attrs[1].HeadingId? ==>
            TokenIds(t) == [t.attrs[1].id]
  {
    assert [t][..0] == [];
    if t.Open? && |t.attrs| == 1 {
      assert t.attrs[..0] == [] && AttrIds([]) == [];
    } else if t.Open? && |t.attrs| == 2 {
      assert t.attrs[..1][..0] == [] && AttrIds([]) == [];
      assert AttrIds(t.attrs[..1]) == [] + (if t.attrs[0].HeadingId? then [t.attrs[0].id] else []);
    }
  }

  lemma GrantOne(ids: HeadingIds.Ids, id: bytes)
    ensures HeadingIds.Grant(ids, [id]) == ([HeadingIds.UniqueId(ids, id).0], HeadingIds.UniqueId(ids, id).1)
  {
    assert [id][..0] == [] && HeadingIds.Grant(ids, []) == ([], ids);
    assert [] + [HeadingIds.UniqueId(ids, id).0] == [HeadingIds.UniqueId(ids, id).0];
  }

  lemma GrantNothing(ids: HeadingIds.Ids)
    ensures HeadingIds.Grant(ids, []) == ([], ids)
  {
  }

  /** Only headings carry heading ids. */
  lemma NoIdsElsewhere(p: Params, ns: seq<Node>, v: Walk.Visit, ts: seq<Token>)
    requires v.0 < |ns| && !ns[v.0].kind.Heading? && Blanked(ts) == VisitShape(p, ns, v)
    ensures IdsOf(ts) == []
  {
    ShapeIdless(p, ns, v);
    forall k | 0 <= k < |ts| && ts[k].Open?
      ensures forall j :: 0 <= j < |ts[k].attrs| ==> !ts[k].attrs[j].HeadingId?
    {
      assert VisitShape(p, ns, v)[k] == Blank(ts[k]);
      forall j | 0 <= j < |ts[k].attrs| ensures !ts[k].attrs[j].HeadingId? {
        assert VisitShape(p, ns, v)[k].attrs[j] == BlankAttr(ts[k].attrs[j]);
      }
    }
    IdlessTokens(ts);
  }

  lemma ShapeIdless(p: Params, ns: seq<Node>, v: Walk.Visit)
    requires v.0 < |ns| && !ns[v.0].kind.Heading?
    ensures Idless(VisitShape(p, ns, v))
  {
    LinkIdless(p, ns[v.0].data.link);
    hide SkipParagraph, NeedSkipLink, EscapedLink, AddAbsPrefix, LinkAttrs, Esc.Escape;
  }

  lemma LinkIdless(p: Params, d: LinkData)
    ensures forall j :: 0 <= j < |LinkAttrs(p, d)| ==> !LinkAttrs(p, d)[j].HeadingId?
  {
    hide EscapedLink, AddAbsPrefix, IsRelativeLink, Spaced, Esc.Escape;
  }

  // ----- facts about what was written -----

  lemma SmartIsTidy(tokens: seq<Smartypants.Token>, out: bytes)
    requires Esc.RawFree(Smartypants.Taken(tokens)) && out == "" + Smartypants.Written(tokens)
    requires forall k :: 0 <= k < |tokens| ==> Smartypants.Justified(tokens[k])
    ensures Smartypants.Tidy(out)
  {
    Smartypants.ProcessedIsTidy(tokens);
    assert out == Smartypants.Written(tokens);
  }

  lemma DecimalIsClean(p: Params, n: nat)
    ensures CleanChars(p, HeadingIds.Decimal(n))
  {
    var s := HeadingIds.Decimal(n);
    forall c | c in s ensures IsDigit(c) {
      var k :| 0 <= k < |s| && s[k] == c;
    }
    CleanText(p, s);
  }

  lemma EndsBlank(entering: bool, tag: bytes)
    ensures Blanked(Ends(entering, tag)) == Ends(entering, tag)
  {
    if entering { assert Blank(Open(tag, [])).attrs == []; }
  }

  lemma FootnoteBlanks(p: Params, d: LinkData, ts: seq<Token>)
    requires ts == FootnoteRef(p, d)[2 := Chars(HeadingIds.Decimal(d.noteId))]
    ensures Blanked(ts) == FootnoteRef(p, d)
  {
    var ref := FootnoteRef(p, d);
    forall k | 0 <= k < 5 ensures Blank(ts[k]) == ref[k] {
      if k == 0 || k == 1 { assert Blank(ts[k]).attrs == ref[k].attrs; }
    }
  }

  lemma PlainAttrs(p: Params, d: LinkData, attrs: seq<Attr>)
    requires d.destination != []
    requires var dest := AddAbsPrefix(p, d.destination);
             var first := [Attr("href", EscapedLink(p, dest))] + LinkPolicy(p.flags, dest);
             attrs == if d.title.Some? && d.title.value != []
                      then first + [Attr("title", Esc.Escape(p.ents, d.title.value, false))] else first
    ensures Blanked([Open("a", attrs)]) == [Open("a", LinkAttrs(p, d))]
  {
    assert attrs == LinkAttrs(p, d);
    LinkIdless(p, d);
    hide LinkAttrs, LinkPolicy, EscapedLink, AddAbsPrefix, Esc.Escape;
    assert Blank(Open("a", attrs)).attrs == attrs;
  }
}
