/** What the renderer writes for each visit of a node (src/html.rs), and why the
    whole is well nested. */
module Shape {
  import opened Bytes
  import opened Node
  import opened Growth
  import opened Tags
  import Esc
  import Slug
  import Smartypants
  import Unescape
  import Walk

  datatype HtmlFlags = HtmlFlags(skipHtml: bool, skipImages: bool, skipLinks: bool, safelink: bool,
                                 nofollow: bool, noreferrer: bool, noopener: bool, targetBlank: bool,
                                 smartypants: bool, toc: bool, footnoteReturnLinks: bool, smart: Smartypants.Flags)

  /** The renderer's parameters, with the entity tables it looks up. */
  datatype Params = Params(flags: HtmlFlags, absolutePrefix: bytes, footnoteAnchorPrefix: bytes,
                           headingLevelOffset: int, returnLink: bytes,
                           ents: set<bytes>, names: Unescape.Names)

  // ----- links -----

  predicate SafePath(link: bytes, path: bytes) {
    StartsWith(link, path) && (|link| == |path| || IsAlnum(link[|path|]))
  }

  predicate SafeUri(link: bytes, prefix: bytes) {
    && |link| > |prefix| && IsAlnum(link[|prefix|])
    && forall k :: 0 <= k < |prefix| ==> ToLower(link[k]) == prefix[k]
  }

  predicate IsSafeLink(link: bytes) {
    || SafePath(link, "/") || SafePath(link, "./") || SafePath(link, "../")
    || SafeUri(link, "http://") || SafeUri(link, "https://") || SafeUri(link, "ftp://") || SafeUri(link, "mailto://")
  }

  predicate NeedSkipLink(f: HtmlFlags, dest: bytes) {
    f.skipLinks || (f.safelink && !IsSafeLink(dest) && !StartsWith(dest, "mailto:"))
  }

  predicate IsRelativeLink(link: bytes)
    requires link != []
  {
    || link[0] == '#'
    || (|link| >= 2 && link[0] == '/' && link[1] != '/')
    || link == "/" || StartsWith(link, "./") || StartsWith(link, "../")
  }

  function AddAbsPrefix(p: Params, link: bytes): (r: bytes)
    ensures link != [] ==> r != []
  {
    if p.absolutePrefix != [] && link != [] && IsRelativeLink(link) && link[0] != '.' then
      p.absolutePrefix + (if link[0] != '/' then "/" else "") + link
    else link
  }

  /** `rel` and `target`, for links that leave the site.  Looks at the first byte. */
  function LinkPolicy(f: HtmlFlags, link: bytes): seq<Attr>
    requires link != []
  {
    if IsRelativeLink(link) then []
    else
      var rel := Spaced(Spaced(if f.nofollow then "nofollow" else "", if f.noreferrer then "noreferrer" else ""),
                        if f.noopener then "noopener" else "");
      (if f.targetBlank then [Attr("target", "_blank")] else []) + (if rel != "" then [Attr("rel", rel)] else [])
  }

  function Spaced(a: bytes, b: bytes): bytes { if a == "" || b == "" then a + b else a + " " + b }

  function EscapedLink(p: Params, link: bytes): bytes {
    Esc.Escape(p.ents, Unescape.UnescapeText(p.names, link), false)
  }

  // ----- looking around in the tree -----

  function KindAt(ns: seq<Node>, o: Option<NodeId>): Option<NodeType> {
    match o case Some(x) => (if x < |ns| then Some(ns[x].kind) else None) case None => None
  }

  function ParentAt(ns: seq<Node>, o: Option<NodeId>): Option<NodeId> {
    match o case Some(x) => (if x < |ns| then ns[x].links.parent else None) case None => None
  }

  function ListAt(ns: seq<Node>, o: Option<NodeId>): ListData {
    match o case Some(x) => (if x < |ns| then ns[x].data.list else NoData.list) case None => NoData.list
  }

  /** Paragraphs of tight lists, and of terms, get no tags. */
  predicate SkipParagraph(ns: seq<Node>, x: NodeId)
    requires x < |ns|
  {
    var parent := ns[x].links.parent;
    var above := ParentAt(ns, parent);
    KindAt(ns, above) == Some(List) && (ListAt(ns, above).tight || ListAt(ns, parent).flags.term)
  }

  function HeadingTag(level: int): bytes {
    if level <= 1 then "h1" else if level == 2 then "h2" else if level == 3 then "h3"
    else if level == 4 then "h4" else if level == 5 then "h5" else "h6"
  }

  function ListTag(flags: ListType): bytes {
    if flags.definition then "dl" else if flags.ordered then "ol" else "ul"
  }

  function ItemTag(flags: ListType): bytes {
    if flags.term then "dt" else if flags.definition then "dd" else "li"
  }

  function LanguageAttr(info: bytes): seq<Attr> {
    if info == [] then [] else [Attr("class", "language-" + info[..Skip(info, 0, NotBlank())])]
  }

  function NotBlank(): byte -> bool { c => !IsBlank(c) }

  function Alignment(a: CellAlign): seq<Attr> {
    if a.left && a.right then [Attr("align", "center")]
    else if a.left then [Attr("align", "left")]
    else if a.right then [Attr("align", "right")]
    else []
  }

  function LinkAttrs(p: Params, d: LinkData): seq<Attr> {
    var dest := AddAbsPrefix(p, d.destination);
    [Attr("href", EscapedLink(p, dest))] + (if dest != [] then LinkPolicy(p.flags, dest) else [])
    + (if d.title.Some? && d.title.value != [] then [Attr("title", Esc.Escape(p.ents, d.title.value, false))] else [])
  }

  function FootnoteRef(p: Params, d: LinkData): seq<Token> {
    var frag := p.footnoteAnchorPrefix + Slug.Slugify(d.destination);
    [Open("sup", [Attr("class", "footnote-ref"), Attr("id", "fnref:" + frag)]),
        Open("a", [Attr("href", "#fn:" + frag)]),
     Chars(""), Close("a"), Close("sup")]
  }

  function ReturnLink(p: Params, ref: bytes): seq<Token> {
    [Open("a", [Attr("class", "footnote-return"), Attr("href",
        "#fnref:" + p.footnoteAnchorPrefix + Slug.Slugify(ref))]),
     Raw(p.returnLink), Close("a")]
  }

  function Ends(entering: bool, tag: bytes): seq<Token> {
    if entering then [Open(tag, [])] else [Close(tag)]
  }

  /** The tokens written for a visit, with text and heading ids left blank. */
  function VisitShape(p: Params, ns: seq<Node>, v: Walk.Visit): seq<Token>
    requires v.0 < |ns|
  {
    var (x, entering) := v;
    var d := ns[x].data;
    match ns[x].kind
    case Text => [Chars("")]
    case Softbreak => []
    case Hardbreak => [Void("br")]
    case Emph => Ends(entering, "em")
    case Strong => Ends(entering, "strong")
    case Del => Ends(entering, "del")
    case HTMLSpan => if p.flags.skipHtml then [] else [Raw(d.literal)]
    case Link =>
      if NeedSkipLink(p.flags, d.link.destination) then Ends(entering, "tt")
      else if d.link.noteId != 0 then (if entering then FootnoteRef(p, d.link) else [])
      else if entering then [Open("a", LinkAttrs(p, d.link))]
      else [Close("a")]
    case Image =>
      if p.flags.skipImages then []
      else if entering then [ImgOpen(EscapedLink(p, AddAbsPrefix(p, d.link.destination)))]
      else [ImgClose(if d.link.title.Some? then Some(Esc.Escape(p.ents, d.link.title.value, false)) else None)]
    case Code => [Open("code", []), Chars(""), Close("code")]
    case Document => []
    case Paragraph => if SkipParagraph(ns, x) then [] else Ends(entering, "p")
    case BlockQuote => Ends(entering, "blockquote")
    case HTMLBlock => if p.flags.skipHtml then [] else [Raw(d.literal)]
    case Heading => HeadingShape(p, d.heading, entering)
    case HorizontalRule => [Void("hr")]
    case List =>
      if entering then
        (if d.list.isFootnotesList then [Open("div", [Attr("class", "footnotes")]), Void("hr")] else [])
        + [Open(ListTag(d.list.flags), [])]
      else [Close(ListTag(d.list.flags))] + (if d.list.isFootnotesList then [Close("div")] else [])
    case Item => ItemShape(p, d.list, entering)
    case CodeBlock =>
      [Open("pre", []), Open("code", LanguageAttr(d.codeBlock.info)), Chars(""), Close("code"), Close("pre")]
    case Table => Ends(entering, "table")
    case TableHead => Ends(entering, "thead")
    case TableBody => Ends(entering, "tbody")
    case TableRow => Ends(entering, "tr")
    case TableCell =>
      var tag := if d.cell.isHeader then "th" else "td";
      if entering then [Open(tag, Alignment(d.cell.align))] else [Close(tag)]
  }

  function HeadingShape(p: Params, h: HeadingData, entering: bool): seq<Token> {
    var tag := HeadingTag(p.headingLevelOffset + h.level);
    if entering then
      [Open(tag, (if h.isTitleblock then [Attr("class",
          "title")] else []) + (if h.id != [] then [HeadingId("")] else []))]
    else [Close(tag)]
  }

  function ItemShape(p: Params, d: ListData, entering: bool): seq<Token> {
    if entering then
      (match d.refLink
       case Some(ref) => [Open("li", [Attr("id", "fn:" + p.footnoteAnchorPrefix + Slug.Slugify(ref))])]
       case None => [Open(ItemTag(d.flags), [])])
    else
      (if d.refLink.Some? && p.flags.footnoteReturnLinks then ReturnLink(p, d.refLink.value) else [])
      + [Close(ItemTag(d.flags))]
  }

  /** The renderer's answer to the walk: only images can be skipped. */
  function Status(p: Params, ns: seq<Node>, v: Walk.Visit): Walk.WalkStatus {
    if v.0 < |ns| && ns[v.0].kind.Image? && p.flags.skipImages then Walk.SkipChildren else Walk.GoToNext
  }

  function Visitor(p: Params, ns: seq<Node>): Walk.Visitor { v => Status(p, ns, v) }

  ghost function Shapes(p: Params, t: Tree, events: seq<Walk.Visit>): seq<Token>
    requires OnNodes(t, events)
  {
    if events == [] then []
    else Shapes(p, t, events[..|events| - 1]) + VisitShape(p, t.nodes, events[|events| - 1])
  }

  ghost predicate OnNodes(t: Tree, events: seq<Walk.Visit>) {
    forall k :: 0 <= k < |events| ==> events[k].0 < |t.nodes|
  }

  // ----- the trees a parser builds -----

  /** Node types sit where the parsers put them, and footnote items are plain items. */
  ghost predicate ParserShaped(t: Tree) {
    && t.Valid() && EdgesOk(t)
    && (forall x :: 0 <= x < |t.nodes| && t.Kind(x).Item? && t.nodes[x].data.list.refLink.Some? ==>
          !t.nodes[x].data.list.flags.term && !t.nodes[x].data.list.flags.definition)
  }

  /** The renderer looks at the first byte of the destination of a link that is neither
      numbered nor skipped. */
  predicate Followable(f: HtmlFlags, n: Node) {
    n.kind.Link? && n.data.link.noteId == 0 && !NeedSkipLink(f, n.data.link.destination) ==>
      n.data.link.destination != []
  }

  /** What the renderer asks of a tree, under its own flags. */
  ghost predicate Renderable(p: Params, t: Tree) {
    ParserShaped(t) && forall x :: 0 <= x < |t.nodes| ==> Followable(p.flags, t.nodes[x])
  }

  /** The elements a container leaves open while its children are written. */
  function Opened(p: Params, ns: seq<Node>, x: NodeId): seq<bytes>
    requires x < |ns|
  {
    var d := ns[x].data;
    match ns[x].kind
    case Emph => ["em"]
    case Strong => ["strong"]
    case Del => ["del"]
    case Link =>
      if NeedSkipLink(p.flags, d.link.destination) then ["tt"] else if d.link.noteId != 0 then [] else ["a"]
    case Image => [Img]
    case Paragraph => if SkipParagraph(ns, x) then [] else ["p"]
    case BlockQuote => ["blockquote"]
    case Heading => [HeadingTag(p.headingLevelOffset + d.heading.level)]
    case List => (if d.list.isFootnotesList then ["div"] else []) + [ListTag(d.list.flags)]
    case Item => [ItemTag(d.list.flags)]
    case Table => ["table"]
    case TableHead => ["thead"]
    case TableBody => ["tbody"]
    case TableRow => ["tr"]
    case TableCell => [if d.cell.isHeader then "th" else "td"]
    case _ => []
  }

  // ----- one visit -----

  lemma RunOpen(stack: seq<bytes>, tag: bytes, attrs: seq<Attr>)
    requires Free(stack)
    ensures Run(stack, [Open(tag, attrs)]) == Some(stack + [tag])
  {
    RunOne(stack, Open(tag, attrs));
  }

  lemma RunClose(stack: seq<bytes>, tag: bytes)
    requires tag != Img
    ensures Run(stack + [tag], [Close(tag)]) == Some(stack)
  {
    RunOne(stack + [tag], Close(tag));
    assert (stack + [tag])[..|stack|] == stack;
  }

  lemma FreeOver(stack: seq<bytes>, tag: bytes)
    requires tag != Img
    ensures Free(stack + [tag])
  {
  }

  /** A word inside an element. */
  lemma Wrapped(stack: seq<bytes>, tag: bytes, attrs: seq<Attr>, word: seq<Token>)
    requires Free(stack) && tag != Img && Run(stack + [tag], word) == Some(stack + [tag])
    ensures Run(stack, [Open(tag, attrs)] + word + [Close(tag)]) == Some(stack)
  {
    RunOpen(stack, tag, attrs);
    RunTwo(stack, [Open(tag, attrs)], word, stack + [tag]);
    RunTwo(stack, [Open(tag, attrs)] + word, [Close(tag)], stack + [tag]);
    RunClose(stack, tag);
  }

  lemma Element(stack: seq<bytes>, tag: bytes, attrs: seq<Attr>, inner: Token)
    requires Free(stack) && tag != Img && (inner.Chars? || inner.Raw?)
    ensures Run(stack, [Open(tag, attrs), inner, Close(tag)]) == Some(stack)
  {
    FreeOver(stack, tag);
    RunOne(stack + [tag], inner);
    Wrapped(stack, tag, attrs, [inner]);
    assert [Open(tag, attrs)] + [inner] + [Close(tag)] == [Open(tag, attrs), inner, Close(tag)];
  }

  /** A node without children leaves nothing open, and text may even stand inside an
      attribute value. */
  lemma LeafNeutral(p: Params, t: Tree, x: NodeId, stack: seq<bytes>)
    requires x < |t.nodes| && !t.Kind(x).IsContainer() && (Free(stack) || t.Kind(x).Text?)
    ensures Run(stack, VisitShape(p, t.nodes, (x, true))) == Some(stack)
  {
    match t.Kind(x)
    case CodeBlock =>
      var attrs := LanguageAttr(t.nodes[x].data.codeBlock.info);
      FreeOver(stack, "pre");
      Element(stack + ["pre"], "code", attrs, Chars(""));
      Wrapped(stack, "pre", [], [Open("code", attrs), Chars(""), Close("code")]);
      assert VisitShape(p, t.nodes, (x, true))
          == [Open("pre", [])] + [Open("code", attrs), Chars(""), Close("code")] + [Close("pre")];
    case Code => Element(stack, "code", [], Chars(""));
    case Text => RunOne(stack, Chars(""));
    case HTMLSpan => RunOne(stack, Raw(t.nodes[x].data.literal));
    case HTMLBlock => RunOne(stack, Raw(t.nodes[x].data.literal));
    case Hardbreak => RunOne(stack, Void("br"));
    case HorizontalRule => RunOne(stack, Void("hr"));
    case _ =>
  }

  lemma FootnoteRefNeutral(p: Params, d: LinkData, stack: seq<bytes>)
    requires Free(stack)
    ensures Run(stack, FootnoteRef(p, d)) == Some(stack)
  {
    var ref := FootnoteRef(p, d);
    FreeOver(stack, "sup");
    Element(stack + ["sup"], "a", ref[1].attrs, Chars(""));
    Wrapped(stack, "sup", ref[0].attrs, [ref[1], Chars(""), Close("a")]);
    assert ref == [ref[0]] + [ref[1], Chars(""), Close("a")] + [Close("sup")];
  }

  /** Entering a container opens its elements, in order. */
  lemma EnterOpens(p: Params, t: Tree, x: NodeId, stack: seq<bytes>)
    requires ParserShaped(t) && x < |t.nodes| && t.Kind(x).IsContainer() && Free(stack)
    requires !(t.Kind(x).Image? && p.flags.skipImages)
    ensures Run(stack, VisitShape(p, t.nodes, (x, true))) == Some(stack + Opened(p, t.nodes, x))
  {
    var d, kind := t.nodes[x].data, t.Kind(x);
    assert kind.Item? && d.list.refLink.Some? ==> ItemTag(d.list.flags) == "li";
    NothingRun(stack);
    if kind.Link? {
      LinkOpens(p, t, x, stack);
    } else {
      hide ParserShaped, Run, NeedSkipLink, SkipParagraph, FootnoteRef, EscapedLink, LinkAttrs, Free;
      if kind.Document? {
      } else if kind.List? {
        ListOpens(p, d.list, stack);
      } else if kind.Image? {
        RunOne(stack, VisitShape(p, t.nodes, (x, true))[0]);
      } else if kind.Paragraph? {
        if !SkipParagraph(t.nodes, x) { RunOpen(stack, "p", []); }
      } else {
        var shape := VisitShape(p, t.nodes, (x, true));
        assert |shape| == 1 && shape[0].Open? && Opened(p, t.nodes, x) == [shape[0].tag];
        hide VisitShape, Opened;
        RunOpen(stack, shape[0].tag, shape[0].attrs);
        assert shape == [Open(shape[0].tag, shape[0].attrs)];
      }
    }
  }

  lemma NothingRun(stack: seq<bytes>)
    ensures Run(stack, []) == Some(stack) && stack + [] == stack
  {
  }

  lemma LinkOpens(p: Params, t: Tree, x: NodeId, stack: seq<bytes>)
    requires x < |t.nodes| && t.Kind(x).Link? && Free(stack)
    ensures Run(stack, VisitShape(p, t.nodes, (x, true))) == Some(stack + Opened(p, t.nodes, x))
  {
    hide Run, NeedSkipLink, FootnoteRef, EscapedLink, LinkAttrs, Free;
    var d := t.nodes[x].data.link;
    NothingRun(stack);
    if !NeedSkipLink(p.flags, d.destination) && d.noteId != 0 {
      FootnoteRefNeutral(p, d, stack);
    } else {
      RunOpen(stack, "tt", []);
      RunOpen(stack, "a", LinkAttrs(p, d));
    }
  }

  lemma ListOpens(p: Params, d: ListData, stack: seq<bytes>)
    requires Free(stack)
    ensures Run(stack, (if d.isFootnotesList then [Open("div", [Attr("class", "footnotes")]), Void("hr")] else [])
                       + [Open(ListTag(d.flags), [])])
         == Some(stack + ((if d.isFootnotesList then ["div"] else []) + [ListTag(d.flags)]))
  {
    var last := [Open(ListTag(d.flags), [])];
    if d.isFootnotesList {
      var s := stack + ["div"];
      var div := [Open("div", [Attr("class", "footnotes")])];
      FreeOver(stack, "div");
      RunOpen(stack, "div", div[0].attrs);
      RunTwo(stack, div, [Void("hr")], s);
      RunOne(s, Void("hr"));
      RunTwo(stack, div + [Void("hr")], last, s);
      RunOpen(s, ListTag(d.flags), []);
      assert div + [Void("hr")] == [div[0], Void("hr")];
      assert s + [ListTag(d.flags)] == stack + (["div"] + [ListTag(d.flags)]);
    } else {
      RunOpen(stack, ListTag(d.flags), []);
      assert [] + last == last;
      assert [] + [ListTag(d.flags)] == [ListTag(d.flags)];
    }
  }

  /** Leaving it closes them again. */
  lemma LeaveCloses(p: Params, t: Tree, x: NodeId, stack: seq<bytes>)
    requires ParserShaped(t) && x < |t.nodes| && t.Kind(x).IsContainer()
    requires !(t.Kind(x).Image? && p.flags.skipImages)
    ensures Run(stack + Opened(p, t.nodes, x), VisitShape(p, t.nodes, (x, false))) == Some(stack)
  {
    var d, kind := t.nodes[x].data, t.Kind(x);
    if kind.Document? {
      assert stack + [] == stack;
    } else if kind.List? {
      ListCloses(d.list, stack);
    } else if kind.Item? {
      ItemCloses(p, d.list, stack);
    } else if kind.Link? {
      if !NeedSkipLink(p.flags, d.link.destination) && d.link.noteId != 0 {
        assert stack + [] == stack;
      } else {
        RunClose(stack, "tt");
        RunClose(stack, "a");
      }
    } else if kind.Image? {
      RunOne(stack + [Img], VisitShape(p, t.nodes, (x, false))[0]);
      assert (stack + [Img])[..|stack|] == stack;
    } else if kind.Paragraph? {
      if SkipParagraph(t.nodes, x) { assert stack + [] == stack; } else { RunClose(stack, "p"); }
    } else {
      var shape := VisitShape(p, t.nodes, (x, false));
      assert |shape| == 1 && shape[0].Close? && Opened(p, t.nodes, x) == [shape[0].tag] && shape[0].tag != Img;
      RunClose(stack, shape[0].tag);
      assert shape == [Close(shape[0].tag)];
    }
  }

  lemma ListCloses(d: ListData, stack: seq<bytes>)
    ensures Run(stack + ((if d.isFootnotesList then ["div"] else []) + [ListTag(d.flags)]),
                [Close(ListTag(d.flags))] + (if d.isFootnotesList then [Close("div")] else [])) == Some(stack)
  {
    var first := [Close(ListTag(d.flags))];
    if d.isFootnotesList {
      var s := stack + ["div"];
      assert s + [ListTag(d.flags)] == stack + (["div"] + [ListTag(d.flags)]);
      RunClose(s, ListTag(d.flags));
      RunTwo(s + [ListTag(d.flags)], first, [Close("div")], s);
      RunClose(stack, "div");
    } else {
      RunClose(stack, ListTag(d.flags));
      assert first + [] == first;
      assert [] + [ListTag(d.flags)] == [ListTag(d.flags)];
    }
  }

  lemma ItemCloses(p: Params, d: ListData, stack: seq<bytes>)
    ensures Run(stack + [ItemTag(d.flags)], ItemShape(p, d, false)) == Some(stack)
  {
    var s, last := stack + [ItemTag(d.flags)], [Close(ItemTag(d.flags))];
    RunClose(stack, ItemTag(d.flags));
    if d.refLink.Some? && p.flags.footnoteReturnLinks {
      var ret := ReturnLink(p, d.refLink.value);
      FreeOver(stack, ItemTag(d.flags));
      Element(s, "a", ret[0].attrs, Raw(p.returnLink));
      assert ret == [Open("a", ret[0].attrs), Raw(p.returnLink), Close("a")];
      RunTwo(s, ret, last, s);
    } else {
      assert [] + last == last;
    }
  }

  // ----- a whole traversal -----

  lemma {:induction false} ShapesConcat(p: Params, t: Tree, a: seq<Walk.Visit>, b: seq<Walk.Visit>)
    requires OnNodes(t, a) && OnNodes(t, b)
    ensures OnNodes(t, a + b) && Shapes(p, t, a + b) == Shapes(p, t, a) + Shapes(p, t, b)
    decreases |b|
  {
    hide VisitShape;
    if b == [] {
      assert a + b == a;
    } else {
      assert (a + b)[..|a + b| - 1] == a + b[..|b| - 1];
      ShapesConcat(p, t, a, b[..|b| - 1]);
    }
  }

  lemma ShapesOne(p: Params, t: Tree, v: Walk.Visit)
    requires v.0 < |t.nodes|
    ensures OnNodes(t, [v]) && Shapes(p, t, [v]) == VisitShape(p, t.nodes, v)
  {
    assert [v][..0] == [];
  }

  /** Everything visited below a node of the tree is in the tree. */
  lemma {:induction false} EventsOnNodes(t: Tree, x: NodeId, visit: Walk.Visitor)
    requires t.Valid() && x < |t.nodes|
    ensures OnNodes(t, Walk.Events(t, x, visit))
    decreases Walk.MaxLevel(t.level) - t.level[x], |t.kids[x]| + 1
  {
    if t.Kind(x).IsContainer() && visit((x, true)) != Walk.SkipChildren { KidsOnNodes(t, x, 0, visit); }
  }

  lemma {:induction false} KidsOnNodes(t: Tree, x: NodeId, k: nat, visit: Walk.Visitor)
    requires t.Valid() && x < |t.nodes| && k <= |t.kids[x]|
    ensures OnNodes(t, Walk.KidEvents(t, x, k, visit))
    decreases Walk.MaxLevel(t.level) - t.level[x], |t.kids[x]| - k
  {
    if k < |t.kids[x]| {
      t.KidOf(x, t.kids[x][k]);
      EventsOnNodes(t, t.kids[x][k], visit);
      KidsOnNodes(t, x, k + 1, visit);
    }
  }

  /** What is written for the subtree at `x`. */
  ghost function TreeShape(p: Params, t: Tree, x: NodeId): seq<Token>
    requires t.Valid() && x < |t.nodes|
  {
    EventsOnNodes(t, x, Visitor(p, t.nodes));
    Shapes(p, t, Walk.Events(t, x, Visitor(p, t.nodes)))
  }

  ghost function KidShapes(p: Params, t: Tree, x: NodeId, k: nat): seq<Token>
    requires t.Valid() && x < |t.nodes| && k <= |t.kids[x]|
  {
    KidsOnNodes(t, x, k, Visitor(p, t.nodes));
    Shapes(p, t, Walk.KidEvents(t, x, k, Visitor(p, t.nodes)))
  }

  /** The word of a subtree: opening, children in order, closing. */
  lemma TreeShapeUnfolds(p: Params, t: Tree, x: NodeId)
    requires t.Valid() && x < |t.nodes|
    ensures TreeShape(p, t, x)
         == if Walk.Opens(t, x, Visitor(p, t.nodes))
            then VisitShape(p, t.nodes, (x, true)) + (KidShapes(p, t, x, 0) + VisitShape(p, t.nodes, (x, false)))
            else VisitShape(p, t.nodes, (x, true))
  {
    var visit := Visitor(p, t.nodes);
    ShapesOne(p, t, (x, true));
    if Walk.Opens(t, x, visit) {
      var kids := Walk.KidEvents(t, x, 0, visit);
      KidsOnNodes(t, x, 0, visit);
      ShapesOne(p, t, (x, false));
      ShapesConcat(p, t, kids, [(x, false)]);
      ShapesConcat(p, t, [(x, true)], kids + [(x, false)]);
    }
  }

  lemma KidShapesUnfolds(p: Params, t: Tree, x: NodeId, k: nat)
    requires t.Valid() && x < |t.nodes| && k < |t.kids[x]| && t.kids[x][k] < |t.nodes|
    ensures KidShapes(p, t, x, k) == TreeShape(p, t, t.kids[x][k]) + KidShapes(p, t, x, k + 1)
  {
    var visit := Visitor(p, t.nodes);
    EventsOnNodes(t, t.kids[x][k], visit);
    KidsOnNodes(t, x, k + 1, visit);
    ShapesConcat(p, t, Walk.Events(t, t.kids[x][k], visit), Walk.KidEvents(t, x, k + 1, visit));
  }

  /** Rendering a subtree of a parser-shaped tree writes a well-nested word, whatever
      the flags; below an image only text is written. */
  lemma {:induction false} TreeBalanced(p: Params, t: Tree, x: NodeId, stack: seq<bytes>)
    requires ParserShaped(t) && x < |t.nodes| && (Free(stack) || t.Kind(x).Text?)
    ensures Run(stack, TreeShape(p, t, x)) == Some(stack)
    decreases Walk.MaxLevel(t.level) - t.level[x], |t.kids[x]| + 1
  {
    TreeShapeUnfolds(p, t, x);
    hide TreeShape, KidShapes, VisitShape, Run;
    if Walk.Opens(t, x, Visitor(p, t.nodes)) {
      var inner := stack + Opened(p, t.nodes, x);
      EnterOpens(p, t, x, stack);
      InnerFree(p, t, x, stack);
      KidsBalanced(p, t, x, 0, inner);
      LeaveCloses(p, t, x, stack);
      RunTwo(inner, KidShapes(p, t, x, 0), VisitShape(p, t.nodes, (x, false)), inner);
      RunTwo(stack, VisitShape(p, t.nodes, (x, true)), KidShapes(p, t, x, 0) + VisitShape(p, t.nodes, (x, false)),
          inner);
    } else if !t.Kind(x).IsContainer() {
      LeafNeutral(p, t, x, stack);
    } else {
      ImageSkipped(p, t, x, stack);
    }
  }

  lemma ImageSkipped(p: Params, t: Tree, x: NodeId, stack: seq<bytes>)
    requires x < |t.nodes| && t.Kind(x).Image? && p.flags.skipImages
    ensures Run(stack, VisitShape(p, t.nodes, (x, true))) == Some(stack)
  {
  }

  /** Only an image's children are written inside an attribute value. */
  lemma InnerFree(p: Params, t: Tree, x: NodeId, stack: seq<bytes>)
    requires x < |t.nodes| && Free(stack)
    ensures t.Kind(x).Image? || Free(stack + Opened(p, t.nodes, x))
  {
    var tags := Opened(p, t.nodes, x);
    if tags == [] {
      assert stack + tags == stack;
    } else if !t.Kind(x).Image? {
      assert (stack + tags)[|stack + tags| - 1] == tags[|tags| - 1];
      assert tags[|tags| - 1] != Img;
    }
  }

  lemma {:induction false} KidsBalanced(p: Params, t: Tree, x: NodeId, k: nat, stack: seq<bytes>)
    requires ParserShaped(t) && x < |t.nodes| && k <= |t.kids[x]| && (Free(stack) || t.Kind(x).Image?)
    ensures Run(stack, KidShapes(p, t, x, k)) == Some(stack)
    decreases Walk.MaxLevel(t.level) - t.level[x], |t.kids[x]| - k
  {
    if k < |t.kids[x]| {
      var c := t.kids[x][k];
      t.KidOf(x, c);
      KidShapesUnfolds(p, t, x, k);
      hide TreeShape, KidShapes, Run;
      TreeBalanced(p, t, c, stack);
      KidsBalanced(p, t, x, k + 1, stack);
      RunTwo(stack, TreeShape(p, t, c), KidShapes(p, t, x, k + 1), stack);
    }
  }
}
