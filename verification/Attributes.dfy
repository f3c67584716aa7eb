/** Attribute values: which of them can hold raw markup (src/html.rs). */
module Attributes {
  import opened Bytes
  import opened BlockLeaf
  import opened BlockScan
  import opened MD = Markdown
  import opened Node
  import opened Shape
  import opened Tags
  import Esc
  import HeadingIds
  import Html
  import Slug
  import Unescape
  import Walk

  predicate AttrFree(a: Attr) { Esc.RawFree(if a.HeadingId? then a.id else a.value) }

  /** No attribute value of the token holds `<`, `>` or `"`. */
  predicate TokenFree(t: Token) {
    match t
    case Open(_, attrs) => forall k :: 0 <= k < |attrs| ==> AttrFree(attrs[k])
    case ImgOpen(src) => Esc.RawFree(src)
    case ImgClose(title) => title.Some? ==> Esc.RawFree(title.value)
    case _ => true
  }

  ghost predicate AttrsFree(ts: seq<Token>) {
    forall k :: 0 <= k < |ts| ==> TokenFree(ts[k])
  }

  /** The word that a code block's language class is made of. */
  function Language(info: bytes): bytes { info[..Skip(info, 0, NotBlank())] }

  /** What the code block writes raw is free of markup. */
  predicate LanguageFree(n: Node) { n.kind.CodeBlock? ==> Esc.RawFree(Language(n.data.codeBlock.info)) }

  // ----- one visit -----

  lemma FreeConcat(a: bytes, b: bytes)
    ensures Esc.RawFree(a + b) <==> Esc.RawFree(a) && Esc.RawFree(b)
  {
    assert forall c :: c in a ==> c in a + b;
    assert forall c :: c in b ==> c in a + b;
  }

  lemma PlainFree(s: bytes)
    requires forall k :: 0 <= k < |s| ==> IsAlnum(s[k]) || s[k] == '-'
    ensures Esc.RawFree(s)
  {
  }

  /** The language is the one raw value. */
  lemma LanguageAttrFree(info: bytes)
    ensures TokenFree(Open("code", LanguageAttr(info))) <==> Esc.RawFree(Language(info))
  {
    if info == [] {
      assert Language(info) == "";
    } else {
      assert Esc.RawFree("language-");
      FreeConcat("language-", Language(info));
      hide Esc.RawFree, Skip;
      assert LanguageAttr(info)[0].value == "language-" + Language(info);
    }
  }

  lemma LinkFree(p: Params, d: LinkData)
    ensures TokenFree(Open("a", LinkAttrs(p, d))) && Esc.RawFree(EscapedLink(p, AddAbsPrefix(p, d.destination)))
    ensures d.title.Some? ==> Esc.RawFree(Esc.Escape(p.ents, d.title.value, false))
  {
    var dest := AddAbsPrefix(p, d.destination);
    Esc.EscapeIsRawFree(p.ents, Unescape.UnescapeText(p.names, dest), false);
    if d.title.Some? { Esc.EscapeIsRawFree(p.ents, d.title.value, false); }
    if dest != [] { PolicyFree(p.flags, dest); }
    hide Esc.RawFree, Esc.Escape, LinkPolicy, AddAbsPrefix, Unescape.UnescapeText;
  }

  lemma SpacedFree(a: bytes, b: bytes)
    requires Esc.RawFree(a) && Esc.RawFree(b)
    ensures Esc.RawFree(Spaced(a, b))
  {
    assert Esc.RawFree(" ");
    FreeConcat(a, b);
    FreeConcat(a, " ");
    FreeConcat(a + " ", b);
  }

  lemma PolicyWordsFree()
    ensures Esc.RawFree("") && Esc.RawFree("nofollow") && Esc.RawFree("noreferrer") && Esc.RawFree("noopener")
    ensures Esc.RawFree("_blank")
  {
  }

  lemma PolicyFree(f: HtmlFlags, link: bytes)
    requires link != []
    ensures forall k :: 0 <= k < |LinkPolicy(f, link)| ==> AttrFree(LinkPolicy(f, link)[k])
  {
    hide IsRelativeLink, Esc.RawFree, Spaced;
    PolicyWordsFree();
    var one := if f.nofollow then "nofollow" else "";
    var two := if f.noreferrer then "noreferrer" else "";
    var three := if f.noopener then "noopener" else "";
    SpacedFree(one, two);
    SpacedFree(Spaced(one, two), three);
  }

  lemma FragmentFree(prefix: bytes, s: bytes, head: bytes)
    requires Esc.RawFree(prefix) && Esc.RawFree(head)
    ensures Esc.RawFree(head + (prefix + Slug.Slugify(s))) && Esc.RawFree(head + prefix + Slug.Slugify(s))
  {
    PlainFree(Slug.Slugify(s));
    FreeConcat(prefix, Slug.Slugify(s));
    FreeConcat(head, prefix + Slug.Slugify(s));
    FreeConcat(head, prefix);
    FreeConcat(head + prefix, Slug.Slugify(s));
  }

  lemma FootnoteFree(p: Params, d: LinkData)
    requires Esc.RawFree(p.footnoteAnchorPrefix)
    ensures AttrsFree(FootnoteRef(p, d))
  {
    FragmentFree(p.footnoteAnchorPrefix, d.destination, "fnref:");
    FragmentFree(p.footnoteAnchorPrefix, d.destination, "#fn:");
    assert Esc.RawFree("footnote-ref");
    hide Esc.RawFree, Slug.Slugify;
  }

  lemma ItemFree(p: Params, d: ListData, entering: bool)
    requires Esc.RawFree(p.footnoteAnchorPrefix)
    ensures AttrsFree(ItemShape(p, d, entering))
  {
    if d.refLink.Some? {
      FragmentFree(p.footnoteAnchorPrefix, d.refLink.value, "fn:");
      FragmentFree(p.footnoteAnchorPrefix, d.refLink.value, "#fnref:");
      assert Esc.RawFree("footnote-return");
    }
    hide Esc.RawFree, Slug.Slugify;
  }

  /** What one visit writes, its heading id left out. */
  lemma VisitFree(p: Params, ns: seq<Node>, v: Walk.Visit)
    requires v.0 < |ns| && Esc.RawFree(p.footnoteAnchorPrefix)
    ensures AttrsFree(VisitShape(p, ns, v)) <==> LanguageFree(ns[v.0])
  {
    hide Esc.RawFree, AttrFree, LinkAttrs, FootnoteRef, ItemShape, LanguageAttr, Language, EscapedLink, AddAbsPrefix,
         SkipParagraph, NeedSkipLink, HeadingShape, Alignment, Esc.Escape, Slug.Slugify, HeadingTag, ListTag;
    var n := ns[v.0];
    match n.kind
    case Link => LinkFree(p, n.data.link); FootnoteFree(p, n.data.link);
    case Image => LinkFree(p, n.data.link);
    case Item => ItemFree(p, n.data.list, v.1);
    case Heading => HeadingFree(p, n.data.heading, v.1);
    case List => ListFree();
    case TableCell => AlignmentFree(n.data.cell.align);
    case CodeBlock =>
      LanguageAttrFree(n.data.codeBlock.info);
      var ts := VisitShape(p, ns, v);
      assert ts[1] == Open("code", LanguageAttr(n.data.codeBlock.info)) && |ts| == 5;
    case _ =>
  }

  lemma HeadingFree(p: Params, h: HeadingData, entering: bool)
    ensures AttrsFree(HeadingShape(p, h, entering))
  {
    assert Esc.RawFree("title") && Esc.RawFree("");
    hide HeadingTag, Esc.RawFree;
  }

  lemma AlignmentFree(a: CellAlign)
    ensures TokenFree(Open("th", Alignment(a))) && TokenFree(Open("td", Alignment(a)))
  {
    assert Esc.RawFree("center") && Esc.RawFree("left") && Esc.RawFree("right");
    hide Esc.RawFree;
  }

  lemma ListFree()
    ensures AttrFree(Attr("class", "footnotes"))
  {
  }

  // ----- a whole rendering -----

  lemma AttrsConcat(a: seq<Token>, b: seq<Token>)
    ensures AttrsFree(a + b) <==> AttrsFree(a) && AttrsFree(b)
  {
    hide TokenFree;
    if AttrsFree(a + b) {
      forall k | 0 <= k < |a| ensures TokenFree(a[k]) { assert (a + b)[k] == a[k]; }
      forall k | 0 <= k < |b| ensures TokenFree(b[k]) { assert (a + b)[|a| + k] == b[k]; }
    }
  }

  lemma OneTokenFree(t: Token)
    ensures AttrsFree([t]) <==> TokenFree(t)
  {
    assert [t][0] == t;
  }

  ghost predicate LanguagesFree(t: Tree, events: seq<Walk.Visit>)
    requires OnNodes(t, events)
  {
    forall k :: 0 <= k < |events| ==> LanguageFree(t.nodes[events[k].0])
  }

  lemma {:induction false} ShapesFree(p: Params, t: Tree, events: seq<Walk.Visit>)
    requires OnNodes(t, events) && Esc.RawFree(p.footnoteAnchorPrefix)
    ensures AttrsFree(Shapes(p, t, events)) <==> LanguagesFree(t, events)
  {
    if events != [] {
      var n := |events| - 1;
      ShapesFree(p, t, events[..n]);
      VisitFree(p, t.nodes, events[n]);
      AttrsConcat(Shapes(p, t, events[..n]), VisitShape(p, t.nodes, events[n]));
      hide AttrsFree, VisitShape, LanguageFree, Esc.RawFree;
      if LanguagesFree(t, events) {
        forall k | 0 <= k < n ensures LanguageFree(t.nodes[events[..n][k].0]) { assert events[..n][k] == events[k]; }
      }
      if LanguagesFree(t, events[..n]) && LanguageFree(t.nodes[events[n].0]) {
        forall k | 0 <= k <= n ensures LanguageFree(t.nodes[events[k].0]) {
          if k < n { assert events[..n][k] == events[k]; }
        }
      }
    }
  }

  ghost predicate AllFree(ids: seq<bytes>) {
    forall k :: 0 <= k < |ids| ==> Esc.RawFree(ids[k])
  }

  lemma AllConcat(a: seq<bytes>, b: seq<bytes>)
    ensures AllFree(a + b) <==> AllFree(a) && AllFree(b)
  {
    hide Esc.RawFree;
    if AllFree(a + b) {
      forall k | 0 <= k < |a| ensures Esc.RawFree(a[k]) { assert (a + b)[k] == a[k]; }
      forall k | 0 <= k < |b| ensures Esc.RawFree(b[k]) { assert (a + b)[|a| + k] == b[k]; }
    }
  }

  lemma OneFree(id: bytes)
    ensures AllFree([id]) <==> Esc.RawFree(id)
  {
    assert [id][0] == id;
  }

  /** An attribute list, its heading ids apart. */
  lemma {:induction false} AttrIdsFree(attrs: seq<Attr>)
    ensures (forall k :: 0 <= k < |attrs| ==> AttrFree(attrs[k]))
       <==> (forall k :: 0 <= k < |attrs| ==> AttrFree(BlankAttr(attrs[k]))) && AllFree(AttrIds(attrs))
  {
    if attrs != [] {
      var n := |attrs| - 1;
      AttrIdsFree(attrs[..n]);
      var last := if attrs[n].HeadingId? then [attrs[n].id] else [];
      AllConcat(AttrIds(attrs[..n]), last);
      OneFree(if attrs[n].HeadingId? then attrs[n].id else "");
      assert Esc.RawFree("");
      assert forall k :: 0 <= k < n ==> attrs[..n][k] == attrs[k];
      hide Esc.RawFree, AttrIds, AllFree;
    }
  }

  lemma TokenIdsFree(t: Token)
    ensures TokenFree(t) <==> TokenFree(Blank(t)) && AllFree(TokenIds(t))
  {
    if t.Open? {
      AttrIdsFree(t.attrs);
      var blank := Blank(t).attrs;
      assert forall k :: 0 <= k < |blank| ==> blank[k] == BlankAttr(t.attrs[k]);
      hide AttrFree, AllFree, AttrIds, BlankAttr;
    }
  }

  /** The written attributes are free exactly when those of the shape and the ids are. */
  lemma {:induction false} WordFree(ts: seq<Token>)
    ensures AttrsFree(ts) <==> AttrsFree(Blanked(ts)) && AllFree(IdsOf(ts))
  {
    if ts != [] {
      var n := |ts| - 1;
      WordFree(ts[..n]);
      TokenIdsFree(ts[n]);
      AllConcat(IdsOf(ts[..n]), TokenIds(ts[n]));
      assert ts == ts[..n] + [ts[n]];
      AttrsConcat(ts[..n], [ts[n]]);
      BlankedConcat(ts[..n], [ts[n]]);
      AttrsConcat(Blanked(ts[..n]), Blanked([ts[n]]));
      assert Blanked([ts[n]]) == [Blank(ts[n])];
      OneTokenFree(ts[n]);
      OneTokenFree(Blank(ts[n]));
      hide TokenFree, AttrsFree, Blank, AllFree, TokenIds, Blanked;
    }
  }

  /** Making an id unique adds dashes and digits only. */
  lemma {:induction false} UniqueFree(ids: HeadingIds.Ids, id: bytes)
    ensures Esc.RawFree(HeadingIds.UniqueId(ids, id).0) <==> Esc.RawFree(id)
    decreases HeadingIds.Ahead(ids, id)
  {
    if id in ids {
      var n := ids[id] + 1;
      NumberFree(id, n);
      if HeadingIds.Numbered(id, n) in ids {
        FreeConcat(id, "-1");
        HeadingIds.SearchShrinks(ids, id, id + "-1");
        hide Esc.RawFree, HeadingIds.Numbered;
        UniqueFree(ids, id + "-1");
      }
    }
  }

  lemma NumberFree(id: bytes, n: nat)
    ensures Esc.RawFree(HeadingIds.Numbered(id, n)) <==> Esc.RawFree(id)
  {
    PlainFree(HeadingIds.Decimal(n));
    FreeConcat(id, "-");
    FreeConcat(id + "-", HeadingIds.Decimal(n));
  }

  lemma {:induction false} GrantFree(ids: HeadingIds.Ids, requests: seq<bytes>)
    ensures AllFree(HeadingIds.Grant(ids, requests).0) <==> AllFree(requests)
  {
    if requests != [] {
      var n := |requests| - 1;
      GrantFree(ids, requests[..n]);
      var (before, ids') := HeadingIds.Grant(ids, requests[..n]);
      UniqueFree(ids', requests[n]);
      var r := HeadingIds.UniqueId(ids', requests[n]).0;
      AllConcat(before, [r]);
      AllConcat(requests[..n], [requests[n]]);
      assert requests[..n] + [requests[n]] == requests;
      OneFree(r);
      OneFree(requests[n]);
      hide Esc.RawFree, AllFree, HeadingIds.UniqueId;
    }
  }

  /** Every attribute value of a rendering is free of markup, exactly when that is so of
      the language of every code block written and of every heading id asked for: those
      two are written as they are, everything else is escaped or fixed. */
  lemma RenderedAttrs(p: Params, t: Tree, root: NodeId, out: seq<Token>, ids: HeadingIds.Ids)
    requires t.Valid() && root < |t.nodes| && Esc.RawFree(p.footnoteAnchorPrefix)
    requires Blanked(out) == TreeShape(p, t, root)
    requires IdsOf(out) == HeadingIds.Grant(ids, Html.TreeRequests(p, t, root)).0
    ensures OnNodes(t, Walk.Events(t, root, Visitor(p, t.nodes)))
    ensures AttrsFree(out) <==> LanguagesFree(t, Walk.Events(t, root, Visitor(p, t.nodes)))
                                && AllFree(Html.TreeRequests(p, t, root))
  {
    EventsOnNodes(t, root, Visitor(p, t.nodes));
    WordFree(out);
    ShapesFree(p, t, Walk.Events(t, root, Visitor(p, t.nodes)));
    GrantFree(ids, Html.TreeRequests(p, t, root));
    hide AttrsFree, AllFree, LanguagesFree, Walk.Events, Shapes, Html.TreeRequests, HeadingIds.Grant, Blanked, IdsOf;
  }

  /** A fence's language word may hold a quote. */
  lemma RawLanguage()
    ensures !Esc.RawFree(Language("a\"b c"))
  {
    SkipUnique("a\"b c", 0, NotBlank(), 3);
    var word := Language("a\"b c");
    assert word[1] == '\"' && word[1] in word;
  }

  /** So may a heading's own id: `# x{#"}`. */
  lemma RawHeadingId(ext: Extensions)
    requires ext.headingIds
    ensures HeadingMark(ext, "# x{#\"}\n") && !Esc.RawFree(AtxParts(ext, "# x{#\"}\n").id)
  {
    var d := "# x{#\"}\n";
    hide Skip, SkipUpTo, IdOpen, IdClose, HeadingText, TrimBack;
    MarkOfRaw(d);
    IdOfRaw(d);
    var id := AtxParts(ext, d).id;
    assert id[0] == d[5] && id[0] in id;
  }

  lemma MarkOfRaw(d: bytes)
    requires d == "# x{#\"}\n"
    ensures SkipUpTo(d, 0, 6, '#') == 1 && Skip(d, 1, Is(' ')) == 2 && LineEnd(d, 2) == 7
  {
    assert SkipUpTo(d, 1, 6, '#') == 1;
    hide Skip, SkipUpTo;
    SkipUnique(d, 1, Is(' '), 2);
    SkipUnique(d, 2, Not('\n'), 7);
  }

  lemma IdOfRaw(d: bytes)
    requires d == "# x{#\"}\n"
    ensures IdOpen(d, 2, 7) == 3 && IdClose(d, 4, 7) == 6
  {
    assert IdOpen(d, 3, 7) == 3;
    assert IdClose(d, 6, 7) == 6 && IdClose(d, 5, 7) == 6;
  }
}
