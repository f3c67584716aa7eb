/** Paragraphs and underlined headings (src/block.rs). */
module Paragraph {
  import opened Bytes
  import opened Node
  import opened Growth
  import opened BlockScan
  import opened MD = Markdown
  import opened BlockLeaf
  import Fence
  import HtmlBlock
  import References
  import opened Outline

  /** What ends a paragraph at the start of a line, apart from a definition, a
      blank line and an underline. */
  predicate StopsParagraph(ext: Extensions, uni: Unicode, data: bytes)
    requires data != []
  {
    || (ext.laxHtmlBlocks && data[0] == '<' && HtmlBlock.HtmlSize(data, true) > 0)
    || HeadingMark(ext, data) || Hrule(data)
    || (ext.fencedCode && Fence.FencedSize(uni, data) > 0)
    || (ext.noEmptyLineBeforeBlock
        && (UliLen(data) != 0 || OliLen(data) != 0 || QuoteLen(data) != 0 || CodeLen(data) != 0))
  }

  /** A line that is not blank keeps the unguarded scans in range. */
  lemma NotBlankHasText(data: bytes, end: nat)
    requires data != [] && BlankLen(data) == 0 && NextLine(data, 0) <= end <= |data|
    ensures SkipUpTo(data, 0, 3, ' ') < |data|
    ensures HasText(data[..end])
  {
    var s := Skip(data, 0, IsBlank);
    assert s < |data| && data[s] != ' ' && s < NextLine(data, 0);
    assert data[..end][s] == data[s];
  }

  /** How a line relates to the paragraph before it. */
  datatype Line = Goes | Definition(n: nat) | Blank(n: nat) | Underline(level: nat) | Stops

  function TabSize(ext: Extensions): nat { if ext.tabSizeEight then 8 else 4 }

  /** The line at `i`, by the checks in the dispatcher's order. */
  function LineAt(ext: Extensions, uni: Unicode, data: bytes, i: nat): Line
    requires i < |data|
  {
    var current := data[i..];
    var n := References.DefinitionSize(current, ext.footnotes, TabSize(ext));
    if n > 0 then Definition(n)
    else if BlankLen(current) > 0 then Blank(BlankLen(current))
    else if i > 0 && UnderlineLevel(current) > 0 then Underline(UnderlineLevel(current))
    else if StopsParagraph(ext, uni, current) then Stops
    else Goes
  }

  /** The checks on the line at `i`.  A definition is registered; nothing else changes. */
  method ClassifyLine(m: Markdown, data: bytes, i: nat, ghost e: NodeId) returns (r: Line)
    requires Ready(m, e) && i < |data| && Terminated(data)
    modifies m
    ensures Ready(m, e) && m.Frame() == old(m.Frame()) && m.arena.T() == old(m.arena.T())
    ensures fresh(m.handles - old(m.handles)) && (!r.Definition? ==> m.handles == old(m.handles))
    ensures r == LineAt(m.ext, m.uni, data, i) && (r.Definition? ==> r.n <= |data| - i)
  {
    hide Good, StopsParagraph, References.DefinitionSize, References.IsDefinition, References.Defines,
         References.HeadAt, References.Spacer, BlankLen, UnderlineLevel;
    var current := data[i..];
    TerminatedSuffix(data, i);
    var refEnd := References.IsReference(m, current, TabSize(m.ext));
    if refEnd > 0 { return Definition(refEnd); }
    var n := IsEmpty(current);
    if n > 0 { return Blank(n); }
    if i > 0 {
      var level := IsUnderlinedHeading(current);
      if level > 0 { return Underline(level); }
    }
    var stops := Interrupts(m, current);
    return if stops then Stops else Goes;
  }

  /** Whether another construct starts on a line that is not blank.  The HTML and
      fence parsers are asked for the size only. */
  method Interrupts(m: Markdown, current: bytes) returns (r: bool)
    requires current != [] && BlankLen(current) == 0
    ensures r == StopsParagraph(m.ext, m.uni, current)
  {
    hide HtmlBlock.HtmlSize, Fence.FencedSize, Hrule, HeadingMark, BlankLen;
    if m.ext.laxHtmlBlocks && current[0] == '<' {
      var n := HtmlBlock.ScanHtml(current, m.ext.laxHtmlBlocks);
      if n > 0 { return true; }
    }
    var heading := IsPrefixHeading(m.ext, current);
    if heading { return true; }
    NotBlankHasText(current, |current|);
    var rule := IsHrule(current);
    if rule { return true; }
    r := InterruptsRest(m, current);
  }

  method InterruptsRest(m: Markdown, current: bytes) returns (r: bool)
    requires current != []
    ensures r == ((m.ext.fencedCode && Fence.FencedSize(m.uni, current) > 0)
                  || (m.ext.noEmptyLineBeforeBlock && (UliLen(current) != 0 || OliLen(current) != 0
                                                       || QuoteLen(current) != 0 || CodeLen(current) != 0)))
  {
    hide UliLen, OliLen, QuoteLen, CodeLen, Fence.FenceAt, Fence.CloseFence;
    if m.ext.fencedCode {
      var block, body := Fence.ScanFenced(m.uni, current, false);
      if block.Some? { return true; }
    }
    if m.ext.noEmptyLineBeforeBlock {
      var u := UliPrefix(current);
      if u != 0 { return true; }
      var o := OliPrefix(current);
      if o != 0 { return true; }
      var q := QuotePrefix(current);
      if q != 0 { return true; }
      var c := CodePrefix(current);
      return c != 0;
    }
    return false;
  }

  // ----- underlined headings -----

  function SpaceStart(data: bytes, beg: nat, end: nat): (r: nat)
    requires beg <= end <= |data|
    ensures beg <= r <= end
    decreases end - beg
  {
    if beg < end && data[beg] == ' ' then SpaceStart(data, beg + 1, end) else beg
  }

  /** The heading text: the line before the underline, without spaces around it. */
  function SetextText(data: bytes, prev: nat, i: nat): bytes
    requires prev < i <= |data|
  {
    var a := SpaceStart(data, prev, i - 1);
    data[a..TrimTo(data, a, i - 1)]
  }

  method ScanSetext(data: bytes, prev: nat, i: nat) returns (text: bytes)
    requires prev < i <= |data|
    ensures text == SetextText(data, prev, i)
  {
    var a, eol := prev, i - 1;
    while a < eol && data[a] == ' '
      invariant prev <= a <= eol && SpaceStart(data, a, eol) == SpaceStart(data, prev, eol)
    {
      a := a + 1;
    }
    while eol > a && data[eol - 1] == ' '
      invariant a <= eol <= i - 1 && TrimTo(data, a, eol) == TrimTo(data, a, i - 1)
    {
      eol := eol - 1;
    }
    return data[a..eol];
  }

  /** The lines before a heading or a stop, as a paragraph. */
  method Emit(m: Markdown, data: bytes, ghost e: NodeId)
    requires Ready(m, e) && (data != [] ==> HasText(data))
    modifies m`tip, m`oldTip, m`allClosed, m.arena
    ensures Ready(m, e) && m.arena.level[e] == old(m.arena.level)[e]
    ensures BlockGrown(old(m.arena.T()), m.arena.T(), e, old(m.arena.level)[e] + 1)
    ensures data == [] ==> m.arena.T() == old(m.arena.T())
    ensures data != [] ==> LeafIs(old(m.arena.T()), m.arena.T(), e, m.tip, NodeType.Paragraph,
                                  NoData.(content := ParagraphText(data)))
  {
    ghost var t := m.arena.T();
    RenderParagraph(m, data, e);
    LevelStays(t, m.arena.T(), e, t.level[e] + 1);
  }

  /** The last child of `e` is a new leaf with this payload. */
  ghost predicate LeafIs(t0: Tree, t: Tree, e: NodeId, node: NodeId, kind: NodeType, d: Data) {
    Markdown.Added(t0, t, e, node, kind) && t.nodes[node].data == d
  }

  method EmitHeading(m: Markdown, d: Data, ghost e: NodeId)
    requires Ready(m, e) && BlockNode(Node(Heading, NoLinks, true, d))
    modifies m`tip, m`oldTip, m`allClosed, m.arena
    ensures Ready(m, e)
    ensures BlockGrown(old(m.arena.T()), m.arena.T(), e, old(m.arena.level)[e] + 1)
    ensures LeafIs(old(m.arena.T()), m.arena.T(), e, m.tip, Heading, d)
  {
    var node := AddLeaf(m, Heading, d, e);
  }

  function SetextData(m: Markdown, data: bytes, prev: nat, i: nat, level: nat): Data
    requires prev < i <= |data|
  {
    var text := SetextText(data, prev, i);
    NoData.(content := text,
            heading := HeadingData(level, if m.ext.autoHeadingIds then m.uni.anchor(text) else "", false))
  }

  lemma SetextNode(m: Markdown, data: bytes, prev: nat, i: nat, level: nat)
    requires prev < i <= |data| && level > 0
    ensures BlockNode(Node(Heading, NoLinks, true, SetextData(m, data, prev, i, level)))
  {
  }

  method ReadSetext(m: Markdown, data: bytes, prev: nat, i: nat, level: nat) returns (d: Data)
    requires prev < i <= |data|
    ensures d == SetextData(m, data, prev, i, level)
  {
    var text := ScanSetext(data, prev, i);
    var id := "";
    if m.ext.autoHeadingIds { id := m.uni.anchor(text); }
    d := NoData.(content := text, heading := HeadingData(level, id, false));
  }

  lemma LevelStays(t: Tree, u: Tree, e: NodeId, b: nat)
    requires BlockGrown(t, u, e, b)
    ensures e < |t.level| && e < |u.level| && u.level[e] == t.level[e]
  {
    assert Same(t, u, e);
  }

  // ----- the paragraph -----

  /** Where a paragraph scan ends: the start of the line before, the position, and what
      the line there is; `Goes` stands for the end of the data. */
  datatype Scan = Scan(prev: nat, i: nat, line: Line)

  /** The scan from the line at `i`, with `prev` the start of the line before it. */
  function ScanFrom(ext: Extensions, uni: Unicode, data: bytes, prev: nat, i: nat): (r: Scan)
    requires prev <= i <= |data| && (i > 0 ==> prev < i)
    ensures i <= r.i <= |data| && r.prev <= r.i && (r.i > 0 ==> r.prev < r.i)
    ensures r.line.Goes? <==> r.i == |data|
    ensures r.i < |data| ==> r.line == LineAt(ext, uni, data, r.i)
    decreases |data| - i
  {
    if i == |data| then Scan(prev, i, Goes)
    else
      var line := LineAt(ext, uni, data, i);
      if line.Goes? then
        hide LineAt;
        ScanFrom(ext, uni, data, i, NextLine(data, i))
      else
        hide LineAt;
        Scan(prev, i, line)
  }

  /** The text before `i` as a paragraph, if there is any. */
  function TextPart(data: bytes, i: nat): seq<Part>
    requires i <= |data|
  {
    if i > 0 then [Leaf(NodeType.Paragraph, NoData.(content := ParagraphText(data[..i])))] else []
  }

  /** What a paragraph comes to: how much it takes, and the nodes it makes.  An underline
      makes a heading of the line before it. */
  function ParagraphParts(m: Markdown, data: bytes): (nat, seq<Part>)
    requires data != []
  {
    PartsFrom(m, data, ScanFrom(m.ext, m.uni, data, 0, 0))
  }

  function PartsFrom(m: Markdown, data: bytes, s: Scan): (nat, seq<Part>)
    requires s.prev <= s.i <= |data| && (s.i > 0 ==> s.prev < s.i)
  {
    match s.line
    case Underline(level) =>
      if s.i == 0 then (0, [])
      else
        (LineEnd(data, s.i),
         TextPart(data, s.prev) + [Leaf(Heading, SetextData(m, data, s.prev, s.i, level))])
    case Definition(k) => (s.i + k, TextPart(data, s.i))
    case Blank(k) => (s.i + k, TextPart(data, s.i))
    case _ => (s.i, TextPart(data, s.i))
  }

  /** The first line, once passed, is text. */
  lemma {:induction false} ScanIsText(ext: Extensions, uni: Unicode, data: bytes, prev: nat, i: nat)
    requires prev <= i <= |data| && (i > 0 ==> prev < i) && data != []
    requires i > 0 ==> BlankLen(data) == 0 && NextLine(data, 0) <= i
    requires prev > 0 ==> NextLine(data, 0) <= prev
    ensures var s := ScanFrom(ext, uni, data, prev, i);
            && (s.i > 0 ==> HasText(data[..s.i])) && (s.prev > 0 ==> HasText(data[..s.prev]))
    decreases |data| - i
  {
    hide NextLine, HasText;
    var s := ScanFrom(ext, uni, data, prev, i);
    if i < |data| && LineAt(ext, uni, data, i).Goes? {
      if i == 0 { assert data[0..] == data; }
      hide LineAt;
      ScanIsText(ext, uni, data, i, NextLine(data, i));
    } else {
      hide LineAt;
      if i > 0 { NotBlankHasText(data, i); }
      if prev > 0 { NotBlankHasText(data, prev); }
    }
  }

  /** A paragraph takes nothing only when something else starts at its first line, which
      is not blank then. */
  lemma ParagraphTakes(m: Markdown, data: bytes)
    requires data != []
    ensures ParagraphParts(m, data).0 == 0 ==> BlankLen(data) == 0 && StopsParagraph(m.ext, m.uni, data)
  {
    assert data[0..] == data;
    var s := ScanFrom(m.ext, m.uni, data, 0, 0);
    hide StopsParagraph, BlankLen, UnderlineLevel, References.DefinitionSize, ScanFrom, SetextData;
    if s.i == 0 { assert s.line == LineAt(m.ext, m.uni, data, 0); }
  }

  /** It takes no more than there is. */
  lemma ParagraphFits(m: Markdown, data: bytes)
    requires data != []
    ensures ParagraphParts(m, data).0 <= |data|
  {
    hide LineAt, TextPart, SetextData;
    var s := ScanFrom(m.ext, m.uni, data, 0, 0);
    LineFits(m.ext, m.uni, data, s);
    DefinitionFits(m.ext, m.uni, data, s);
    hide ScanFrom;
  }

  lemma DefinitionFits(ext: Extensions, uni: Unicode, data: bytes, s: Scan)
    requires s.i <= |data| && (s.line.Goes? <==> s.i == |data|)
    requires s.i < |data| ==> s.line == LineAt(ext, uni, data, s.i)
    ensures s.line.Definition? ==> s.line.n <= |data| - s.i
  {
    hide StopsParagraph, References.DefinitionSize, BlankLen, UnderlineLevel;
    if s.i < |data| { References.DefinitionInData(data[s.i..], ext.footnotes, TabSize(ext)); }
  }

  /** The lines before `i` as a paragraph, if there are any. */
  method EndInText(m: Markdown, data: bytes, i: nat, ghost e: NodeId)
    requires Ready(m, e) && i <= |data| && (i > 0 ==> HasText(data[..i]))
    modifies m`tip, m`oldTip, m`allClosed, m.arena
    ensures Ready(m, e)
    ensures BlockGrown(old(m.arena.T()), m.arena.T(), e, old(m.arena.level)[e] + 1)
    ensures Gains(old(m.arena.T()), m.arena.T(), e, TextPart(data, i))
  {
    hide BlockGrown, Good, HasText, LeafIs, ParagraphText, Gains;
    ghost var t := m.arena.T();
    NothingYet(m, e);
    Emit(m, data[..i], e);
    if i > 0 {
      assert |data[..i]| == i;
      LeafGained(t, m.arena.T(), e, m.tip, NodeType.Paragraph, NoData.(content := ParagraphText(data[..i])));
    }
  }

  lemma NothingYet(m: Markdown, e: NodeId)
    requires Ready(m, e)
    ensures Gains(m.arena.T(), m.arena.T(), e, [])
  {
  }

  lemma LeafGained(t: Tree, u: Tree, e: NodeId, node: NodeId, kind: NodeType, d: Data)
    requires LeafIs(t, u, e, node, kind, d)
    ensures Gains(t, u, e, [Leaf(kind, d)])
  {
    GainsLeaf(t, u, e, node, kind, d);
  }

  /** A paragraph and the heading underlined at `i`. */
  method EndInHeading(m: Markdown, data: bytes, prev: nat, i: nat, level: nat, ghost e: NodeId) returns (n: nat)
    requires Ready(m, e) && prev < i < |data| && level > 0 && (prev > 0 ==> HasText(data[..prev]))
    modifies m`tip, m`oldTip, m`allClosed, m.arena
    ensures n == LineEnd(data, i)
    ensures Ready(m, e)
    ensures BlockGrown(old(m.arena.T()), m.arena.T(), e, old(m.arena.level)[e] + 1)
    ensures Gains(old(m.arena.T()), m.arena.T(), e,
                  TextPart(data, prev) + [Leaf(Heading, SetextData(m, data, prev, i, level))])
  {
    hide BlockGrown, Good, HasText, SetextData, ParagraphText, LeafIs, Gains, TextPart, Markdown.Valid, Tree.Valid,
         EdgesOk, Markdown.Added, BlockNode;
    ghost var t0 := m.arena.T();
    ReadyRange(m, e);
    ghost var b := t0.level[e] + 1;
    EndInText(m, data, prev, e);
    ghost var t1 := m.arena.T();
    LevelStays(t0, t1, e, b);
    var d := ReadSetext(m, data, prev, i, level);
    SetextNode(m, data, prev, i, level);
    EmitHeading(m, d, e);
    LeafGained(t1, m.arena.T(), e, m.tip, Heading, d);
    GrowthOn(t0, t1, m.arena.T(), e, b, b, TextPart(data, prev), [Leaf(Heading, d)]);
    n := SkipUntilChar(data, i, '\n');
  }

  /** One more growth at the same place. */
  lemma GrowthOn(t: Tree, u: Tree, v: Tree, e: NodeId, b: nat, c: nat, x: seq<Part>, y: seq<Part>)
    requires BlockGrown(t, u, e, b) && BlockGrown(u, v, e, c) && c <= b && Gains(t, u, e, x) && Gains(u, v, e, y)
    ensures BlockGrown(t, v, e, b) && Gains(t, v, e, x + y)
  {
    BlockGrownTrans(t, u, v, e, e, b, c);
    GrownSpares(u, v, e);
    GainsMore(t, u, v, e, x, y);
  }

  /** What the scan says of its line fits the data. */
  ghost predicate ScanFits(data: bytes, s: Scan) {
    && s.prev <= s.i <= |data| && (s.i > 0 ==> s.prev < s.i)
    && (s.i > 0 ==> HasText(data[..s.i])) && (s.prev > 0 ==> HasText(data[..s.prev]))
    && (s.line.Definition? ==> s.line.n <= |data| - s.i) && (s.line.Blank? ==> s.line.n <= |data| - s.i)
    && (s.line.Underline? ==> 0 < s.i < |data| && s.line.level > 0)
  }

  /** Emits the paragraph (and heading) that ends where the scan did. */
  method EndParagraph(m: Markdown, data: bytes, s: Scan, ghost e: NodeId) returns (n: nat)
    requires Ready(m, e) && ScanFits(data, s)
    modifies m`tip, m`oldTip, m`allClosed, m.arena
    ensures n <= |data| && n == PartsFrom(m, data, s).0
    ensures Ready(m, e)
    ensures BlockGrown(old(m.arena.T()), m.arena.T(), e, old(m.arena.level)[e] + 1)
    ensures Gains(old(m.arena.T()), m.arena.T(), e, PartsFrom(m, data, s).1)
  {
    hide BlockGrown, Good, HasText, Markdown.Valid, Gains, TextPart, SetextData;
    match s.line
    case Underline(level) => n := EndInHeading(m, data, s.prev, s.i, level, e);
    case Definition(k) =>
      EndInText(m, data, s.i, e);
      n := s.i + k;
    case Blank(k) =>
      EndInText(m, data, s.i, e);
      n := s.i + k;
    case _ =>
      EndInText(m, data, s.i, e);
      n := s.i;
  }

  lemma LineFits(ext: Extensions, uni: Unicode, data: bytes, s: Scan)
    requires s.i <= |data| && (s.line.Goes? <==> s.i == |data|)
    requires s.i < |data| ==> s.line == LineAt(ext, uni, data, s.i)
    ensures s.line.Blank? ==> s.line.n <= |data| - s.i
    ensures s.line.Underline? ==> 0 < s.i < |data| && s.line.level > 0
  {
    hide StopsParagraph, References.DefinitionSize;
  }

  lemma ParagraphScan(m: Markdown, data: bytes, s: Scan)
    requires data != [] && s == ScanFrom(m.ext, m.uni, data, 0, 0)
    requires s.line.Definition? ==> s.line.n <= |data| - s.i
    ensures ScanFits(data, s) && ParagraphParts(m, data) == PartsFrom(m, data, s)
  {
    hide HasText, PartsFrom, LineAt, TextPart, SetextData;
    ScanIsText(m.ext, m.uni, data, 0, 0);
    LineFits(m.ext, m.uni, data, s);
    hide ScanFrom;
  }

  /** Passes over text lines, up to a line that ends the paragraph. */
  method ScanLines(m: Markdown, data: bytes, ghost e: NodeId) returns (s: Scan)
    requires Ready(m, e) && data != [] && Terminated(data)
    modifies m
    ensures s == ScanFrom(m.ext, m.uni, data, 0, 0) && (s.line.Definition? ==> s.line.n <= |data| - s.i)
    ensures Ready(m, e) && m.Frame() == old(m.Frame()) && m.arena.T() == old(m.arena.T())
    ensures fresh(m.handles - old(m.handles))
  {
    ghost var t0, frame := m.arena.T(), m.Frame();
    hide BlockGrown, Good, LineAt, Markdown.Valid;
    var prev: nat, i: nat := 0, 0;
    while i < |data|
      invariant prev <= i <= |data| && (i > 0 ==> prev < i)
      invariant ScanFrom(m.ext, m.uni, data, prev, i) == ScanFrom(m.ext, m.uni, data, 0, 0)
      invariant Ready(m, e) && m.arena.T() == t0 && m.Frame() == frame && m.handles == old(m.handles)
      decreases |data| - i
    {
      var r := ClassifyLine(m, data, i, e);
      if !r.Goes? { return Scan(prev, i, r); }
      prev := i;
      i := NextLineStart(data, i);
    }
    s := Scan(prev, i, Goes);
  }

  /** A paragraph, from a line the dispatcher left to it. */
  method Paragraph(m: Markdown, data: bytes, ghost e: NodeId) returns (n: nat)
    requires Ready(m, e) && data != [] && Terminated(data)
    modifies m, m.arena
    ensures n <= |data| && n == ParagraphParts(m, data).0
    ensures n == 0 ==> BlankLen(data) == 0 && StopsParagraph(m.ext, m.uni, data)
    ensures Ready(m, e) && m.Frame() == old(m.Frame())
    ensures BlockGrown(old(m.arena.T()), m.arena.T(), e, old(m.arena.level)[e] + 1)
    ensures Gains(old(m.arena.T()), m.arena.T(), e, ParagraphParts(m, data).1)
    ensures fresh(m.handles - old(m.handles))
  {
    hide BlockGrown, Good, StopsParagraph, BlankLen, ScanFits, ScanFrom, PartsFrom, Markdown.Valid, Gains,
         ParagraphParts;
    ParagraphTakes(m, data);
    var s := ScanLines(m, data, e);
    ParagraphScan(m, data, s);
    n := EndParagraph(m, data, s, e);
  }
}
