/** The block parser (src/block.rs): the dispatcher and the constructs that recurse
    through it. */
module Block {
  import opened Bytes
  import opened Node
  import opened Growth
  import opened BlockScan
  import opened MD = Markdown
  import opened BlockLeaf
  import BlockTable
  import Fence
  import HtmlBlock
  import opened BlockSpec
  import opened ListScan
  import opened Outline
  import opened QuoteScan
  import Paragraph

  // ----- bounds -----

  /** Depth allowed below `e` for a construct parsed at the current nesting. */
  ghost function ConstructBound(m: Markdown, e: NodeId): nat
    requires m.nesting <= m.maxNesting && e < |m.arena.level|
    reads m, m.arena
  {
    m.arena.level[e] + 2 * (m.maxNesting - m.nesting) + 4
  }

  /** Depth allowed below `e` for a whole block run at the current nesting. */
  ghost function BlockBound(m: Markdown, e: NodeId): nat
    requires m.nesting <= m.maxNesting && e < |m.arena.level|
    reads m, m.arena
  {
    m.arena.level[e] + 2 * (m.maxNesting - m.nesting) + 2
  }

  // ----- leaves -----

  lemma GrownRefl(t: Tree, e: NodeId, b: nat)
    requires t.Valid() && e < |t.nodes|
    ensures BlockGrown(t, t, e, b)
  {
  }

  /** An ATX heading, if one starts here. */
  method HeadingStep(m: Markdown, data: bytes, ghost e: NodeId) returns (n: nat)
    requires Ready(m, e) && data != [] && Terminated(data)
    modifies m`tip, m`oldTip, m`allClosed, m.arena
    ensures n <= |data| && Ready(m, e)
    ensures BlockGrown(old(m.arena.T()), m.arena.T(), e, old(m.arena.level)[e] + 1)
    ensures n == 0 ==> m.arena.T() == old(m.arena.T())
    ensures n == 0 <==> !HeadingMark(m.ext, data)
    ensures n > 0 ==> n == AtxParts(m.ext, data).skip && Gains(old(m.arena.T()), m.arena.T(), e, AtxPart(m, data))
  {
    ghost var t := m.arena.T();
    GrownRefl(m.arena.T(), e, m.arena.level[e] + 1);
    hide BlockGrown, Tree.Valid, EdgesOk, TipBelow;
    var heading := IsPrefixHeading(m.ext, data);
    if !heading { return 0; }
    HeadingConsumes(m.ext, data);
    assert data[0] == '#';
    hide AtxParts, HeadingMark, Gains;
    n := PrefixHeading(m, data, e);
    AtxGained(m, data, t, e);
  }

  lemma AtxGained(m: Markdown, data: bytes, t: Tree, e: NodeId)
    requires var h := AtxParts(m.ext, data);
             if h.from < h.to then
               Markdown.Added(t, m.arena.T(), e, m.tip, Heading) && m.arena.nodes[m.tip].data == AtxData(m, data)
             else m.arena.T() == t && e < |t.kids|
    ensures Gains(t, m.arena.T(), e, AtxPart(m, data))
  {
    hide AtxParts, Gains;
    var h := AtxParts(m.ext, data);
    if h.from < h.to {
      GainsLeaf(t, m.arena.T(), e, m.tip, Heading, AtxData(m, data));
    } else {
      GainsNothing(t, t, e);
    }
  }

  /** A block of preformatted HTML, if one starts here. */
  method HtmlStep(m: Markdown, data: bytes, ghost e: NodeId) returns (n: nat)
    requires Ready(m, e) && data != [] && Terminated(data)
    modifies m`tip, m`oldTip, m`allClosed, m.arena
    ensures n <= |data| && Ready(m, e)
    ensures BlockGrown(old(m.arena.T()), m.arena.T(), e, old(m.arena.level)[e] + 1)
    ensures n == 0 ==> m.arena.T() == old(m.arena.T())
    ensures n == 0 <==> (data[0] == '<' ==> HtmlBlock.HtmlSize(data, m.ext.laxHtmlBlocks) == 0)
    ensures n > 0 ==> n == HtmlBlock.HtmlSize(data, m.ext.laxHtmlBlocks)
                      && Gains(old(m.arena.T()), m.arena.T(), e, HtmlPart(data, n))
  {
    hide *;
    ReadyRange(m, e);
    NothingGrown(m, e, m.arena.level[e] + 1);
    ghost var t := m.arena.T();
    if data[0] != '<' { return 0; }
    HtmlFits(data, m.ext.laxHtmlBlocks);
    n := Html(m, data, true, e);
    if n > 0 { HtmlGained(m, data, n, t, e); }
  }

  lemma HtmlFits(data: bytes, lax: bool)
    requires data != []
    ensures HtmlBlock.HtmlSize(data, lax) <= |data|
  {
  }

  lemma HtmlGained(m: Markdown, data: bytes, n: nat, t: Tree, e: NodeId)
    requires n <= |data| && Markdown.Added(t, m.arena.T(), e, m.tip, HTMLBlock)
    requires m.arena.nodes[m.tip].data == NoData.(literal := HtmlBlock.WithoutNewlines(data[..n]))
    ensures Gains(t, m.arena.T(), e, HtmlPart(data, n))
  {
    hide Markdown.Added, Gains;
    GainsLeaf(t, m.arena.T(), e, m.tip, HTMLBlock, NoData.(literal := HtmlBlock.WithoutNewlines(data[..n])));
  }

  /** A title block, if the extension is on and one starts here. */
  method TitleStep(m: Markdown, data: bytes, ghost e: NodeId) returns (n: nat)
    requires Ready(m, e) && data != [] && Terminated(data)
    modifies m`tip, m`oldTip, m`allClosed, m.arena
    ensures n <= |data| && Ready(m, e)
    ensures BlockGrown(old(m.arena.T()), m.arena.T(), e, old(m.arena.level)[e] + 1)
    ensures n == 0 ==> m.arena.T() == old(m.arena.T())
    ensures n == 0 <==> !(m.ext.titleblock && data[0] == '%')
    ensures n > 0 ==> n == TitleSize(data) && Gains(old(m.arena.T()), m.arena.T(), e, TitlePart(data))
  {
    ghost var t := m.arena.T();
    GrownRefl(m.arena.T(), e, m.arena.level[e] + 1);
    hide BlockGrown, Tree.Valid, EdgesOk, TipBelow;
    if !m.ext.titleblock || data[0] != '%' { return 0; }
    TitleConsumes(data);
    hide TitleSize, Gains;
    n := TitleBlock(m, data, e);
    GainsLeaf(t, m.arena.T(), e, m.tip, Heading, m.arena.nodes[m.tip].data);
  }

  /** A blank line or an indented code block, if one starts here. */
  method CodeStep(m: Markdown, data: bytes, ghost e: NodeId) returns (n: nat)
    requires Ready(m, e) && data != [] && Terminated(data)
    modifies m`tip, m`oldTip, m`allClosed, m.arena
    ensures n <= |data| && Ready(m, e)
    ensures BlockGrown(old(m.arena.T()), m.arena.T(), e, old(m.arena.level)[e] + 1)
    ensures n == 0 ==> m.arena.T() == old(m.arena.T())
    ensures n == 0 <==> BlankLen(data) == 0 && CodeLen(data) == 0
    ensures n > 0 ==> n == (if BlankLen(data) > 0 then BlankLen(data) else CodeLines(data, 0).0)
                      && Gains(old(m.arena.T()), m.arena.T(), e, CodePart(data))
  {
    ghost var t := m.arena.T();
    GainsNothing(t, t, e);
    GrownRefl(m.arena.T(), e, m.arena.level[e] + 1);
    hide BlockGrown, Tree.Valid, EdgesOk, TipBelow;
    n := IsEmpty(data);
    if n > 0 { return n; }
    var pre := CodePrefix(data);
    if pre == 0 { return 0; }
    CodeConsumes(data);
    hide CodeLines, Gains;
    n := BlockLeaf.Code(m, data, e);
    GainsLeaf(t, m.arena.T(), e, m.tip, CodeBlock, m.arena.nodes[m.tip].data);
  }

  /** A fenced code block, if the extension is on and one starts here. */
  method FenceStep(m: Markdown, data: bytes, ghost e: NodeId) returns (n: nat)
    requires Ready(m, e) && data != [] && Terminated(data)
    modifies m`tip, m`oldTip, m`allClosed, m.arena
    ensures n <= |data| && Ready(m, e)
    ensures BlockGrown(old(m.arena.T()), m.arena.T(), e, old(m.arena.level)[e] + 1)
    ensures n == 0 ==> m.arena.T() == old(m.arena.T())
    ensures n == 0 <==> (m.ext.fencedCode ==> Fence.FencedSize(m.uni, data) == 0)
    ensures n > 0 ==> n == Fence.FencedSize(m.uni, data)
                      && Gains(old(m.arena.T()), m.arena.T(), e, FencePart(m, data))
  {
    hide *;
    ReadyRange(m, e);
    NothingGrown(m, e, m.arena.level[e] + 1);
    ghost var t := m.arena.T();
    if !m.ext.fencedCode { return 0; }
    FencedFits(m.uni, data);
    n := FencedCodeBlock(m, data, true, e);
    if n > 0 { FenceGained(m, data, t, e); }
  }

  lemma FencedFits(uni: Unicode, data: bytes)
    ensures Fence.FencedSize(uni, data) <= |data|
  {
  }

  lemma FenceGained(m: Markdown, data: bytes, t: Tree, e: NodeId)
    requires Fence.FencedSize(m.uni, data) > 0 && Markdown.Added(t, m.arena.T(), e, m.tip, CodeBlock)
    requires m.arena.nodes[m.tip].data == FencedData(m, data)
    ensures Gains(t, m.arena.T(), e, FencePart(m, data))
  {
    hide FencedData, Fence.Fenced, Markdown.Added, Gains;
    GainsLeaf(t, m.arena.T(), e, m.tip, CodeBlock, FencedData(m, data));
  }

  /** A horizontal rule, if one starts here. */
  method RuleStep(m: Markdown, data: bytes, ghost e: NodeId) returns (n: nat)
    requires Ready(m, e) && data != [] && Terminated(data)
    requires BlankLen(data) == 0
    modifies m`tip, m`oldTip, m`allClosed, m.arena
    ensures n <= |data| && Ready(m, e)
    ensures BlockGrown(old(m.arena.T()), m.arena.T(), e, old(m.arena.level)[e] + 1)
    ensures n == 0 ==> m.arena.T() == old(m.arena.T())
    ensures n == 0 <==> !Hrule(data)
    ensures n > 0 ==> n == LineEnd(data, 0)
                      && Gains(old(m.arena.T()), m.arena.T(), e, [Leaf(HorizontalRule, NoData)])
  {
    ghost var t := m.arena.T();
    GrownRefl(m.arena.T(), e, m.arena.level[e] + 1);
    hide BlockGrown, Tree.Valid, EdgesOk, TipBelow;
    Paragraph.NotBlankHasText(data, |data|);
    var rule := IsHrule(data);
    if !rule { return 0; }
    RuleHasLine(data);
    hide Hrule, Gains;
    var node := AddLeaf(m, HorizontalRule, NoData, e);
    GainsLeaf(t, m.arena.T(), e, node, HorizontalRule, NoData);
    n := SkipUntilChar(data, 0, '\n');
  }

  /** A heading or HTML. */
  method HeadingOrHtml(m: Markdown, data: bytes, ghost e: NodeId) returns (n: nat)
    requires Ready(m, e) && data != [] && Terminated(data)
    modifies m`tip, m`oldTip, m`allClosed, m.arena
    ensures n <= |data| && Ready(m, e)
    ensures BlockGrown(old(m.arena.T()), m.arena.T(), e, old(m.arena.level)[e] + 1)
    ensures n > 0 ==> LeafMade(m, data, n, old(m.arena.T()), m.arena.T(), e)
    ensures n == 0 ==> m.arena.T() == old(m.arena.T())
    ensures n == 0 <==> (&& !HeadingMark(m.ext, data)
                         && (data[0] == '<' ==> HtmlBlock.HtmlSize(data, m.ext.laxHtmlBlocks) == 0))
  {
    ghost var t := m.arena.T();
    hide *;
    n := HeadingStep(m, data, e);
    if n > 0 {
      HeadedMade(m, data, n, t, m.arena.T(), e);
      return;
    }
    n := HtmlStep(m, data, e);
    if n > 0 { HeadedMade(m, data, n, t, m.arena.T(), e); }
  }

  /** A heading, HTML or a title block. */
  method HeadedStep(m: Markdown, data: bytes, ghost e: NodeId) returns (n: nat)
    requires Ready(m, e) && data != [] && Terminated(data)
    modifies m`tip, m`oldTip, m`allClosed, m.arena
    ensures n <= |data| && Ready(m, e)
    ensures BlockGrown(old(m.arena.T()), m.arena.T(), e, old(m.arena.level)[e] + 1)
    ensures n > 0 ==> LeafMade(m, data, n, old(m.arena.T()), m.arena.T(), e)
    ensures n == 0 ==> m.arena.T() == old(m.arena.T())
    ensures n == 0 <==> !Headed(m.ext, data)
  {
    ghost var t := m.arena.T();
    HeadedCases(m.ext, data);
    hide *;
    n := HeadingOrHtml(m, data, e);
    if n > 0 { return; }
    n := TitleStep(m, data, e);
    if n > 0 { HeadedMade(m, data, n, t, m.arena.T(), e); }
  }

  /** A blank line or code. */
  method CodeOrFence(m: Markdown, data: bytes, ghost e: NodeId) returns (n: nat)
    requires Ready(m, e) && data != [] && Terminated(data) && !Headed(m.ext, data)
    modifies m`tip, m`oldTip, m`allClosed, m.arena
    ensures n <= |data| && Ready(m, e)
    ensures BlockGrown(old(m.arena.T()), m.arena.T(), e, old(m.arena.level)[e] + 1)
    ensures n > 0 ==> LeafMade(m, data, n, old(m.arena.T()), m.arena.T(), e)
    ensures n == 0 ==> m.arena.T() == old(m.arena.T())
    ensures n == 0 <==> (&& BlankLen(data) == 0 && CodeLen(data) == 0
                         && (m.ext.fencedCode ==> Fence.FencedSize(m.uni, data) == 0))
  {
    ghost var t := m.arena.T();
    hide *;
    n := CodeStep(m, data, e);
    if n > 0 {
      MarkedMade(m, data, n, t, m.arena.T(), e);
      return;
    }
    n := FenceStep(m, data, e);
    if n > 0 { MarkedMade(m, data, n, t, m.arena.T(), e); }
  }

  /** A rule, when nothing else starts here. */
  method RuleOrNothing(m: Markdown, data: bytes, ghost e: NodeId) returns (n: nat)
    requires Ready(m, e) && data != [] && Terminated(data) && !Headed(m.ext, data) && BlankLen(data) == 0
             && CodeLen(data) == 0
    requires m.ext.fencedCode ==> Fence.FencedSize(m.uni, data) == 0
    modifies m`tip, m`oldTip, m`allClosed, m.arena
    ensures n <= |data| && Ready(m, e)
    ensures BlockGrown(old(m.arena.T()), m.arena.T(), e, old(m.arena.level)[e] + 1)
    ensures n == 0 ==> m.arena.T() == old(m.arena.T())
    ensures LeafMade(m, data, n, old(m.arena.T()), m.arena.T(), e)
  {
    ghost var t := m.arena.T();
    NothingGained(m, e);
    hide *;
    n := RuleStep(m, data, e);
    MarkedMade(m, data, n, t, m.arena.T(), e);
  }

  /** Headings, HTML, title blocks, blank lines, code, rules, in the dispatcher's
      order: the size taken, or 0 when none of them starts here. */
  method LeafStep(m: Markdown, data: bytes, ghost e: NodeId) returns (n: nat)
    requires Ready(m, e) && data != [] && Terminated(data)
    modifies m`tip, m`oldTip, m`allClosed, m.arena
    ensures n <= |data| && Ready(m, e)
    ensures BlockGrown(old(m.arena.T()), m.arena.T(), e, old(m.arena.level)[e] + 1)
    ensures n == 0 <==> LeavesDecline(m.ext, m.uni, data)
    ensures n == 0 ==> m.arena.T() == old(m.arena.T())
    ensures LeafMade(m, data, n, old(m.arena.T()), m.arena.T(), e)
  {
    ghost var t := m.arena.T();
    hide *;
    n := HeadedStep(m, data, e);
    if n == 0 {
      n := CodeOrFence(m, data, e);
      if n == 0 { n := RuleOrNothing(m, data, e); }
    }
    MadeTakes(m, data, n, t, m.arena.T(), e);
  }

  /** `n` bytes were taken, and `e` gained the nodes of the leaf that starts `data`. */
  ghost predicate LeafMade(m: Markdown, data: bytes, n: nat, t: Tree, u: Tree, e: NodeId)
    requires data != []
  {
    n == LeafParts(m, data).0 && Gains(t, u, e, LeafParts(m, data).1)
  }

  lemma MadeTakes(m: Markdown, data: bytes, n: nat, t: Tree, u: Tree, e: NodeId)
    requires data != [] && Terminated(data) && LeafMade(m, data, n, t, u, e)
    ensures n == 0 <==> LeavesDecline(m.ext, m.uni, data)
  {
    LeafTakes(m, data);
  }

  lemma HeadedCases(ext: Extensions, data: bytes)
    requires data != []
    ensures Headed(ext, data) <==>
              HeadingMark(ext, data) || (data[0] == '<' && HtmlBlock.HtmlSize(data, ext.laxHtmlBlocks) > 0)
              || (ext.titleblock && data[0] == '%')
  {
  }

  lemma HeadedMade(m: Markdown, data: bytes, n: nat, t: Tree, u: Tree, e: NodeId)
    requires data != [] && Terminated(data) && n > 0
    requires
      if HeadingMark(m.ext, data) then n == AtxParts(m.ext, data).skip && Gains(t, u, e, AtxPart(m, data))
      else if data[0] == '<' && HtmlBlock.HtmlSize(data, m.ext.laxHtmlBlocks) > 0 then
        n == HtmlBlock.HtmlSize(data, m.ext.laxHtmlBlocks) && Gains(t, u, e, HtmlPart(data, n))
      else m.ext.titleblock && data[0] == '%' && n == TitleSize(data) && Gains(t, u, e, TitlePart(data))
    ensures LeafMade(m, data, n, t, u, e)
  {
    LeafCases(m, data);
    hide BlankLen, CodeLen, HeadingMark, HtmlBlock.HtmlSize, Fence.FencedSize, Hrule, CodePart, AtxPart, HtmlPart,
         TitlePart, FencePart, AtxParts, CodeLines, TitleSize, LineEnd, LeafParts, LeavesDecline, Gains;
  }

  lemma MarkedMade(m: Markdown, data: bytes, n: nat, t: Tree, u: Tree, e: NodeId)
    requires data != [] && !Headed(m.ext, data)
    requires
      if BlankLen(data) > 0 then n == BlankLen(data) && Gains(t, u, e, CodePart(data))
      else if CodeLen(data) > 0 then n == CodeLines(data, 0).0 && Gains(t, u, e, CodePart(data))
      else if m.ext.fencedCode && Fence.FencedSize(m.uni, data) > 0 then
        n == Fence.FencedSize(m.uni, data) && Gains(t, u, e, FencePart(m, data))
      else if Hrule(data) then n == LineEnd(data, 0) && Gains(t, u, e, [Leaf(HorizontalRule, NoData)])
      else n == 0 && Gains(t, u, e, [])
    ensures LeafMade(m, data, n, t, u, e)
  {
    LeafCases(m, data);
    hide BlankLen, CodeLen, HeadingMark, HtmlBlock.HtmlSize, Fence.FencedSize, Hrule, CodePart, AtxPart, HtmlPart,
         TitlePart, FencePart, AtxParts, CodeLines, TitleSize, LineEnd, LeafParts, Gains;
  }

  /** A heading, HTML or a title block starts here. */
  predicate Headed(ext: Extensions, data: bytes)
    requires data != []
  {
    || HeadingMark(ext, data) || (data[0] == '<' && HtmlBlock.HtmlSize(data, ext.laxHtmlBlocks) > 0)
    || (ext.titleblock && data[0] == '%')
  }

  lemma LeafCases(m: Markdown, data: bytes)
    requires data != []
    ensures HeadingMark(m.ext, data) ==> LeafParts(m, data) == (AtxParts(m.ext, data).skip, AtxPart(m, data))
    ensures var n := HtmlBlock.HtmlSize(data, m.ext.laxHtmlBlocks);
            !HeadingMark(m.ext, data) && data[0] == '<' && n > 0 ==> LeafParts(m, data) == (n, HtmlPart(data, n))
    ensures !HeadingMark(m.ext, data) && m.ext.titleblock && data[0] == '%' ==>
              LeafParts(m, data) == (TitleSize(data), TitlePart(data))
    ensures Headed(m.ext, data) <==>
              HeadingMark(m.ext, data) || (data[0] == '<' && HtmlBlock.HtmlSize(data, m.ext.laxHtmlBlocks) > 0)
              || (m.ext.titleblock && data[0] == '%')
    ensures !Headed(m.ext, data) ==>
              LeafParts(m, data)
              == if BlankLen(data) > 0 then (BlankLen(data), CodePart(data))
                 else if CodeLen(data) > 0 then (CodeLines(data, 0).0, CodePart(data))
                 else if m.ext.fencedCode && Fence.FencedSize(m.uni, data) > 0 then
                   (Fence.FencedSize(m.uni, data), FencePart(m, data))
                 else if Hrule(data) then (LineEnd(data, 0), [Leaf(HorizontalRule, NoData)])
                 else (0, [])
  {
    hide BlankLen, CodeLen, HeadingMark, HtmlBlock.HtmlSize, Fence.FencedSize, Hrule, CodePart, AtxPart, HtmlPart,
         TitlePart, FencePart, AtxParts, CodeLines, TitleSize, LineEnd;
  }

  lemma NothingGained(m: Markdown, e: NodeId)
    requires Ready(m, e)
    ensures Gains(m.arena.T(), m.arena.T(), e, [])
  {
  }

  // ----- the dispatcher -----

  /** The nesting still allowed. */
  ghost function Room(m: Markdown): nat
    reads m
  {
    if m.nesting <= m.maxNesting then m.maxNesting - m.nesting else 0
  }

  /** Parses block constructs out of `data`, one after another, below `e`: it gains
      exactly the nodes the text comes to.  Past the nesting limit the input is dropped. */
  method Block(m: Markdown, data: bytes, ghost e: NodeId)
    requires Ready(m, e) && Terminated(data)
    modifies m, m.arena
    ensures Ready(m, e) && m.Frame() == old(m.Frame())
    ensures BlockGrown(old(m.arena.T()), m.arena.T(), e, old(BlockBound(m, e)))
    ensures Gains(old(m.arena.T()), m.arena.T(), e, Parts(m, data, old(Room(m))))
    ensures fresh(m.handles - old(m.handles))
    decreases m.maxNesting - m.nesting, 0
  {
    hide BlockGrown, Gains, Size, OneParts, Markdown.Valid;
    ghost var t0 := m.arena.T();
    ghost var b, room := BlockBound(m, e), Room(m);
    NothingGrown(m, e, b);
    if m.nesting >= m.maxNesting { return; }
    SetNesting(m, m.nesting + 1, e);
    ghost var frame := m.Frame();
    assert ConstructBound(m, e) == b;
    var rest := data;
    ghost var done: seq<Part> := [];
    assert [] + Parts(m, data, room) == Parts(m, data, room);
    while rest != []
      invariant Ready(m, e) && Terminated(rest) && m.Frame() == frame && fresh(m.handles - old(m.handles))
      invariant BlockGrown(t0, m.arena.T(), e, b) && ConstructBound(m, e) == b
      invariant Gains(t0, m.arena.T(), e, done) && done + Parts(m, rest, room) == Parts(m, data, room)
      decreases |rest|
    {
      ghost var t := m.arena.T();
      var n := Construct(m, rest, e);
      Paragraph.GrowthOn(t0, t, m.arena.T(), e, b, b, done, OneParts(m, rest, room - 1));
      TerminatedSuffix(rest, n);
      PartsJoin(done, OneParts(m, rest, room - 1), Parts(m, rest[n..], room));
      done := done + OneParts(m, rest, room - 1);
      rest := rest[n..];
    }
    assert done + [] == done;
    SetNesting(m, m.nesting - 1, e);
  }

  method SetNesting(m: Markdown, n: nat, ghost e: NodeId)
    requires Ready(m, e) && n <= m.maxNesting
    modifies m`nesting
    ensures Ready(m, e) && m.nesting == n
  {
    m.nesting := n;
  }

  lemma NothingGrown(m: Markdown, e: NodeId, b: nat)
    requires Ready(m, e)
    ensures BlockGrown(m.arena.T(), m.arena.T(), e, b) && Gains(m.arena.T(), m.arena.T(), e, [])
  {
  }

  lemma PartsJoin(a: seq<Part>, b: seq<Part>, c: seq<Part>)
    ensures a + (b + c) == (a + b) + c
  {
  }

  /** One construct: it takes what the text says, at least one byte. */
  method Construct(m: Markdown, data: bytes, ghost e: NodeId) returns (n: nat)
    requires Ready(m, e) && data != [] && Terminated(data)
    modifies m, m.arena
    ensures n == Size(m, data)
    ensures Ready(m, e) && m.Frame() == old(m.Frame())
    ensures BlockGrown(old(m.arena.T()), m.arena.T(), e, old(ConstructBound(m, e)))
    ensures ConstructBound(m, e) == old(ConstructBound(m, e))
    ensures Gains(old(m.arena.T()), m.arena.T(), e, OneParts(m, data, old(Room(m))))
    ensures fresh(m.handles - old(m.handles))
    decreases m.maxNesting - m.nesting, 5
  {
    hide BlockGrown, Good, LeavesDecline, Markdown.Valid, Gains, Size, OneParts, LeafMade, Parts, LeafParts;
    ReadyRange(m, e);
    ghost var t, b := m.arena.T(), ConstructBound(m, e);
    n := LeafStep(m, data, e);
    if n > 0 {
      LevelKept(t, m.arena.T(), e, t.level[e] + 1);
      BoundWeakens(t, m.arena.T(), e, t.level[e] + 1, b);
      OneIsLeaf(m, data, n, t, m.arena.T(), e, Room(m));
    } else {
      n := ContainerStep(m, data, e);
      LevelKept(t, m.arena.T(), e, b);
    }
  }

  lemma OneIsLeaf(m: Markdown, data: bytes, n: nat, t: Tree, u: Tree, e: NodeId, room: nat)
    requires data != [] && Terminated(data) && n > 0 && LeafMade(m, data, n, t, u, e)
    ensures n == Size(m, data) && Gains(t, u, e, OneParts(m, data, room))
  {
    hide LeafParts, Gains;
  }

  lemma LevelKept(t: Tree, u: Tree, e: NodeId, b: nat)
    requires BlockGrown(t, u, e, b)
    ensures e < |t.level| && e < |u.level| && u.level[e] == t.level[e]
  {
    assert Same(t, u, e);
  }

  /** Quotes, tables, lists, paragraphs. */
  method ContainerStep(m: Markdown, data: bytes, ghost e: NodeId) returns (n: nat)
    requires Ready(m, e) && data != [] && Terminated(data) && LeavesDecline(m.ext, m.uni, data)
    modifies m, m.arena
    ensures n == Size(m, data)
    ensures Ready(m, e) && m.Frame() == old(m.Frame())
    ensures BlockGrown(old(m.arena.T()), m.arena.T(), e, old(ConstructBound(m, e)))
    ensures Gains(old(m.arena.T()), m.arena.T(), e, OneParts(m, data, old(Room(m))))
    ensures fresh(m.handles - old(m.handles))
    decreases m.maxNesting - m.nesting, 4
  {
    hide BlockGrown, Good, BlockTable.TableShape, LeavesDecline, QuoteLen, UliLen, OliLen, Size, OneParts, Parts, Gains,
         ListSize, ListPart, QuoteSize, QuoteText, Paragraph.ParagraphParts, BlockTable.TableSize, Markdown.Valid;
    OneCases(m, data, Room(m));
    var quote := QuotePrefix(data);
    if quote > 0 {
      n := Quote(m, data, e);
      return;
    }
    if m.ext.tables {
      n := TableOrOther(m, data, e);
    } else {
      n := ListOrParagraph(m, data, e);
    }
  }

  /** Which construct it is, once no leaf starts here. */
  lemma OneCases(m: Markdown, data: bytes, room: nat)
    requires data != [] && Terminated(data) && LeavesDecline(m.ext, m.uni, data)
    ensures QuoteLen(data) > 0 ==>
              Size(m, data) == QuoteSize(m.ext, m.uni, data, 0)
              && Terminated(QuoteText(m.ext, m.uni, data, 0))
              && OneParts(m, data, room) == [Part(BlockQuote, NoData, Parts(m, QuoteText(m.ext, m.uni, data, 0), room))]
    ensures QuoteLen(data) == 0 && m.ext.tables && BlockTable.TableSize(data) > 0 ==>
              Size(m, data) == BlockTable.TableSize(data) && OneParts(m, data, room) == [BlockTable.TablePart(data)]
    ensures QuoteLen(data) == 0 && !(m.ext.tables && BlockTable.TableSize(data) > 0) ==>
              Size(m, data) == OtherSize(m, data) && OneParts(m, data, room) == OtherParts(m, data, room)
  {
    LeafTakes(m, data);
    QuoteTextTerminated(m.ext, m.uni, data, 0);
    hide LeafParts, LeavesDecline, QuoteLen, UliLen, OliLen, Parts, ListSize, ListPart, QuoteSize, QuoteText,
         Paragraph.ParagraphParts, BlockTable.TableSize, BlockTable.TablePart;
  }

  /** A list or a paragraph. */
  function OtherSize(m: Markdown, data: bytes): nat
    requires data != [] && Terminated(data)
  {
    if UliLen(data) > 0 then ListSize(m.ext, m.uni, data, ListStart(false))
    else if OliLen(data) > 0 then ListSize(m.ext, m.uni, data, ListStart(true))
    else Paragraph.ParagraphParts(m, data).0
  }

  function OtherParts(m: Markdown, data: bytes, room: nat): seq<Part>
    requires data != [] && Terminated(data)
  {
    if UliLen(data) > 0 then [ListPart(m, data, ListStart(false), room)]
    else if OliLen(data) > 0 then [ListPart(m, data, ListStart(true), room)]
    else Paragraph.ParagraphParts(m, data).1
  }

  /** A table; a failed attempt leaves a detached node behind, and something else follows. */
  method TableOrOther(m: Markdown, data: bytes, ghost e: NodeId) returns (n: nat)
    requires Ready(m, e) && data != [] && Terminated(data) && LeavesDecline(m.ext, m.uni, data)
    requires QuoteLen(data) == 0 && m.ext.tables
    modifies m, m.arena
    ensures n == Size(m, data)
    ensures Ready(m, e) && m.Frame() == old(m.Frame())
    ensures BlockGrown(old(m.arena.T()), m.arena.T(), e, old(ConstructBound(m, e)))
    ensures Gains(old(m.arena.T()), m.arena.T(), e, OneParts(m, data, old(Room(m))))
    ensures fresh(m.handles - old(m.handles))
    decreases m.maxNesting - m.nesting, 3, 2
  {
    hide *;
    ReadyRange(m, e);
    ReadyNests(m, e);
    ghost var t0, b, room := m.arena.T(), ConstructBound(m, e), Room(m);
    n := TableStep(m, data, e);
    if n > 0 {
      OneIsTable(m, data, room);
      return;
    }
    n := OtherStep(m, data, t0, e, b, room);
  }

  /** What follows a failed table. */
  method OtherStep(m: Markdown, data: bytes, ghost t0: Tree, ghost e: NodeId, ghost b: nat, ghost room: nat)
    returns (n: nat)
    requires Ready(m, e) && data != [] && Terminated(data) && LeavesDecline(m.ext, m.uni, data)
    requires QuoteLen(data) == 0 && BlockTable.TableSize(data) == 0 && room == Room(m) && b == ConstructBound(m, e)
    requires BlockGrown(t0, m.arena.T(), e, b) && Gains(t0, m.arena.T(), e, [])
    modifies m, m.arena
    ensures n == Size(m, data)
    ensures Ready(m, e) && m.Frame() == old(m.Frame())
    ensures BlockGrown(t0, m.arena.T(), e, b)
    ensures Gains(t0, m.arena.T(), e, OneParts(m, data, room))
    ensures fresh(m.handles - old(m.handles))
    decreases m.maxNesting - m.nesting, 3, 1
  {
    hide *;
    ghost var t := m.arena.T();
    n := ListOrParagraph(m, data, e);
    AfterTable(m, data, t0, t, m.arena.T(), e, b, room);
  }

  lemma OneIsTable(m: Markdown, data: bytes, room: nat)
    requires data != [] && Terminated(data) && LeavesDecline(m.ext, m.uni, data)
    requires QuoteLen(data) == 0 && m.ext.tables && BlockTable.TableSize(data) > 0
    ensures Size(m, data) == BlockTable.TableSize(data) && OneParts(m, data, room) == [BlockTable.TablePart(data)]
  {
    hide *;
    OneCases(m, data, room);
  }

  lemma AfterTable(m: Markdown, data: bytes, t0: Tree, t: Tree, u: Tree, e: NodeId, b: nat, room: nat)
    requires data != [] && Terminated(data) && LeavesDecline(m.ext, m.uni, data)
    requires QuoteLen(data) == 0 && BlockTable.TableSize(data) == 0
    requires BlockGrown(t0, t, e, b) && Gains(t0, t, e, [])
    requires BlockGrown(t, u, e, b) && Gains(t, u, e, OtherParts(m, data, room))
    ensures BlockGrown(t0, u, e, b) && Gains(t0, u, e, OneParts(m, data, room)) && Size(m, data) == OtherSize(m, data)
  {
    hide *;
    OneCases(m, data, room);
    Paragraph.GrowthOn(t0, t, u, e, b, b, [], OtherParts(m, data, room));
    assert [] + OtherParts(m, data, room) == OtherParts(m, data, room);
  }

  method TableStep(m: Markdown, data: bytes, ghost e: NodeId) returns (n: nat)
    requires Ready(m, e) && data != []
    modifies m`tip, m`oldTip, m`allClosed, m.arena
    ensures n == BlockTable.TableSize(data) && Ready(m, e)
    ensures BlockGrown(old(m.arena.T()), m.arena.T(), e, old(ConstructBound(m, e)))
    ensures ConstructBound(m, e) == old(ConstructBound(m, e)) && Room(m) == old(Room(m))
    ensures m.Frame() == old(m.Frame())
    ensures Gains(old(m.arena.T()), m.arena.T(), e, if n > 0 then [BlockTable.TablePart(data)] else [])
  {
    hide BlockTable.TableShape, BlockTable.TablePart, BlockTable.TableSize, Good, Gains, BlockTable.TableBuilt;
    ghost var t := m.arena.T();
    n := BlockTable.Table(m, data, e);
    LevelKept(t, m.arena.T(), e, t.level[e] + 4);
    if n == 0 { GainsNothing(t, m.arena.T(), e); }
  }

  method ListOrParagraph(m: Markdown, data: bytes, ghost e: NodeId) returns (n: nat)
    requires Ready(m, e) && data != [] && Terminated(data) && LeavesDecline(m.ext, m.uni, data)
    requires QuoteLen(data) == 0
    modifies m, m.arena
    ensures n == OtherSize(m, data)
    ensures Ready(m, e) && m.Frame() == old(m.Frame())
    ensures BlockGrown(old(m.arena.T()), m.arena.T(), e, old(ConstructBound(m, e)))
    ensures Gains(old(m.arena.T()), m.arena.T(), e, OtherParts(m, data, old(Room(m))))
    ensures fresh(m.handles - old(m.handles))
    decreases m.maxNesting - m.nesting, 3, 0
  {
    hide *;
    ghost var room := Room(m);
    DeclinesBlank(m.ext, m.uni, data);
    var u := UliPrefix(data);
    if u > 0 {
      OtherIsList(m, data, false, room);
      n := List(m, data, NoListType, e);
    } else {
      n := OrderedOrParagraph(m, data, e);
    }
  }

  method OrderedOrParagraph(m: Markdown, data: bytes, ghost e: NodeId) returns (n: nat)
    requires Ready(m, e) && data != [] && Terminated(data) && BlankLen(data) == 0 && UliLen(data) == 0
    modifies m, m.arena
    ensures n == OtherSize(m, data)
    ensures Ready(m, e) && m.Frame() == old(m.Frame())
    ensures BlockGrown(old(m.arena.T()), m.arena.T(), e, old(ConstructBound(m, e)))
    ensures Gains(old(m.arena.T()), m.arena.T(), e, OtherParts(m, data, old(Room(m))))
    ensures fresh(m.handles - old(m.handles))
    decreases m.maxNesting - m.nesting, 2, 3
  {
    ghost var room := Room(m);
    hide *;
    var o := OliPrefix(data);
    if o > 0 {
      OtherIsList(m, data, true, room);
      n := List(m, data, NoListType.(ordered := true), e);
    } else {
      OtherIsParagraph(m, data, room);
      n := ParagraphStep(m, data, e);
    }
  }

  lemma DeclinesBlank(ext: Extensions, uni: Unicode, data: bytes)
    requires data != [] && LeavesDecline(ext, uni, data)
    ensures BlankLen(data) == 0
  {
  }

  lemma OtherIsList(m: Markdown, data: bytes, ordered: bool, room: nat)
    requires data != [] && Terminated(data)
    requires if ordered then UliLen(data) == 0 && OliLen(data) > 0 else UliLen(data) > 0
    ensures var kind := NoListType.(ordered := ordered);
            && !kind.definition && !kind.containsBlock && (!ordered ==> kind == NoListType)
            && OtherSize(m, data) == ListSize(m.ext, m.uni, data, kind.(beginningOfList := true))
            && OtherParts(m, data, room) == [ListPart(m, data, kind.(beginningOfList := true), room)]
  {
    hide ListSize, ListPart, Paragraph.ParagraphParts, UliLen, OliLen;
  }

  lemma OtherIsParagraph(m: Markdown, data: bytes, room: nat)
    requires data != [] && Terminated(data) && UliLen(data) == 0 && OliLen(data) == 0
    ensures OtherSize(m, data) == Paragraph.ParagraphParts(m, data).0
    ensures OtherParts(m, data, room) == Paragraph.ParagraphParts(m, data).1
  {
    hide ListSize, ListPart, Paragraph.ParagraphParts, UliLen, OliLen;
  }

  method ParagraphStep(m: Markdown, data: bytes, ghost e: NodeId) returns (n: nat)
    requires Ready(m, e) && data != [] && Terminated(data)
    modifies m, m.arena
    ensures n == Paragraph.ParagraphParts(m, data).0
    ensures Ready(m, e) && m.Frame() == old(m.Frame())
    ensures BlockGrown(old(m.arena.T()), m.arena.T(), e, old(ConstructBound(m, e)))
    ensures Gains(old(m.arena.T()), m.arena.T(), e, Paragraph.ParagraphParts(m, data).1)
    ensures fresh(m.handles - old(m.handles))
    decreases m.maxNesting - m.nesting, 0
  {
    ghost var t, b := m.arena.T(), ConstructBound(m, e);
    hide Good, Paragraph.StopsParagraph, BlankLen, Paragraph.ParagraphParts, Gains, BlockGrown;
    n := Paragraph.Paragraph(m, data, e);
    BoundWeakens(t, m.arena.T(), e, t.level[e] + 1, b);
  }

  // ----- quotes -----

  /** A quote or an item just added below `e` can take blocks itself. */
  lemma HostAdded(t0: Tree, t: Tree, e: NodeId, node: NodeId, kind: NodeType)
    requires Markdown.Added(t0, t, e, node, kind) && EdgesOk(t) && HostsBlocks(kind) && BlockNode(t.nodes[node])
    ensures Good(t, node, node) && BlockGrown(t0, t, e, t0.level[e] + 1)
  {
  }

  /** Closing a quote puts the insertion point back at `e`. */
  lemma QuoteDone(t0: Tree, t1: Tree, t2: Tree, e: NodeId, quote: NodeId, b: nat)
    requires Markdown.Added(t0, t1, e, quote, BlockQuote) && HostsBlocks(t0.Kind(e)) && EdgesOk(t2)
    requires BlockGrown(t1, t2, quote, b) && t0.level[e] + 1 <= b
    ensures t2.Parent(quote) == Some(e)
    ensures var t := Closed(t2, quote); Good(t, e, e) && BlockGrown(t0, t, e, b)
  {
    assert Same(t1, t2, quote) && Same(t0, t1, e) && Same(t1, t2, e);
    BlockGrownTrans(t0, t1, t2, e, quote, b, b);
    ClosedGrows(t2, quote);
    var t := Closed(t2, quote);
    GrownTrans(t0, t2, t, e, e);
  }

  method OpenQuote(m: Markdown, ghost e: NodeId) returns (quote: NodeId)
    requires Ready(m, e)
    modifies m`tip, m`oldTip, m`allClosed, m.arena
    ensures Ready(m, quote) && m.arena.level[quote] == old(m.arena.level)[e] + 1
    ensures Markdown.Added(old(m.arena.T()), m.arena.T(), e, quote, BlockQuote) && m.arena.nodes[quote].data == NoData
  {
    ghost var t0 := m.arena.T();
    BlockClimbs(t0, m.tip, BlockQuote, e);
    hide Grown, TipBelow, EdgesOk, ClimbsTo;
    quote := m.AddBlock(BlockQuote, "", e);
    HostAdded(t0, m.arena.T(), e, quote, BlockQuote);
  }

  method CloseQuote(m: Markdown, ghost t0: Tree, ghost t1: Tree, ghost e: NodeId, quote: NodeId, ghost b: nat)
    requires Ready(m, quote)
    requires Markdown.Added(t0, t1, e, quote, BlockQuote) && HostsBlocks(t0.Kind(e))
    requires BlockGrown(t1, m.arena.T(), quote, b) && t0.level[e] + 1 <= b
    modifies m`tip, m.arena
    ensures Ready(m, e) && BlockGrown(t0, m.arena.T(), e, b) && m.arena.T() == Closed(old(m.arena.T()), quote)
  {
    QuoteDone(t0, t1, m.arena.T(), e, quote, b);
    hide Grown, TipBelow, Tree.Valid, Markdown.Added, EdgesOk;
    m.Finalize(quote);
  }

  /** Parses `raw` as blocks below a new quote. */
  method FillQuote(m: Markdown, raw: bytes, ghost e: NodeId)
    requires Ready(m, e) && Terminated(raw)
    modifies m, m.arena
    ensures Ready(m, e) && m.Frame() == old(m.Frame())
    ensures BlockGrown(old(m.arena.T()), m.arena.T(), e,
            old(m.arena.level)[e] + 2 * (m.maxNesting - old(m.nesting)) + 3)
    ensures Gains(old(m.arena.T()), m.arena.T(), e, [Part(BlockQuote, NoData, Parts(m, raw, old(Room(m))))])
    ensures fresh(m.handles - old(m.handles))
    decreases m.maxNesting - m.nesting, 1, 0
  {
    hide BlockGrown, Good, Markdown.Added, Markdown.Valid, Ready, HostsBlocks, Gains, Parts, Closed;
    ghost var t0, room := m.arena.T(), Room(m);
    ReadyNests(m, e);
    ReadyRange(m, e);
    var quote := OpenQuote(m, e);
    ReadyRange(m, quote);
    ghost var t1 := m.arena.T();
    Block(m, raw, quote);
    ghost var t2 := m.arena.T();
    CloseQuote(m, t0, t1, e, quote, t0.level[e] + 2 * (m.maxNesting - m.nesting) + 3);
    BoxClosed(t0, t1, t2, e, quote, BlockQuote, NoData, Parts(m, raw, room), t1.level[quote] + 2 * room + 2);
  }

  lemma ReadyNests(m: Markdown, e: NodeId)
    requires Ready(m, e)
    ensures m.nesting <= m.maxNesting && e < |m.arena.nodes| && HostsBlocks(m.arena.T().Kind(e))
  {
  }

  /** A block that was filled and closed. */
  lemma BoxClosed(t0: Tree, t1: Tree, t2: Tree, e: NodeId, node: NodeId, kind: NodeType, d: Data, parts: seq<Part>,
                  b: nat)
    requires Markdown.Added(t0, t1, e, node, kind) && t1.nodes[node].data == d
    requires BlockGrown(t1, t2, node, b) && Gains(t1, t2, node, parts)
    ensures Gains(t0, Closed(t2, node), e, [Part(kind, d, parts)])
  {
    hide Gains;
    GainsBox(t0, t1, t2, e, node, kind, d, parts);
    GainsSame(t0, t2, Closed(t2, node), e, [Part(kind, d, parts)]);
  }

  /** A block quote: its text is parsed as blocks below it. */
  method Quote(m: Markdown, data: bytes, ghost e: NodeId) returns (n: nat)
    requires Ready(m, e) && data != [] && Terminated(data)
    modifies m, m.arena
    ensures n == QuoteSize(m.ext, m.uni, data, 0) && 1 <= n <= |data|
    ensures Ready(m, e) && m.Frame() == old(m.Frame())
    ensures BlockGrown(old(m.arena.T()), m.arena.T(), e, old(ConstructBound(m, e)))
    ensures Terminated(QuoteText(m.ext, m.uni, data, 0))
    ensures Gains(old(m.arena.T()), m.arena.T(), e,
                  [Part(BlockQuote, NoData, Parts(m, QuoteText(m.ext, m.uni, data, 0), old(Room(m))))])
    ensures fresh(m.handles - old(m.handles))
    decreases m.maxNesting - m.nesting, 1, 1
  {
    ghost var t0, b := m.arena.T(), ConstructBound(m, e);
    QuoteTextTerminated(m.ext, m.uni, data, 0);
    hide BlockGrown, Good, QuoteText, QuoteSize, Markdown.Valid, Gains, Parts;
    var raw;
    n, raw := ScanQuote(m.ext, m.uni, data);
    FillQuote(m, raw, e);
    BoundWeakens(t0, m.arena.T(), e, b - 1, b);
  }

  // ----- lists -----

  /** Items go below `list`. */
  ghost predicate ListReady(m: Markdown, list: NodeId)
    reads m, m.arena
  {
    && m.Valid() && !m.ext.definitionLists && m.nesting <= m.maxNesting
    && list < |m.arena.nodes| && m.arena.T().Kind(list).List?
    && ClimbsTo(m.arena.T(), m.tip, NodeType.Item, list)
  }

  lemma ListRange(m: Markdown, list: NodeId)
    requires ListReady(m, list)
    ensures list < |m.arena.nodes| && list < |m.arena.level| && list < |m.arena.kids| && m.nesting <= m.maxNesting
    ensures m.arena.T().Valid()
  {
  }

  lemma ItemDone(t0: Tree, t1: Tree, t2: Tree, list: NodeId, item: NodeId, tip: NodeId, b: nat)
    requires Markdown.Added(t0, t1, list, item, NodeType.Item) && t0.Kind(list).List? && BlockNode(t1.nodes[item])
    requires BlockGrown(t1, t2, item, b) && t0.level[list] + 1 <= b
    requires Good(t2, tip, item)
    ensures BlockGrown(t0, t2, list, b) && list < |t2.nodes| && t2.Kind(list).List?
    ensures ClimbsTo(t2, tip, NodeType.Item, list)
  {
    assert Same(t1, t2, item) && Same(t0, t1, list) && Same(t1, t2, list);
    BlockGrownTrans(t0, t1, t2, list, item, b, b);
    ItemClimbs(t2, tip, item, list);
  }

  /** Adds the item node and fills it in. */
  method AddItem(m: Markdown, flags: ListType, bullet: byte, ghost list: NodeId) returns (item: NodeId)
    requires ListReady(m, list)
    modifies m`tip, m`oldTip, m`allClosed, m.arena
    ensures Ready(m, item) && m.tip == item
    ensures Markdown.Added(old(m.arena.T()), m.arena.T(), list, item, NodeType.Item)
    ensures m.arena.nodes[item].data == ItemData(flags, bullet)
  {
    ghost var t0 := m.arena.T();
    hide Grown, TipBelow, Tree.Valid, EdgesOk, ClimbsTo;
    item := m.AddBlock(NodeType.Item, "", list);
    ghost var t := m.arena.T();
    var d := ItemData(flags, bullet);
    FilledIsAdded(t0, t, list, item, NodeType.Item, d);
    BlockTable.FillEdges(t0, t, list, item, d);
    HostAdded(t0, WithData(t, item, d), list, item, NodeType.Item);
    m.arena.SetData(item, d);
  }

  /** One list item.  It takes nothing, and changes nothing, unless an item starts
      here; what is left afterwards starts with text. */
  method ListItem(m: Markdown, data: bytes, flags: ListType, ghost list: NodeId) returns (n: nat, flags': ListType)
    requires ListReady(m, list) && data != [] && Terminated(data) && BlankLen(data) == 0 && !flags.definition
    modifies m, m.arena
    ensures ListReady(m, list) && m.Frame() == old(m.Frame())
    ensures ItemPrefix(data) == 0 ==> n == 0 && flags' == flags && m.arena.T() == old(m.arena.T())
    ensures ItemPrefix(data) > 0 ==>
              && n == ItemText(m.ext, m.uni, data, flags).line && flags' == ItemText(m.ext, m.uni, data, flags).flags
              && Gains(old(m.arena.T()), m.arena.T(), list, [ItemPart(m, data, flags, old(Room(m)))])
    ensures BlockGrown(old(m.arena.T()), m.arena.T(), list,
                       old(m.arena.level)[list] + 2 * (m.maxNesting - old(m.nesting)) + 3)
    ensures fresh(m.handles - old(m.handles))
    decreases m.maxNesting - m.nesting, 2, 0
  {
    hide Grown, TipBelow, Tree.Valid, EdgesOk, ClimbsTo, UliLen, OliLen, BlankLen, HeadOf, ItemText, Gains, BodyParts,
         ItemPrefix, HasText, GatherOk;
    ListRange(m, list);
    ghost var t0 := m.arena.T();
    Paragraph.NotBlankHasText(data, |data|);
    GrownRefl(t0, list, t0.level[list] + 2 * (m.maxNesting - m.nesting) + 3);
    HeadPlain(data, flags);
    var h := ScanItemHead(data, flags);
    if h.prefix == 0 { return 0, h.flags; }
    var st := GatherAll(m.ext, m.uni, data, flags, h);
    GatherParts(data, st);
    n, flags' := st.line, st.flags;
    assert TextOk(st);
    AddAndFill(m, st, h.bullet, list);
  }

  lemma HeadPlain(data: bytes, flags: ListType)
    requires data != []
    ensures HeadOf(data, flags).prefix == ItemPrefix(data)
    ensures ItemPrefix(data) == 0 ==> HeadOf(data, flags).flags == flags
  {
  }

  method GatherAll(ext: Extensions, uni: Unicode, data: bytes, flags: ListType, h: ItemHead) returns (st: Gather)
    requires data != [] && Terminated(data) && !flags.definition && h == HeadOf(data, flags) && h.prefix > 0
    requires h.prefix == ItemPrefix(data)
    ensures st == ItemText(ext, uni, data, flags)
  {
    FirstIsOk(data, flags);
    hide HeadOf, ItemPrefix, Gathered;
    var raw, i := FirstLine(data, h.prefix);
    st := GatherItem(ext, uni, data, Gather(i, raw, false, 0, "", h.flags), h.indent);
  }

  /** Adds the item and parses its text. */
  method AddAndFill(m: Markdown, st: Gather, bullet: byte, ghost list: NodeId)
    requires ListReady(m, list) && TextOk(st)
    modifies m, m.arena
    ensures ListReady(m, list) && m.Frame() == old(m.Frame())
    ensures BlockGrown(old(m.arena.T()), m.arena.T(), list,
                       old(m.arena.level)[list] + 2 * (m.maxNesting - old(m.nesting)) + 3)
    ensures Gains(old(m.arena.T()), m.arena.T(), list,
                  [Part(NodeType.Item, ItemData(st.flags, bullet), BodyParts(m, st, old(Room(m))))])
    ensures fresh(m.handles - old(m.handles))
    decreases m.maxNesting - m.nesting, 1, 2
  {
    hide BlockGrown, Good, Tree.Valid, EdgesOk, ClimbsTo, Markdown.Valid, Markdown.Added, Gains, BodyParts, TextOk;
    ListRange(m, list);
    ghost var t0, room := m.arena.T(), Room(m);
    TextParts(st);
    var item := AddItem(m, st.flags, bullet, list);
    ghost var t1 := m.arena.T();
    ItemLevel(t0, t1, list, item);
    FillItem(m, st, item);
    ItemDone(t0, t1, m.arena.T(), list, item, m.tip, t0.level[list] + 2 * (m.maxNesting - m.nesting) + 3);
    BoxGained(t0, t1, m.arena.T(), list, item, NodeType.Item, ItemData(st.flags, bullet), BodyParts(m, st, room),
              t0.level[list] + 2 * room + 3);
  }

  /** A block that was filled. */
  lemma BoxGained(t0: Tree, t1: Tree, t2: Tree, e: NodeId, node: NodeId, kind: NodeType, d: Data, parts: seq<Part>,
                  b: nat)
    requires Markdown.Added(t0, t1, e, node, kind) && t1.nodes[node].data == d
    requires BlockGrown(t1, t2, node, b) && Gains(t1, t2, node, parts)
    ensures Gains(t0, t2, e, [Part(kind, d, parts)])
  {
    hide Gains;
    GainsBox(t0, t1, t2, e, node, kind, d, parts);
  }

  lemma TextParts(st: Gather)
    requires TextOk(st)
    ensures Terminated(st.raw) && st.sublist <= |st.raw|
    ensures Terminated(st.raw[..st.sublist]) && Terminated(st.raw[st.sublist..])
  {
  }

  /** The text of an item can be parsed, in one piece or in two. */
  ghost predicate TextOk(st: Gather) {
    && st.raw != [] && Terminated(st.raw) && st.sublist <= |st.raw|
    && Terminated(st.raw[..st.sublist]) && Terminated(st.raw[st.sublist..])
  }

  lemma ItemLevel(t0: Tree, t1: Tree, list: NodeId, item: NodeId)
    requires Markdown.Added(t0, t1, list, item, NodeType.Item)
    ensures list < |t0.level| && item < |t1.level| && t1.level[item] == t0.level[list] + 1
    ensures item < |t1.nodes| && t1.Kind(item).Item?
  {
  }

  /** The text of an item: as blocks when it held one, otherwise as a paragraph
      followed by the nested list. */
  method FillItem(m: Markdown, st: Gather, ghost item: NodeId)
    requires Ready(m, item) && m.tip == item && m.arena.T().Kind(item).Item? && TextOk(st)
    modifies m, m.arena
    ensures Ready(m, item) && m.Frame() == old(m.Frame())
    ensures BlockGrown(old(m.arena.T()), m.arena.T(), item, old(BlockBound(m, item)))
    ensures Gains(old(m.arena.T()), m.arena.T(), item, BodyParts(m, st, old(Room(m))))
    ensures fresh(m.handles - old(m.handles))
    decreases m.maxNesting - m.nesting, 1, 1
  {
    hide BlockGrown, Good, Gains, Parts;
    if st.flags.containsBlock && !st.flags.term {
      FillBlocks(m, st.raw, st.sublist, item);
    } else {
      FillInline(m, st.raw, st.sublist, item);
    }
  }

  /** The text of an item as one block run, or two when a nested list starts in it. */
  method FillBlocks(m: Markdown, raw: bytes, sublist: nat, ghost item: NodeId)
    requires Ready(m, item) && Terminated(raw) && sublist <= |raw|
    requires Terminated(raw[..sublist]) && Terminated(raw[sublist..])
    modifies m, m.arena
    ensures Ready(m, item) && m.Frame() == old(m.Frame())
    ensures BlockGrown(old(m.arena.T()), m.arena.T(), item, old(BlockBound(m, item)))
    ensures Gains(old(m.arena.T()), m.arena.T(), item,
                  if sublist == 0 then Parts(m, raw, old(Room(m)))
                  else Parts(m, raw[..sublist], old(Room(m))) + Parts(m, raw[sublist..], old(Room(m))))
    ensures fresh(m.handles - old(m.handles))
    decreases m.maxNesting - m.nesting, 1, 0
  {
    if sublist == 0 {
      Block(m, raw, item);
      return;
    }
    ghost var t0, b, room := m.arena.T(), BlockBound(m, item), Room(m);
    hide BlockGrown, Good, Gains, Parts, Markdown.Valid, Tree.Valid;
    Block(m, raw[..sublist], item);
    ghost var t1 := m.arena.T();
    LevelKept(t0, t1, item, b);
    Block(m, raw[sublist..], item);
    Paragraph.GrowthOn(t0, t1, m.arena.T(), item, b, b, Parts(m, raw[..sublist], room), Parts(m, raw[sublist..], room));
  }

  /** The text of an item as one paragraph, then the nested list as blocks. */
  method FillInline(m: Markdown, raw: bytes, sublist: nat, ghost item: NodeId)
    requires Ready(m, item) && m.tip == item && m.arena.T().Kind(item).Item?
    requires Terminated(raw) && sublist <= |raw| && Terminated(raw[sublist..])
    modifies m, m.arena
    ensures Ready(m, item) && m.Frame() == old(m.Frame())
    ensures BlockGrown(old(m.arena.T()), m.arena.T(), item, old(BlockBound(m, item)))
    ensures Gains(old(m.arena.T()), m.arena.T(), item,
                  [Leaf(NodeType.Paragraph, NoData.(content := if sublist > 0 then raw[..sublist] else raw))]
                  + (if sublist > 0 then Parts(m, raw[sublist..], old(Room(m))) else []))
    ensures fresh(m.handles - old(m.handles))
    decreases m.maxNesting - m.nesting, 1, 0
  {
    ghost var t0, b, room := m.arena.T(), BlockBound(m, item), Room(m);
    hide BlockGrown, Good, Gains, Parts, Markdown.Valid, Tree.Valid;
    var text := if sublist > 0 then raw[..sublist] else raw;
    AddText(m, text, item);
    assert [Leaf(NodeType.Paragraph, NoData.(content := text))] + []
        == [Leaf(NodeType.Paragraph, NoData.(content := text))];
    if sublist > 0 {
      ghost var t1 := m.arena.T();
      LevelKept(t0, t1, item, b);
      Block(m, raw[sublist..], item);
      Paragraph.GrowthOn(t0, t1, m.arena.T(), item, b, b, [Leaf(NodeType.Paragraph, NoData.(content := text))],
                         Parts(m, raw[sublist..], room));
    }
  }

  method AddText(m: Markdown, text: bytes, ghost item: NodeId)
    requires Ready(m, item) && m.tip == item && m.arena.T().Kind(item).Item?
    modifies m`tip, m.arena
    ensures Ready(m, item)
    ensures BlockGrown(old(m.arena.T()), m.arena.T(), item, old(BlockBound(m, item)))
    ensures Gains(old(m.arena.T()), m.arena.T(), item, [Leaf(NodeType.Paragraph, NoData.(content := text))])
    ensures m.nesting == old(m.nesting)
  {
    ghost var t0 := m.arena.T();
    ghost var b := t0.level[item] + 1;
    hide Tree.Valid, TipBelow, Grown;
    var child := m.AddChild(NodeType.Paragraph, item);
    ghost var t := m.arena.T();
    LeafFilled(t0, t, item, child, NodeType.Paragraph, NoData.(content := text));
    FilledIsAdded(t0, t, item, child, NodeType.Paragraph, NoData.(content := text));
    GainsLeaf(t0, WithData(t, child, NoData.(content := text)), item, child, NodeType.Paragraph,
              NoData.(content := text));
    hide Gains;
    m.arena.SetData(child, NoData.(content := text));
  }

  /** The state of the list loop. */
  ghost predicate InList(m: Markdown, t0: Tree, e: NodeId, list: NodeId, b: nat)
    reads m, m.arena
  {
    && ListReady(m, list) && BlockGrown(t0, m.arena.T(), e, b) && list >= |t0.nodes|
    && m.arena.T().Parent(list) == Some(e) && b == t0.level[e] + 2 * (m.maxNesting - m.nesting) + 4
    && m.arena.level[list] == t0.level[e] + 1
  }

  lemma ListStarted(t0: Tree, t: Tree, e: NodeId, list: NodeId)
    requires Markdown.Added(t0, t, e, list, NodeType.List)
    ensures BlockGrown(t0, t, e, t0.level[e] + 1) && ClimbsTo(t, list, NodeType.Item, list)
    ensures t.Kind(list).List? && t.Parent(list) == Some(e) && t.level[list] == t0.level[e] + 1 && list >= |t0.nodes|
  {
  }

  /** The list hangs last below `e` and holds `items`; `loose` says it is not tight. */
  ghost predicate ListShows(t0: Tree, t: Tree, e: NodeId, list: NodeId, flags: ListType, loose: bool,
                            items: seq<Part>) {
    && e < |t0.kids| && e < |t.kids| && t.kids[e] == t0.kids[e] + [list]
    && Shows(t, list, Part(NodeType.List, ListDataOf(flags, !loose), items))
  }

  /** The list loop after `items`, with `rest` and `flags` to go on with. */
  ghost predicate ListGoes(m: Markdown, data: bytes, start: ListType, room: nat, rest: bytes, flags: ListType,
                           loose: bool, items: seq<Part>)
    requires Terminated(data) && Terminated(rest) && !start.definition && !flags.definition
  {
    && |rest| <= |data| && (flags.containsBlock ==> loose)
    && items + ItemParts(m, rest, flags, room) == ItemParts(m, data, start, room)
    && |data| - |rest| + ListSize(m.ext, m.uni, rest, flags) == ListSize(m.ext, m.uni, data, start)
    && (loose || ListIsLoose(m.ext, m.uni, rest, flags) <==> ListIsLoose(m.ext, m.uni, data, start))
  }

  /** The list loop when it is over. */
  ghost predicate ListOver(m: Markdown, data: bytes, start: ListType, room: nat, rest: bytes, loose: bool,
                           items: seq<Part>)
    requires Terminated(data) && !start.definition
  {
    && |rest| <= |data| && items == ItemParts(m, data, start, room)
    && |data| - |rest| == ListSize(m.ext, m.uni, data, start)
    && (loose <==> ListIsLoose(m.ext, m.uni, data, start))
  }

  lemma ListBegins(m: Markdown, data: bytes, start: ListType, room: nat)
    requires Terminated(data) && !start.definition && !start.containsBlock
    ensures ListGoes(m, data, start, room, data, start, false, [])
  {
    hide ItemParts, ListSize, ListIsLoose;
    assert [] + ItemParts(m, data, start, room) == ItemParts(m, data, start, room);
  }

  lemma ListEnds(m: Markdown, data: bytes, start: ListType, room: nat, rest: bytes, flags: ListType, loose: bool,
                 items: seq<Part>)
    requires Terminated(data) && Terminated(rest) && !start.definition && !flags.definition
    requires ListGoes(m, data, start, room, rest, flags, loose, items) && (rest == [] || ItemPrefix(rest) == 0)
    ensures ListOver(m, data, start, room, rest, loose, items)
  {
    assert ItemParts(m, rest, flags, room) == [] && ListSize(m.ext, m.uni, rest, flags) == 0;
    assert !ListIsLoose(m.ext, m.uni, rest, flags);
    assert items + [] == items;
    hide ItemParts, ListSize, ListIsLoose, ItemPrefix;
  }

  /** One more item. */
  lemma ListGoesOn(m: Markdown, data: bytes, start: ListType, room: nat, rest: bytes, flags: ListType, loose: bool,
                   items: seq<Part>)
    requires Terminated(data) && Terminated(rest) && !start.definition && !flags.definition
    requires ListGoes(m, data, start, room, rest, flags, loose, items) && rest != [] && ItemPrefix(rest) > 0
    ensures var st := ItemText(m.ext, m.uni, rest, flags);
            && 0 < st.line <= |rest| && Terminated(rest[st.line..]) && !st.flags.definition
            && var loose' := loose || st.flags.containsBlock;
            var items' := items + [ItemPart(m, rest, flags, room)];
            if st.flags.endOfList then ListOver(m, data, start, room, rest[st.line..], loose', items')
            else ListGoes(m, data, start, room, rest[st.line..], st.flags.(beginningOfList := false), loose', items')
  {
    var st := ItemText(m.ext, m.uni, rest, flags);
    GatherParts(rest, st);
    TerminatedSuffix(rest, st.line);
    var item := ItemPart(m, rest, flags, room);
    if st.flags.endOfList {
      assert ItemParts(m, rest, flags, room) == [item] && ListSize(m.ext, m.uni, rest, flags) == st.line;
      assert ListIsLoose(m.ext, m.uni, rest, flags) == st.flags.containsBlock;
    } else {
      var next, more := st.flags.(beginningOfList := false), rest[st.line..];
      assert ItemParts(m, rest, flags, room) == [item] + ItemParts(m, more, next, room);
      assert ListSize(m.ext, m.uni, rest, flags) == st.line + ListSize(m.ext, m.uni, more, next);
      assert ListIsLoose(m.ext, m.uni, rest, flags)
             == (st.flags.containsBlock || ListIsLoose(m.ext, m.uni, more, next));
      PartsJoin(items, [item], ItemParts(m, more, next, room));
    }
    hide ItemText, ItemPrefix, ItemParts, ItemPart, ListSize, ListIsLoose, GatherOk;
  }

  /** A list: items until one ends it.  It starts tight and is loosened by the first
      item that holds a block. */
  method List(m: Markdown, data: bytes, kind: ListType, ghost e: NodeId) returns (n: nat)
    requires Ready(m, e) && data != [] && Terminated(data) && BlankLen(data) == 0
    requires !kind.definition && !kind.containsBlock
    modifies m, m.arena
    ensures n == ListSize(m.ext, m.uni, data, kind.(beginningOfList := true))
    ensures Ready(m, e) && m.Frame() == old(m.Frame())
    ensures BlockGrown(old(m.arena.T()), m.arena.T(), e, old(ConstructBound(m, e)))
    ensures Gains(old(m.arena.T()), m.arena.T(), e, [ListPart(m, data, kind.(beginningOfList := true), old(Room(m)))])
    ensures fresh(m.handles - old(m.handles))
    decreases m.maxNesting - m.nesting, 2, 2
  {
    hide *;
    ReadyRange(m, e);
    ReadyNests(m, e);
    ghost var t0, b, room := m.arena.T(), ConstructBound(m, e), Room(m);
    var start := kind.(beginningOfList := true);
    var list := StartList(m, start, e);
    InListParts(m, t0, e, list, b);
    n := Items(m, data, start, t0, e, list, b, room);
    InListParts(m, t0, e, list, b);
    ListClosed(t0, m.arena.T(), e, list, m, data, start, room);
    EndList(m, t0, e, list, b);
  }

  lemma InListParts(m: Markdown, t0: Tree, e: NodeId, list: NodeId, b: nat)
    requires InList(m, t0, e, list, b)
    ensures m.nesting <= m.maxNesting && list < |m.arena.T().nodes| && e < |t0.nodes| && e < list
  {
  }

  /** Closing the list keeps what it shows. */
  lemma ListClosed(t0: Tree, t: Tree, e: NodeId, list: NodeId, m: Markdown, data: bytes, start: ListType, room: nat)
    requires data != [] && Terminated(data) && !start.definition && list < |t.nodes|
    requires ListShows(t0, t, e, list, start, ListIsLoose(m.ext, m.uni, data, start), ItemParts(m, data, start, room))
    ensures Gains(t0, Closed(t, list), e, [ListPart(m, data, start, room)])
  {
    var part := ListPart(m, data, start, room);
    hide ItemParts, ListIsLoose, Shows, Gains;
    ShowsSame(t, Closed(t, list), list, part);
    GainsNode(t0, Closed(t, list), e, list, part.kind, part.data, part.parts);
  }

  /** The items of a list, one after the other. */
  method Items(m: Markdown, data: bytes, start: ListType, ghost t0: Tree, ghost e: NodeId, list: NodeId, ghost b: nat,
               ghost room: nat)
    returns (n: nat)
    requires InList(m, t0, e, list, b) && data != [] && Terminated(data) && BlankLen(data) == 0
    requires !start.definition && !start.containsBlock && m.nesting <= m.maxNesting && room == Room(m)
    requires ListShows(t0, m.arena.T(), e, list, start, false, [])
    modifies m, m.arena
    ensures n == ListSize(m.ext, m.uni, data, start)
    ensures InList(m, t0, e, list, b) && m.Frame() == old(m.Frame())
    ensures ListShows(t0, m.arena.T(), e, list, start, ListIsLoose(m.ext, m.uni, data, start),
                      ItemParts(m, data, start, room))
    ensures fresh(m.handles - old(m.handles))
    decreases m.maxNesting - m.nesting, 2, 1, 1
  {
    hide InList, BlankLen, ItemPrefix, ItemText, ItemParts, ItemPart, ListGoes, ListOver, ListShows, ListSize,
         ListIsLoose, Good, Tree.Valid, GatherOk, Markdown.Valid;
    ghost var frame := m.Frame();
    ghost var loose, items: seq<Part>, over := false, [], false;
    var flags, rest := start, data;
    ListBegins(m, data, start, room);
    while rest != []
      invariant InList(m, t0, e, list, b) && m.Frame() == frame && !flags.definition && !over
      invariant fresh(m.handles - old(m.handles)) && m.nesting <= m.maxNesting && room == Room(m)
      invariant |rest| <= |data| && Terminated(rest) && (rest != [] ==> BlankLen(rest) == 0)
      invariant ListGoes(m, data, start, room, rest, flags, loose, items)
      invariant ListShows(t0, m.arena.T(), e, list, start, loose, items)
      decreases |rest|
    {
      GoesLoose(m, data, start, room, rest, flags, loose, items);
      ghost var before := flags;
      var skip;
      skip, flags := ItemInList(m, rest, flags, t0, e, list, b, start, loose, items);
      if ItemPrefix(rest) > 0 {
        ListGoesOn(m, data, start, room, rest, before, loose, items);
        items := items + [ItemPart(m, rest, before, room)];
        loose := loose || flags.containsBlock;
      } else {
        ListEnds(m, data, start, room, rest, before, loose, items);
        assert rest[0..] == rest;
      }
      over := skip == 0 || flags.endOfList;
      rest := rest[skip..];
      if skip == 0 || flags.endOfList { break; }
      flags := flags.(beginningOfList := false);
    }
    if !over { ListEnds(m, data, start, room, rest, flags, loose, items); }
    ListFound(m, data, start, room, rest, loose, items);
    n := |data| - |rest|;
  }

  lemma GoesLoose(m: Markdown, data: bytes, start: ListType, room: nat, rest: bytes, flags: ListType, loose: bool,
                  items: seq<Part>)
    requires Terminated(data) && Terminated(rest) && !start.definition && !flags.definition
    requires ListGoes(m, data, start, room, rest, flags, loose, items)
    ensures flags.containsBlock ==> loose
  {
  }

  lemma ListFound(m: Markdown, data: bytes, start: ListType, room: nat, rest: bytes, loose: bool, items: seq<Part>)
    requires Terminated(data) && !start.definition && ListOver(m, data, start, room, rest, loose, items)
    ensures |rest| <= |data| && |data| - |rest| == ListSize(m.ext, m.uni, data, start)
    ensures items == ItemParts(m, data, start, room) && loose == ListIsLoose(m.ext, m.uni, data, start)
  {
  }

  method StartList(m: Markdown, flags: ListType, ghost e: NodeId) returns (list: NodeId)
    requires Ready(m, e)
    modifies m`tip, m`oldTip, m`allClosed, m.arena
    ensures InList(m, old(m.arena.T()), e, list, old(ConstructBound(m, e)))
    ensures ListShows(old(m.arena.T()), m.arena.T(), e, list, flags, false, [])
    ensures m.Frame() == old(m.Frame()) && Room(m) == old(Room(m))
  {
    ghost var t0, b := m.arena.T(), ConstructBound(m, e);
    BlockClimbs(t0, m.tip, NodeType.List, e);
    hide Grown, BlockGrown, TipBelow, Tree.Valid, EdgesOk, ClimbsTo, Markdown.Added, ListShows;
    list := m.AddBlock(NodeType.List, "", e);
    ListStarted(t0, m.arena.T(), e, list);
    ListEmpty(t0, m.arena.T(), e, list, flags);
    BoundWeakens(t0, m.arena.T(), e, t0.level[e] + 1, b);
    SetListData(m, t0, e, list, b, NoData.(list := NoData.list.(flags := flags, tight := true)));
  }

  lemma ListEmpty(t0: Tree, t: Tree, e: NodeId, list: NodeId, flags: ListType)
    requires Markdown.Added(t0, t, e, list, NodeType.List)
    ensures ListShows(t0, WithData(t, list, ListDataOf(flags, true)), e, list, flags, false, [])
  {
    assert t.kids[list] == [];
  }

  lemma ListStep(t0: Tree, t: Tree, u: Tree, e: NodeId, list: NodeId, b: nat, c: nat)
    requires BlockGrown(t0, t, e, b) && BlockGrown(t, u, list, c) && c <= b && |t0.nodes| <= list < |t.nodes|
    ensures BlockGrown(t0, u, e, b)
    ensures u.Parent(list) == t.Parent(list) && u.level[list] == t.level[list]
  {
    assert Same(t, u, list);
    BlockGrownTrans(t0, t, u, e, list, b, c);
  }

  /** Changes the data part of the list in progress. */
  method SetListData(m: Markdown, ghost t0: Tree, ghost e: NodeId, list: NodeId, ghost b: nat, d: Data)
    requires ListReady(m, list) && BlockGrown(t0, m.arena.T(), e, b) && |t0.nodes| <= list
    modifies m.arena
    ensures ListReady(m, list) && BlockGrown(t0, m.arena.T(), e, b)
    ensures m.arena.T().Parent(list) == old(m.arena.T()).Parent(list) && m.arena.level == old(m.arena.level)
    ensures m.arena.T() == WithData(old(m.arena.T()), list, d)
  {
    ghost var t := m.arena.T();
    DataGrows(t0, t, e, list, d);
    ClimbSameLinks(t, WithData(t, list, d), m.tip, NodeType.Item, list);
    hide ClimbsTo, Tree.Valid, EdgesOk, Grown;
    m.arena.SetData(list, d);
  }

  lemma {:induction false} ClimbSameLinks(t: Tree, u: Tree, x: NodeId, kind: NodeType, e: NodeId)
    requires t.Valid() && u.Valid() && SameLinks(t, u) && x < |t.nodes| && ClimbsTo(t, x, kind, e)
    ensures ClimbsTo(u, x, kind, e)
    decreases t.level[x]
  {
    if !t.Kind(x).CanContain(kind) {
      assert t.UpOk(x);
      ClimbSameLinks(t, u, t.Parent(x).value, kind, e);
    }
  }

  /** One item, and the mark it leaves on the list. */
  method ItemInList(m: Markdown, data: bytes, flags: ListType, ghost t0: Tree, ghost e: NodeId, list: NodeId,
                    ghost b: nat, ghost start: ListType, ghost loose: bool, ghost items: seq<Part>)
    returns (n: nat, flags': ListType)
    requires InList(m, t0, e, list, b) && data != [] && Terminated(data) && BlankLen(data) == 0 && !flags.definition
    requires ListShows(t0, m.arena.T(), e, list, start, loose, items) && (flags.containsBlock ==> loose)
    modifies m, m.arena
    ensures InList(m, t0, e, list, b) && m.Frame() == old(m.Frame()) && m.nesting <= m.maxNesting
    ensures ItemPrefix(data) == 0 ==>
              n == 0 && flags' == flags && ListShows(t0, m.arena.T(), e, list, start, loose, items)
    ensures ItemPrefix(data) > 0 ==>
              && var st := ItemText(m.ext, m.uni, data, flags);
              n == st.line && flags' == st.flags && 0 < n <= |data| && (n < |data| ==> BlankLen(data[n..]) == 0)
              && ListShows(t0, m.arena.T(), e, list, start, loose || flags'.containsBlock,
                           items + [ItemPart(m, data, flags, old(Room(m)))])
    ensures !flags'.definition
    ensures fresh(m.handles - old(m.handles))
    decreases m.maxNesting - m.nesting, 2, 1, 0
  {
    hide BlankLen, ItemPrefix, ItemText, ItemPart, ClimbsTo, BlockGrown, Tree.Valid, EdgesOk, ListShows, Gains,
         ListDataOf, GatherOk, Markdown.Valid;
    ListRange(m, list);
    InListParts(m, t0, e, list, b);
    ghost var t := m.arena.T();
    ghost var c := t.level[list] + 2 * (m.maxNesting - m.nesting) + 3;
    ghost var more := if ItemPrefix(data) > 0 then [ItemPart(m, data, flags, Room(m))] else [];
    if ItemPrefix(data) > 0 { GatherParts(data, ItemText(m.ext, m.uni, data, flags)); }
    assert items + [] == items;
    n, flags' := ListItem(m, data, flags, list);
    ListStep(t0, t, m.arena.T(), e, list, b, c);
    ItemShown(t0, t, m.arena.T(), e, list, c, start, loose, items, more);
    ListRange(m, list);
    if flags'.containsBlock {
      var d := m.arena.nodes[list].data;
      d := d.(list := d.list.(tight := false));
      Loosened(t0, m.arena.T(), e, list, start, loose, items + more, d);
      SetListData(m, t0, e, list, b, d);
    }
  }

  lemma ItemShown(t0: Tree, t: Tree, u: Tree, e: NodeId, list: NodeId, c: nat, start: ListType, loose: bool,
                  items: seq<Part>, more: seq<Part>)
    requires ListShows(t0, t, e, list, start, loose, items) && BlockGrown(t, u, list, c) && e != list
    requires if |more| == 1 then Gains(t, u, list, more) else more == [] && u == t
    ensures ListShows(t0, u, e, list, start, loose, items + more)
  {
    hide Gains, ListDataOf;
    if |more| == 1 {
      assert more == [more[0]];
      ShowsMore(t, u, list, NodeType.List, ListDataOf(start, !loose), items, more[0]);
    } else {
      assert items + [] == items;
    }
  }

  lemma Loosened(t0: Tree, t: Tree, e: NodeId, list: NodeId, start: ListType, loose: bool, items: seq<Part>, d: Data)
    requires ListShows(t0, t, e, list, start, loose, items) && t.Valid() && list < |t.nodes|
    requires d == t.nodes[list].data.(list := t.nodes[list].data.list.(tight := false))
    ensures ListShows(t0, WithData(t, list, d), e, list, start, true, items)
  {
    ShowsData(t, list, NodeType.List, ListDataOf(start, !loose), items, d);
  }

  lemma ListDone(t0: Tree, t: Tree, e: NodeId, list: NodeId, b: nat)
    requires BlockGrown(t0, t, e, b) && EdgesOk(t) && HostsBlocks(t0.Kind(e)) && list < |t.nodes|
    ensures var u := Closed(t, list); Good(u, e, e) && BlockGrown(t0, u, e, b) && SameLinks(t, u)
  {
    assert Same(t0, t, e);
    ClosedGrows(t, list);
    GrownTrans(t0, t, Closed(t, list), e, e);
  }

  /** Closes the list and moves the insertion point above it.  The looseness tests
      of `finalize_list` can never fire, so closing is all it does. */
  method EndList(m: Markdown, ghost t0: Tree, ghost e: NodeId, list: NodeId, ghost b: nat)
    requires InList(m, t0, e, list, b) && HostsBlocks(t0.Kind(e))
    modifies m`tip, m.arena
    ensures Ready(m, e) && BlockGrown(t0, m.arena.T(), e, b) && m.arena.T() == Closed(old(m.arena.T()), list)
    ensures m.Frame() == old(m.Frame())
  {
    hide ClimbsTo, TipBelow, Grown;
    ListDone(t0, m.arena.T(), e, list, b);
    var above := m.arena.nodes[list].links.parent;
    m.arena.Close(list);
    if above.Some? { m.tip := above.value; }
  }
}
