/** What the block parser makes of a text, as a function of it (src/block.rs): where
    each construct ends, and the nodes it comes to. */
module BlockSpec {
  import opened Bytes
  import opened Node
  import opened BlockScan
  import opened MD = Markdown
  import opened BlockLeaf
  import opened ListScan
  import opened Outline
  import opened QuoteScan
  import BlockTable
  import Fence
  import HtmlBlock
  import Paragraph

  // ----- leaves -----

  /** None of the leaf constructs starts at `data`, nor a blank line. */
  predicate LeavesDecline(ext: Extensions, uni: Unicode, data: bytes)
    requires data != []
  {
    && !HeadingMark(ext, data)
    && !(ext.titleblock && data[0] == '%')
    && (data[0] == '<' ==> HtmlBlock.HtmlSize(data, ext.laxHtmlBlocks) == 0)
    && BlankLen(data) == 0 && CodeLen(data) == 0
    && (ext.fencedCode ==> Fence.FencedSize(uni, data) == 0)
    && !Hrule(data)
  }

  /** An ATX heading; one without text makes no node. */
  function AtxPart(m: Markdown, data: bytes): seq<Part> {
    var h := AtxParts(m.ext, data);
    if h.from < h.to then [Leaf(Heading, AtxData(m, data))] else []
  }

  function HtmlPart(data: bytes, n: nat): seq<Part>
    requires n <= |data|
  {
    [Leaf(HTMLBlock, NoData.(literal := HtmlBlock.WithoutNewlines(data[..n])))]
  }

  function TitlePart(data: bytes): seq<Part> {
    [Leaf(Heading, NoData.(content := TitleText(data[..TitleSize(data)]), heading := HeadingData(1, "", true)))]
  }

  /** A blank line makes nothing; an indented block is code. */
  function CodePart(data: bytes): seq<Part> {
    if BlankLen(data) > 0 then []
    else [Leaf(CodeBlock, NoData.(literal := HtmlBlock.WithoutNewlines(CodeLines(data, 0).1) + "\n"))]
  }

  function FencePart(m: Markdown, data: bytes): seq<Part>
    requires Fence.FencedSize(m.uni, data) > 0
  {
    [Leaf(CodeBlock, FencedData(m, data))]
  }

  /** The leaf construct at the start of `data`, in the dispatcher's order: its size, 0 if
      there is none, and its nodes. */
  function LeafParts(m: Markdown, data: bytes): (nat, seq<Part>)
    requires data != []
  {
    var ext := m.ext;
    if HeadingMark(ext, data) then (AtxParts(ext, data).skip, AtxPart(m, data))
    else if data[0] == '<' && HtmlBlock.HtmlSize(data, ext.laxHtmlBlocks) > 0 then
      (HtmlBlock.HtmlSize(data, ext.laxHtmlBlocks), HtmlPart(data, HtmlBlock.HtmlSize(data, ext.laxHtmlBlocks)))
    else if ext.titleblock && data[0] == '%' then (TitleSize(data), TitlePart(data))
    else if BlankLen(data) > 0 then (BlankLen(data), CodePart(data))
    else if CodeLen(data) > 0 then (CodeLines(data, 0).0, CodePart(data))
    else if ext.fencedCode && Fence.FencedSize(m.uni, data) > 0 then
      (Fence.FencedSize(m.uni, data), FencePart(m, data))
    else if Hrule(data) then (LineEnd(data, 0), [Leaf(HorizontalRule, NoData)])
    else (0, [])
  }

  // ----- the sizes of the leaves -----

  lemma HeadingConsumes(ext: Extensions, data: bytes)
    requires data != [] && HeadingMark(ext, data)
    ensures 1 <= AtxParts(ext, data).skip <= |data|
  {
  }

  /** A rule's line is not empty. */
  lemma RuleHasLine(data: bytes)
    requires Hrule(data)
    ensures 0 < LineEnd(data, 0) <= |data|
  {
    var i := SkipUpTo(data, 0, 3, ' ');
    assert data[0] == ' ' || data[0] == data[i];
  }

  /** A leaf takes at least one byte, and nothing exactly when every test declines. */
  lemma LeafTakes(m: Markdown, data: bytes)
    requires data != [] && Terminated(data)
    ensures LeafParts(m, data).0 <= |data|
    ensures LeafParts(m, data).0 == 0 <==> LeavesDecline(m.ext, m.uni, data)
  {
    if HeadingMark(m.ext, data) { HeadingConsumes(m.ext, data); }
    if data[0] == '%' { TitleConsumes(data); }
    if CodeLen(data) > 0 { CodeConsumes(data); }
    if Hrule(data) { RuleHasLine(data); }
    hide HeadingMark, AtxParts, HtmlBlock.HtmlSize, TitleSize, BlankLen, CodeLen, CodeLines, Fence.FencedSize, Hrule,
         LineEnd, AtxPart, HtmlPart, TitlePart, CodePart, FencePart;
  }

  // ----- lists -----

  /** The text of an item that starts `data`, and where it ends. */
  function ItemText(ext: Extensions, uni: Unicode, data: bytes, flags: ListType): (st: Gather)
    requires data != [] && Terminated(data) && ItemPrefix(data) > 0 && !flags.definition
    ensures GatherOk(data, st) && 0 < st.line
    ensures st.line < |data| ==> BlankLen(data[st.line..]) == 0
  {
    FirstIsOk(data, flags);
    hide Gathered, HeadOf, ItemPrefix, BlankLen;
    Gathered(ext, uni, data, FirstOf(data, flags), HeadOf(data, flags).indent)
  }

  /** The first line of an item, from its text on. */
  function FirstOf(data: bytes, flags: ListType): Gather
    requires data != []
  {
    var p := ItemPrefix(data);
    var a := if p <= |data| then Skip(data, p, Is(' ')) else |data|;
    Gather(NextLine(data, a), data[a..NextLine(data, a)], false, 0, "", HeadOf(data, flags).flags)
  }

  lemma FirstIsOk(data: bytes, flags: ListType)
    requires data != [] && Terminated(data) && ItemPrefix(data) > 0 && !flags.definition
    ensures GatherOk(data, FirstOf(data, flags)) && 0 < FirstOf(data, flags).line
    ensures ItemPrefix(data) < |data| && data[ItemPrefix(data) - 1] != '\n'
  {
    PrefixOnLine(data);
    var p := ItemPrefix(data);
    var a := Skip(data, p, Is(' '));
    hide ItemPrefix, HeadOf;
    assert data[|data| - 1] == '\n';
    var i := NextLine(data, a);
    assert data[a..i][i - a - 1] == data[i - 1];
    HeadKeepsKind(data, flags);
  }

  lemma HeadKeepsKind(data: bytes, flags: ListType)
    requires data != []
    ensures HeadOf(data, flags).flags.definition == flags.definition
  {
    hide UliLen, OliLen, DliLen, ItemPrefix;
  }

  /** A prefix ends in a space, before the line does. */
  lemma PrefixOnLine(data: bytes)
    requires data != [] && Terminated(data) && ItemPrefix(data) > 0
    ensures ItemPrefix(data) < |data| && data[ItemPrefix(data) - 1] != '\n'
  {
  }

  /** How much of `data` the items of a list take. */
  function ListSize(ext: Extensions, uni: Unicode, data: bytes, flags: ListType): (n: nat)
    requires Terminated(data) && !flags.definition
    ensures n <= |data| && (data != [] && ItemPrefix(data) > 0 ==> n > 0)
  {
    if data == [] || ItemPrefix(data) == 0 then 0
    else
      var st := ItemText(ext, uni, data, flags);
      hide ItemText, ItemPrefix;
      if st.flags.endOfList then st.line
      else
        TerminatedSuffix(data, st.line);
        st.line + ListSize(ext, uni, data[st.line..], st.flags.(beginningOfList := false))
  }

  /** Some item holds a block. */
  predicate ListIsLoose(ext: Extensions, uni: Unicode, data: bytes, flags: ListType)
    requires Terminated(data) && !flags.definition
    decreases |data|
  {
    data != [] && ItemPrefix(data) > 0 &&
    (var st := ItemText(ext, uni, data, flags);
     hide ItemText, ItemPrefix;
     st.flags.containsBlock
     || (!st.flags.endOfList
         && (TerminatedSuffix(data, st.line);
             ListIsLoose(ext, uni, data[st.line..], st.flags.(beginningOfList := false)))))
  }

  /** The data part of an item. */
  function ItemData(flags: ListType, bullet: byte): Data {
    NoData.(list := ListData(flags, false, bullet, '.', None, false))
  }

  function ListDataOf(flags: ListType, tight: bool): Data {
    NoData.(list := NoData.list.(flags := flags, tight := tight))
  }

  // ----- everything -----

  /** The size of the construct at the start of `data`. */
  function Size(m: Markdown, data: bytes): (n: nat)
    requires data != [] && Terminated(data)
    ensures 1 <= n <= |data|
  {
    LeafTakes(m, data);
    hide LeafParts;
    if LeafParts(m, data).0 > 0 then LeafParts(m, data).0
    else
      RestTakes(m, data);
      hide LeavesDecline, QuoteSize, BlockTable.TableSize, ListSize, Paragraph.ParagraphParts, QuoteLen, UliLen, OliLen;
      if QuoteLen(data) > 0 then QuoteSize(m.ext, m.uni, data, 0)
      else if m.ext.tables && BlockTable.TableSize(data) > 0 then BlockTable.TableSize(data)
      else if UliLen(data) > 0 then ListSize(m.ext, m.uni, data, ListStart(false))
      else if OliLen(data) > 0 then ListSize(m.ext, m.uni, data, ListStart(true))
      else Paragraph.ParagraphParts(m, data).0
  }

  function ListStart(ordered: bool): ListType { NoListType.(ordered := ordered, beginningOfList := true) }

  /** Once every earlier test of the dispatcher has declined, nothing can stop a
      paragraph before its first line. */
  lemma DispatcherProtectsParagraph(ext: Extensions, uni: Unicode, data: bytes)
    requires data != [] && LeavesDecline(ext, uni, data)
    requires QuoteLen(data) == 0 && UliLen(data) == 0 && OliLen(data) == 0
    ensures !Paragraph.StopsParagraph(ext, uni, data) && BlankLen(data) == 0
  {
  }

  /** What is left to quotes, lists and paragraphs takes something as well. */
  lemma RestTakes(m: Markdown, data: bytes)
    requires data != [] && Terminated(data) && LeavesDecline(m.ext, m.uni, data)
    ensures UliLen(data) > 0 || OliLen(data) > 0 ==> ItemPrefix(data) > 0
    ensures QuoteLen(data) == 0 && UliLen(data) == 0 && OliLen(data) == 0 ==>
              1 <= Paragraph.ParagraphParts(m, data).0 <= |data|
  {
    hide LeavesDecline, UliLen, OliLen, QuoteLen, Paragraph.ParagraphParts, Paragraph.StopsParagraph, BlankLen;
    if QuoteLen(data) == 0 && UliLen(data) == 0 && OliLen(data) == 0 {
      DispatcherProtectsParagraph(m.ext, m.uni, data);
      Paragraph.ParagraphTakes(m, data);
      Paragraph.ParagraphFits(m, data);
    }
  }

  /** The nodes that `data` comes to, with `room` levels of nesting left: construct after
      construct, nothing when there is no room. */
  function Parts(m: Markdown, data: bytes, room: nat): seq<Part>
    requires Terminated(data)
    decreases room, 1, |data|
  {
    if room == 0 || data == [] then []
    else
      TerminatedSuffix(data, Size(m, data));
      OneParts(m, data, room - 1) + Parts(m, data[Size(m, data)..], room)
  }

  /** The nodes of the construct at the start of `data`. */
  function OneParts(m: Markdown, data: bytes, room: nat): seq<Part>
    requires data != [] && Terminated(data)
    decreases room, 5
  {
    if LeafParts(m, data).0 > 0 then LeafParts(m, data).1
    else if QuoteLen(data) > 0 then
      QuoteTextTerminated(m.ext, m.uni, data, 0);
      [Part(BlockQuote, NoData, Parts(m, QuoteText(m.ext, m.uni, data, 0), room))]
    else if m.ext.tables && BlockTable.TableSize(data) > 0 then [BlockTable.TablePart(data)]
    else if UliLen(data) > 0 then [ListPart(m, data, ListStart(false), room)]
    else if OliLen(data) > 0 then [ListPart(m, data, ListStart(true), room)]
    else Paragraph.ParagraphParts(m, data).1
  }

  /** A list with its items; it is tight unless an item holds a block. */
  function ListPart(m: Markdown, data: bytes, flags: ListType, room: nat): Part
    requires data != [] && Terminated(data) && !flags.definition
    decreases room, 4
  {
    Part(NodeType.List, ListDataOf(flags, !ListIsLoose(m.ext, m.uni, data, flags)), ItemParts(m, data, flags, room))
  }

  /** The items from the start of `data` on. */
  function ItemParts(m: Markdown, data: bytes, flags: ListType, room: nat): seq<Part>
    requires Terminated(data) && !flags.definition
    decreases room, 3, |data|
  {
    if data == [] || ItemPrefix(data) == 0 then []
    else
      var st := ItemText(m.ext, m.uni, data, flags);
      hide ItemText, ItemPrefix;
      if st.flags.endOfList then [ItemPart(m, data, flags, room)]
      else
        TerminatedSuffix(data, st.line);
        [ItemPart(m, data, flags, room)]
        + ItemParts(m, data[st.line..], st.flags.(beginningOfList := false), room)
  }

  /** The item that starts `data`. */
  function ItemPart(m: Markdown, data: bytes, flags: ListType, room: nat): Part
    requires data != [] && Terminated(data) && ItemPrefix(data) > 0 && !flags.definition
    decreases room, 3, 0
  {
    var st := ItemText(m.ext, m.uni, data, flags);
    hide ItemText, ItemPrefix, GatherOk, HeadOf;
    GatherParts(data, st);
    Part(NodeType.Item, ItemData(st.flags, HeadOf(data, flags).bullet), BodyParts(m, st, room))
  }

  lemma GatherParts(data: bytes, st: Gather)
    requires GatherOk(data, st)
    ensures st.line <= |data| && st.raw != [] && Terminated(st.raw) && st.sublist <= |st.raw|
    ensures Terminated(st.raw[..st.sublist]) && Terminated(st.raw[st.sublist..]) && !st.flags.definition
  {
    TerminatedSuffix(st.raw, st.sublist);
  }

  /** What hangs below an item: its text as blocks when it held one, otherwise as one
      paragraph and the nested list. */
  function BodyParts(m: Markdown, st: Gather, room: nat): seq<Part>
    requires Terminated(st.raw) && st.sublist <= |st.raw|
    requires Terminated(st.raw[..st.sublist]) && Terminated(st.raw[st.sublist..])
    decreases room, 2
  {
    var head, tail := st.raw[..st.sublist], st.raw[st.sublist..];
    if st.flags.containsBlock && !st.flags.term then
      if st.sublist == 0 then Parts(m, st.raw, room) else Parts(m, head, room) + Parts(m, tail, room)
    else
      [Leaf(NodeType.Paragraph, NoData.(content := if st.sublist > 0 then head else st.raw))]
      + (if st.sublist > 0 then Parts(m, tail, room) else [])
  }
}
