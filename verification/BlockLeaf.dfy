/** Block constructs without children: headings, code, HTML, rules, paragraphs. */
module BlockLeaf {
  import opened Bytes
  import opened Node
  import opened Growth
  import opened BlockScan
  import opened MD = Markdown
  import Fence
  import HtmlBlock

  // ----- the state every block parser keeps -----

  /** The tree is sound and the next block goes below `e`. */
  ghost predicate Good(t: Tree, tip: NodeId, e: NodeId) {
    && t.Valid() && EdgesOk(t) && tip < |t.nodes| && e < |t.nodes|
    && HostsBlocks(t.Kind(e)) && TipBelow(t, tip, e)
  }

  ghost predicate Ready(m: Markdown, e: NodeId)
    reads m, m.arena
  {
    && m.Valid() && !m.ext.definitionLists && m.nesting <= m.maxNesting
    && Good(m.arena.T(), m.tip, e)
  }

  lemma ReadyRange(m: Markdown, e: NodeId)
    requires Ready(m, e)
    ensures e < |m.arena.nodes| && e < |m.arena.level|
  {
  }

  /** A leaf block just added below `e`, with its payload filled in. */
  lemma LeafFilled(t0: Tree, t: Tree, e: NodeId, node: NodeId, kind: NodeType, d: Data)
    requires Markdown.Added(t0, t, e, node, kind) && EdgesOk(t) && HostsBlocks(t0.Kind(e)) && Sealed(kind)
    requires BlockNode(Node(kind, NoLinks, true, d))
    ensures var u := WithData(t, node, d); Good(u, node, e) && BlockGrown(t0, u, e, t0.level[e] + 1) && SameLinks(t, u)
  {
    assert Same(t0, t, e);
    assert t.UpOk(node);
    DataGrows(t0, t, e, node, d);
    TipSameLinks(t, WithData(t, node, d), node, e);
  }

  lemma {:induction false} TipSameLinks(t: Tree, u: Tree, x: NodeId, g: NodeId)
    requires t.Valid() && u.Valid() && SameLinks(t, u) && x < |t.nodes| && TipBelow(t, x, g)
    ensures TipBelow(u, x, g)
    decreases t.level[x]
  {
    if x != g {
      assert t.UpOk(x);
      TipSameLinks(t, u, t.Parent(x).value, g);
    }
  }

  /** Adds a leaf block and fills in its payload. */
  method AddLeaf(m: Markdown, kind: NodeType, d: Data, ghost e: NodeId) returns (node: NodeId)
    requires Ready(m, e) && Freestanding(kind) && Sealed(kind) && BlockNode(Node(kind, NoLinks, true, d))
    modifies m`tip, m`oldTip, m`allClosed, m.arena
    ensures Ready(m, e) && m.tip == node
    ensures Markdown.Added(old(m.arena.T()), m.arena.T(), e, node, kind)
    ensures BlockGrown(old(m.arena.T()), m.arena.T(), e, old(m.arena.level)[e] + 1)
    ensures m.arena.nodes[node].data == d
  {
    ghost var t0 := m.arena.T();
    hide Tree.Valid, TipBelow, Grown;
    BlockClimbs(t0, m.tip, kind, e);
    node := m.AddBlock(kind, d.content, e);
    ghost var t := m.arena.T();
    LeafFilled(t0, t, e, node, kind, d);
    FilledIsAdded(t0, t, e, node, kind, d);
    m.arena.SetData(node, d);
  }

  lemma FilledIsAdded(t0: Tree, t: Tree, e: NodeId, node: NodeId, kind: NodeType, d: Data)
    requires Markdown.Added(t0, t, e, node, kind)
    ensures Markdown.Added(t0, WithData(t, node, d), e, node, kind)
  {
    DataGrows(t0, t, e, node, d);
  }

  // ----- code -----

  /** What a finished fenced block stores. */
  function FencedData(m: Markdown, data: bytes): Data
    requires Fence.Fenced(m.uni, data).Some?
  {
    var b := Fence.Fenced(m.uni, data).value;
    NoData.(literal := data[b.bodyStart..b.bodyEnd],
            codeBlock := CodeBlockData(true, Fence.InfoText(m.names, b.info), b.bodyStart - 1))
  }

  /** Splits a staged fenced block into its info string and its body. */
  method FinalizeCodeBlock(m: Markdown, content: bytes, fenceLength: nat, ghost info: bytes, ghost body: bytes)
    returns (d: Data)
    requires '\n' !in info && content == info + ['\n'] + body
    ensures d == NoData.(literal := body, codeBlock := CodeBlockData(true, Fence.InfoText(m.names, info), fenceLength))
  {
    assert content[|info|] == '\n';
    var first, rest := Fence.SplitStaged(content);
    Fence.SplitIsUnique(info, body, first, rest);
    var text := Fence.UnescapeInfo(m.names, first);
    d := NoData.(literal := rest, codeBlock := CodeBlockData(true, text, fenceLength));
  }

  /** Parses a fenced block; without `doRender` it only measures it and changes
      nothing, and both report the same size. */
  method FencedCodeBlock(m: Markdown, data: bytes, doRender: bool, ghost e: NodeId) returns (n: nat)
    requires doRender ==> Ready(m, e)
    modifies m`tip, m`oldTip, m`allClosed, m.arena
    ensures n == Fence.FencedSize(m.uni, data)
    ensures !doRender || n == 0 ==>
              m.arena.T() == old(m.arena.T()) && m.tip == old(m.tip) && m.oldTip == old(m.oldTip)
              && m.allClosed == old(m.allClosed)
    ensures doRender ==> Ready(m, e) && BlockGrown(old(m.arena.T()), m.arena.T(), e, old(m.arena.level)[e] + 1)
    ensures doRender && n > 0 ==>
              Markdown.Added(old(m.arena.T()), m.arena.T(), e, m.tip, CodeBlock)
              && m.arena.nodes[m.tip].data == FencedData(m, data)
  {
    hide Fence.FenceAt, Fence.CloseFence, Tree.Valid, TipBelow, EdgesOk, Fence.InfoText;
    var block, body := Fence.ScanFenced(m.uni, data, doRender);
    if block == None { return 0; }
    if doRender {
      Fence.InfoHasNoNewline(m.uni, data);
      var b := block.value;
      var work := b.info + ['\n'] + body;
      var d := FinalizeCodeBlock(m, work, b.bodyStart - 1, b.info, body);
      var node := AddLeaf(m, CodeBlock, d, e);
    }
    return block.value.size;
  }

  /** The lines of an indented block from position `i`: where they end, and their
      text without the indent; blank lines count as bare newlines. */
  function CodeLines(data: bytes, i: nat): (r: (nat, bytes))
    requires i <= |data|
    ensures i <= r.0 <= |data|
    decreases |data| - i
  {
    if i == |data| then (i, "")
    else
      var line := data[i..NextLine(data, i)];
      var blank := BlankLen(line) > 0;
      if CodeLen(line) == 0 && !blank then (i, "")
      else
        var rest := CodeLines(data, NextLine(data, i));
        (rest.0, (if blank then "\n" else line[CodeLen(line)..]) + rest.1)
  }

  method CodePrefix(data: bytes) returns (n: nat)
    ensures n == CodeLen(data)
  {
    if data != [] && data[0] == '\t' { return 1; }
    if |data| >= 4 && data[..4] == "    " { return 4; }
    return 0;
  }

  method ScanCode(data: bytes) returns (i: nat, work: bytes)
    ensures (i, work) == CodeLines(data, 0)
  {
    hide CodeLen, BlankLen;
    i, work := 0, "";
    assert "" + CodeLines(data, 0).1 == CodeLines(data, 0).1;
    while i < |data|
      invariant i <= |data|
      invariant CodeLines(data, 0) == (CodeLines(data, i).0, work + CodeLines(data, i).1)
      decreases |data| - i
    {
      var next := NextLineStart(data, i);
      var line := data[i..next];
      var blank := IsEmpty(line);
      var pre := CodePrefix(line);
      if pre == 0 && blank == 0 { assert work + "" == work; return; }
      var text := if blank > 0 then "\n" else line[pre..];
      ConcatAssoc(work, text, CodeLines(data, next).1);
      work := work + text;
      i := next;
    }
    assert work + "" == work;
  }

  lemma CodeConsumes(data: bytes)
    requires CodeLen(data) > 0
    ensures CodeLines(data, 0).0 > 0
  {
    var line := data[0..NextLine(data, 0)];
    assert CodeLen(line) > 0 by {
      assert forall k :: 0 <= k < CodeLen(data) ==> data[k] != '\n';
      if data[0] != '\t' { assert line[..4] == data[..4]; }
    }
  }

  /** An indented code block: de-indented lines, with exactly one final newline. */
  method Code(m: Markdown, data: bytes, ghost e: NodeId) returns (n: nat)
    requires Ready(m, e)
    modifies m`tip, m`oldTip, m`allClosed, m.arena
    ensures n == CodeLines(data, 0).0
    ensures Ready(m, e) && BlockGrown(old(m.arena.T()), m.arena.T(), e, old(m.arena.level)[e] + 1)
    ensures Markdown.Added(old(m.arena.T()), m.arena.T(), e, m.tip, CodeBlock)
    ensures m.arena.nodes[m.tip].data
         == NoData.(literal := HtmlBlock.WithoutNewlines(CodeLines(data, 0).1) + "\n")
  {
    var work;
    n, work := ScanCode(data);
    work := HtmlBlock.TrimNewlines(work);
    var node := AddLeaf(m, CodeBlock, NoData.(literal := work + "\n"), e);
  }

  // ----- HTML -----

  method Html(m: Markdown, data: bytes, doRender: bool, ghost e: NodeId) returns (n: nat)
    requires data != [] && (doRender ==> Ready(m, e))
    modifies m`tip, m`oldTip, m`allClosed, m.arena
    ensures n == HtmlBlock.HtmlSize(data, m.ext.laxHtmlBlocks)
    ensures !doRender || n == 0 ==>
              m.arena.T() == old(m.arena.T()) && m.tip == old(m.tip) && m.oldTip == old(m.oldTip)
              && m.allClosed == old(m.allClosed)
    ensures doRender ==> Ready(m, e) && BlockGrown(old(m.arena.T()), m.arena.T(), e, old(m.arena.level)[e] + 1)
    ensures doRender && n > 0 ==>
              Markdown.Added(old(m.arena.T()), m.arena.T(), e, m.tip, HTMLBlock)
              && m.arena.nodes[m.tip].data == NoData.(literal := HtmlBlock.WithoutNewlines(data[..n]))
  {
    hide HtmlBlock.HtmlSize, Tree.Valid, TipBelow, EdgesOk;
    n := HtmlBlock.ScanHtml(data, m.ext.laxHtmlBlocks);
    if n > 0 && doRender {
      var text := HtmlBlock.TrimNewlines(data[..n]);
      var node := AddLeaf(m, HTMLBlock, NoData.(literal := text), e);
    }
  }

  // ----- headings -----

  function TrimBack(data: bytes, end: nat, c: byte): (r: nat)
    requires end <= |data|
    ensures r <= end && (forall k :: r <= k < end ==> data[k] == c) && (r > 0 ==> data[r - 1] != c || r == 0)
  {
    if end > 0 && data[end - 1] == c then TrimBack(data, end - 1, c) else end
  }

  function TrimHashes(data: bytes, end: nat): (r: nat)
    requires end <= |data|
    ensures r <= end
  {
    if end > 0 && data[end - 1] == '#' && !Escaped(data, end - 1) then TrimHashes(data, end - 1) else end
  }

  /** The first `{#` at or after `j` and before `end`; `end - 1` or later if none. */
  function IdOpen(data: bytes, j: nat, end: nat): (r: nat)
    requires j <= end <= |data|
    ensures j <= r <= end && (r + 1 < end ==> data[r] == '{' && data[r + 1] == '#')
    decreases end - j
  {
    if j + 1 < end && !(data[j] == '{' && data[j + 1] == '#') then IdOpen(data, j + 1, end) else j
  }

  function IdClose(data: bytes, k: nat, end: nat): (r: nat)
    requires end <= |data|
    ensures r >= k && (r < end ==> data[r] == '}') && (r > k ==> r <= end && data[k] != '}')
    decreases end - k
  {
    if k < end && data[k] != '}' then IdClose(data, k + 1, end) else k
  }

  /** The parts of an ATX heading: its text is `data[from..to]`. */
  datatype HeadingParts = HeadingParts(level: nat, from: nat, to: nat, skip: nat, id: bytes)

  function HeadingText(data: bytes, end: nat): nat
    requires end <= |data|
  {
    TrimBack(data, TrimHashes(data, end), ' ')
  }

  function AtxParts(ext: Extensions, data: bytes): (r: HeadingParts)
    ensures r.level <= 6 && r.from <= |data| && r.to <= |data| && r.skip <= |data|
    ensures data != [] && data[0] == '#' ==> r.level >= 1 && r.skip >= 1
  {
    var level := SkipUpTo(data, 0, 6, '#');
    var i := Skip(data, level, Is(' '));
    var end := LineEnd(data, i);
    var j := IdOpen(data, i, end);
    var k := IdClose(data, j + 1, end);
    if ext.headingIds && j < end && k < end then
      HeadingParts(level, i, HeadingText(data, TrimBack(data, j, ' ')), k + 1, data[j + 2..k])
    else HeadingParts(level, i, HeadingText(data, end), end, "")
  }

  method TrimBackMethod(data: bytes, start: nat, c: byte) returns (end: nat)
    requires start <= |data|
    ensures end == TrimBack(data, start, c)
  {
    end := start;
    while end > 0 && data[end - 1] == c
      invariant 0 <= end <= start && TrimBack(data, end, c) == TrimBack(data, start, c)
    {
      end := end - 1;
    }
  }

  method TrimHeading(data: bytes, start: nat) returns (end: nat)
    requires start <= |data|
    ensures end == HeadingText(data, start)
  {
    end := start;
    while end > 0 && data[end - 1] == '#'
      invariant 0 <= end <= start && TrimHashes(data, end) == TrimHashes(data, start)
    {
      var escaped := IsBackslashEscaped(data, end - 1);
      if escaped { break; }
      end := end - 1;
    }
    end := TrimBackMethod(data, end, ' ');
  }

  method FindId(data: bytes, i: nat, end: nat) returns (j: nat, k: nat)
    requires i <= end <= |data|
    ensures j == IdOpen(data, i, end) && k == IdClose(data, j + 1, end)
  {
    j := i;
    while j + 1 < end && (data[j] != '{' || data[j + 1] != '#')
      invariant i <= j <= end && IdOpen(data, j, end) == IdOpen(data, i, end)
    {
      j := j + 1;
    }
    k := j + 1;
    while k < end && data[k] != '}'
      invariant j < k && IdClose(data, k, end) == IdClose(data, j + 1, end)
    {
      k := k + 1;
    }
  }

  method ScanAtx(ext: Extensions, data: bytes) returns (r: HeadingParts)
    ensures r == AtxParts(ext, data)
  {
    hide IdOpen, IdClose, HeadingText, TrimBack, SkipUpTo, Skip;
    var level := HeadingLevel(data);
    var i := SkipChar(data, level, ' ');
    var end := SkipUntilChar(data, i, '\n');
    var skip, id := end, "";
    if ext.headingIds {
      var j, k := FindId(data, i, end);
      if j < end && k < end {
        id := data[j + 2..k];
        end := TrimBackMethod(data, j, ' ');
        skip := k + 1;
      }
    }
    end := TrimHeading(data, end);
    return HeadingParts(level, i, end, skip, id);
  }

  /** The payload of an ATX heading; an id is made from the text only if asked for
      and none was written. */
  function AtxData(m: Markdown, data: bytes): Data
    requires AtxParts(m.ext, data).from <= AtxParts(m.ext, data).to
  {
    var h := AtxParts(m.ext, data);
    var text := data[h.from..h.to];
    var id := if h.id == [] && m.ext.autoHeadingIds then m.uni.anchor(text) else h.id;
    NoData.(content := text, heading := HeadingData(h.level, id, false))
  }

  /** An ATX heading; no node is made when its text is empty. */
  method PrefixHeading(m: Markdown, data: bytes, ghost e: NodeId) returns (n: nat)
    requires Ready(m, e) && data != [] && data[0] == '#'
    modifies m`tip, m`oldTip, m`allClosed, m.arena
    ensures n == AtxParts(m.ext, data).skip
    ensures Ready(m, e) && BlockGrown(old(m.arena.T()), m.arena.T(), e, old(m.arena.level)[e] + 1)
    ensures var h := AtxParts(m.ext, data);
            if h.from < h.to then
              Markdown.Added(old(m.arena.T()), m.arena.T(), e, m.tip, Heading)
              && m.arena.nodes[m.tip].data == AtxData(m, data)
            else m.arena.T() == old(m.arena.T())
  {
    var h := ScanAtx(m.ext, data);
    assert h.level >= 1;
    hide AtxParts, Tree.Valid, TipBelow, EdgesOk;
    if h.to > h.from {
      var text := data[h.from..h.to];
      var id := h.id;
      if id == [] && m.ext.autoHeadingIds { id := m.uni.anchor(text); }
      var node := AddLeaf(m, Heading, NoData.(content := text, heading := HeadingData(h.level, id, false)), e);
    }
    return h.skip;
  }

  // ----- title blocks -----

  /** From the start of a line: where the run of lines starting with `%` ends, and
      whether some line after them breaks the run. */
  function TitleRun(data: bytes, i: nat): (r: (nat, bool))
    requires i <= |data|
    ensures i <= r.0 <= |data|
    decreases |data| - i
  {
    if i < |data| && data[i] == '%' then
      var e := LineEnd(data, i);
      if e < |data| then TitleRun(data, e + 1) else (|data|, false)
    else (i, true)
  }

  /** Bytes consumed: the `%` lines without their last newline.  When every line
      starts with `%` the original never records where they end, and the answer
      is 0. */
  function TitleSize(data: bytes): (n: nat)
    ensures n <= |data|
  {
    var (i, broken) := TitleRun(data, 0);
    if broken && i > 0 then i - 1 else 0
  }

  method ScanTitle(data: bytes) returns (n: nat)
    ensures n == TitleSize(data)
  {
    var i := 0;
    while i < |data| && data[i] == '%'
      invariant i <= |data| && TitleRun(data, i) == TitleRun(data, 0)
      decreases |data| - i
    {
      var e := SkipUntilChar(data, i, '\n');
      if e == |data| { return 0; }
      i := e + 1;
    }
    return if i > 0 then i - 1 else 0;
  }

  /** In terminated data some line always breaks the run. */
  lemma TitleConsumes(data: bytes)
    requires data != [] && data[0] == '%' && Terminated(data)
    ensures TitleSize(data) > 0
  {
    TitleBreaks(data, 0);
  }

  lemma {:induction false} TitleBreaks(data: bytes, i: nat)
    requires i <= |data| && Terminated(data)
    ensures TitleRun(data, i).1
    ensures i < |data| && data[i] == '%' ==> TitleRun(data, i).0 > i + 1
    decreases |data| - i
  {
    if i < |data| && data[i] == '%' {
      var e := LineEnd(data, i);
      TitleBreaks(data, e + 1);
    }
  }

  function DropTitleMarks(s: bytes): bytes {
    if |s| >= 3 && s[..3] == "\n% " then "\n" + DropTitleMarks(s[3..])
    else if s == [] then []
    else [s[0]] + DropTitleMarks(s[1..])
  }

  function TitleText(s: bytes): bytes {
    DropTitleMarks(if StartsWith(s, "% ") then s[2..] else s)
  }

  method ReplaceMarks(s: bytes) returns (out: bytes)
    ensures out == DropTitleMarks(s)
  {
    out := "";
    var i := 0;
    assert s[0..] == s;
    while i < |s|
      invariant i <= |s| && DropTitleMarks(s) == out + DropTitleMarks(s[i..])
    {
      if i + 3 <= |s| && s[i..i + 3] == "\n% " {
        assert s[i..][..3] == s[i..i + 3] && s[i..][3..] == s[i + 3..];
        ConcatAssoc(out, "\n", DropTitleMarks(s[i + 3..]));
        out := out + "\n";
        i := i + 3;
      } else {
        if |s[i..]| >= 3 { assert s[i..][..3] == s[i..i + 3]; }
        assert s[i..][1..] == s[i + 1..];
        ConcatAssoc(out, [s[i]], DropTitleMarks(s[i + 1..]));
        out := out + [s[i]];
        i := i + 1;
      }
    }
  }

  /** A title block.  It adds its heading even when it consumes nothing. */
  method TitleBlock(m: Markdown, data: bytes, ghost e: NodeId) returns (n: nat)
    requires Ready(m, e) && data != []
    modifies m`tip, m`oldTip, m`allClosed, m.arena
    ensures n == if data[0] == '%' then TitleSize(data) else 0
    ensures Ready(m, e) && BlockGrown(old(m.arena.T()), m.arena.T(), e, old(m.arena.level)[e] + 1)
    ensures data[0] == '%' ==>
              Markdown.Added(old(m.arena.T()), m.arena.T(), e, m.tip, Heading)
              && m.arena.nodes[m.tip].data
                 == NoData.(content := TitleText(data[..TitleSize(data)]), heading := HeadingData(1, "", true))
  {
    hide TitleSize, Tree.Valid, TipBelow, EdgesOk;
    if data[0] != '%' { return 0; }
    n := ScanTitle(data);
    var content := data[..n];
    if StartsWith(content, "% ") { content := content[2..]; }
    content := ReplaceMarks(content);
    var node := AddLeaf(m, Heading, NoData.(content := content, heading := HeadingData(1, "", true)), e);
  }

  // ----- paragraphs -----

  /** A paragraph's text: leading spaces, one final newline and the spaces before
      it are dropped. */
  function ParagraphText(data: bytes): bytes {
    var beg := Skip(data, 0, Is(' '));
    var end := if data != [] && data[|data| - 1] == '\n' then |data| - 1 else |data|;
    data[beg..if beg <= end then TrimTo(data, beg, end) else beg]
  }

  function TrimTo(data: bytes, beg: nat, end: nat): (r: nat)
    requires beg <= end <= |data|
    ensures beg <= r <= end
  {
    if end > beg && data[end - 1] == ' ' then TrimTo(data, beg, end - 1) else end
  }

  /** Some byte is not a space: what keeps the unguarded trimming loop in range. */
  predicate HasText(data: bytes) { Skip(data, 0, Is(' ')) < |data| }

  method TrimParagraph(data: bytes) returns (text: bytes)
    requires HasText(data)
    ensures text == ParagraphText(data)
  {
    var beg := 0;
    ghost var s := Skip(data, 0, Is(' '));
    while data[beg] == ' '
      invariant 0 <= beg <= s && Skip(data, beg, Is(' ')) == s
      decreases s - beg
    {
      beg := beg + 1;
    }
    var end := |data|;
    if data[|data| - 1] == '\n' { end := end - 1; }
    ghost var last := end;
    while end > beg && data[end - 1] == ' '
      invariant beg <= last ==> beg <= end <= last && TrimTo(data, beg, end) == TrimTo(data, beg, last)
      invariant beg > last ==> end == last
    {
      end := end - 1;
    }
    return data[beg..end];
  }

  /** Adds a paragraph; empty input adds nothing. */
  method RenderParagraph(m: Markdown, data: bytes, ghost e: NodeId)
    requires Ready(m, e) && (data != [] ==> HasText(data))
    modifies m`tip, m`oldTip, m`allClosed, m.arena
    ensures Ready(m, e) && BlockGrown(old(m.arena.T()), m.arena.T(), e, old(m.arena.level)[e] + 1)
    ensures data == [] ==> m.arena.T() == old(m.arena.T())
    ensures data != [] ==>
              Markdown.Added(old(m.arena.T()), m.arena.T(), e, m.tip, Paragraph)
              && m.arena.nodes[m.tip].data == NoData.(content := ParagraphText(data))
  {
    hide ParagraphText, Tree.Valid, TipBelow, EdgesOk, HasText;
    if data == [] { return; }
    var text := TrimParagraph(data);
    var node := AddLeaf(m, Paragraph, NoData.(content := text), e);
  }
}
