/** Link-reference and footnote definitions (src/markdown.rs). */
module References {
  import opened Bytes
  import opened BlockScan
  import opened MD = Markdown

  // ----- the head: `[id]:` -----

  function NotIdEnd(): byte -> bool { c => c != '\n' && c != '\r' && c != ']' }

  /** Up to three spaces, `[`, an id (after `^` for a footnote), `]`, `:`. */
  datatype RefHead = RefHead(isNote: bool, idStart: nat, idEnd: nat)

  function HeadAt(data: bytes, footnotes: bool): (r: Option<RefHead>)
    ensures r.Some? ==> 1 <= r.value.idStart <= r.value.idEnd && r.value.idEnd + 2 <= |data|
                        && data[r.value.idEnd] == ']' && data[r.value.idEnd + 1] == ':'
    ensures r.Some? && !r.value.isNote ==> r.value.idStart < r.value.idEnd
  {
    var i := SkipUpTo(data, 0, 3, ' ');
    if |data| < 4 || data[i] != '[' then None
    else
      var note := footnotes && i + 1 < |data| && data[i + 1] == '^';
      var a := if note then i + 2 else i + 1;
      var b := Skip(data, a, NotIdEnd());
      if b + 1 >= |data| || data[b] != ']' || data[b + 1] != ':' || (!note && a == b) then None
      else Some(RefHead(note, a, b))
  }

  method ScanHead(data: bytes, footnotes: bool) returns (ok: bool, h: RefHead)
    ensures ok <==> HeadAt(data, footnotes).Some?
    ensures ok ==> HeadAt(data, footnotes) == Some(h)
  {
    h := RefHead(false, 0, 0);
    if |data| < 4 { return false, h; }
    var i := SkipIndent(data);
    if data[i] != '[' { return false, h; }
    i := i + 1;
    var note := false;
    if footnotes && i < |data| && data[i] == '^' {
      note := true;
      i := i + 1;
    }
    var a := i;
    while i < |data| && data[i] != '\n' && data[i] != '\r' && data[i] != ']'
      invariant a <= i <= |data| && forall k :: a <= k < i ==> NotIdEnd()(data[k])
    {
      i := i + 1;
    }
    SkipUnique(data, a, NotIdEnd(), i);
    if i >= |data| || data[i] != ']' { return false, h; }
    if !note && a == i { return false, h; }
    if i + 1 >= |data| || data[i + 1] != ':' { return false, h; }
    return true, RefHead(note, a, i);
  }

  function Blank(): byte -> bool { c => IsBlank(c) }

  /** One line end, `\r\n` included. */
  function PastLineEnd(data: bytes, i: nat): (j: nat)
    requires i <= |data|
    ensures i <= j <= |data|
  {
    if i < |data| && (data[i] == '\n' || data[i] == '\r') then
      if i + 1 < |data| && data[i + 1] == '\n' && data[i] == '\r' then i + 2 else i + 1
    else i
  }

  /** Where the white space after the colon ends. */
  function Spacer(data: bytes, start: nat): (i: nat)
    requires start <= |data|
    ensures start <= i <= |data|
  {
    Skip(data, PastLineEnd(data, Skip(data, start, Blank())), Blank())
  }

  /** The white space after the colon: blanks, at most one line end, blanks. */
  method SkipSpacer(data: bytes, start: nat) returns (i: nat)
    requires start <= |data|
    ensures i == Spacer(data, start)
  {
    i := SkipBlanks(data, start);
    if i < |data| && (data[i] == '\n' || data[i] == '\r') {
      i := i + 1;
      if i < |data| && data[i] == '\n' && data[i - 1] == '\r' { i := i + 1; }
    }
    i := SkipBlanks(data, i);
  }

  method SkipBlanks(data: bytes, start: nat) returns (i: nat)
    requires start <= |data|
    ensures start <= i <= |data| && i == Skip(data, start, Blank())
  {
    i := start;
    while i < |data| && (data[i] == ' ' || data[i] == '\t')
      invariant start <= i <= |data| && forall k :: start <= k < i ==> Blank()(data[k])
    {
      i := i + 1;
    }
    SkipUnique(data, start, Blank(), i);
  }

  // ----- a link definition -----

  /** The ranges a link definition gives; `lineEnd` is 0 when there is none. */
  datatype LinkRef = LinkRef(linkStart: nat, linkEnd: nat, titleStart: nat, titleEnd: nat, lineEnd: nat)

  function NotSpaceByte(): byte -> bool { c => c != ' ' && c != '\t' && c != '\n' && c != '\r' }

  /** The run of bytes that is the destination; one opening angle bracket is dropped. */
  function DestRun(data: bytes, start: nat): bytes
    requires start < |data|
  {
    var a := if data[start] == '<' then start + 1 else start;
    data[a..Skip(data, a, NotSpaceByte())]
  }

  /** A second pair of angle brackets around the run is dropped too. */
  function Stripped(run: bytes): (r: bytes)
    ensures r == [] <==> run == [] || run == "<>"
  {
    if run != [] && run[0] == '<' && run[|run| - 1] == '>' then run[1..|run| - 1] else run
  }

  lemma StrippedSlice(data: bytes, a: nat, b: nat)
    requires a <= b <= |data|
    ensures var inner := a < b && data[a] == '<' && data[b - 1] == '>';
            Stripped(data[a..b]) == if inner then data[a + 1..b - 1] else data[a..b]
  {
    if a < b && data[a] == '<' && data[b - 1] == '>' {
      var run, inner := data[a..b], data[a + 1..b - 1];
      assert |run[1..|run| - 1]| == |inner|;
      forall k | 0 <= k < |inner| ensures run[1..|run| - 1][k] == inner[k] {
        assert run[k + 1] == data[a + (k + 1)] && inner[k] == data[(a + 1) + k];
      }
      assert run[1..|run| - 1] == inner;
    }
  }

  /** The link's own range: a run without white space, angle brackets stripped.
      Reading the byte after an opening `<` is safe exactly when there is one. */
  method ScanDestination(data: bytes, start: nat) returns (a: nat, b: nat, i: nat)
    requires start < |data| && (data[start] == '<' ==> start + 1 < |data|)
    ensures start <= a <= b <= i <= |data| && i == RunEnd(data, start)
    ensures data[a..b] == Stripped(DestRun(data, start))
    ensures forall k :: a <= k < b ==> NotSpaceByte()(data[k])
  {
    i := start;
    if data[i] == '<' { i := i + 1; }
    a := i;
    while i < |data| && NotSpaceByte()(data[i])
      invariant a <= i <= |data| && forall k :: a <= k < i ==> NotSpaceByte()(data[k])
    {
      i := i + 1;
    }
    b := i;
    SkipUnique(data, a, NotSpaceByte(), i);
    hide Skip;
    assert data[a..b] == DestRun(data, start);
    hide DestRun;
    StrippedSlice(data, a, b);
    if data[a] == '<' && b > 0 && data[b - 1] == '>' {
      a, b := a + 1, b - 1;
    }
  }

  predicate IsLineEnd(c: byte) { c == '\n' || c == '\r' }

  function NotLineEnd(): byte -> bool { c => !IsLineEnd(c) }

  predicate OpensTitle(c: byte) { c == '\'' || c == '\"' || c == '(' }

  predicate ClosesTitle(c: byte) { c == '\'' || c == '\"' || c == ')' }

  /** The last byte of a title line that is not blank. */
  function LastInk(data: bytes, start: nat, i: int): (j: int)
    requires start - 1 <= i < |data|
    ensures start - 1 <= j <= i && (forall k :: j < k <= i ==> IsBlank(data[k])) && (j > start ==> !IsBlank(data[j]))
  {
    if i > start && IsBlank(data[i]) then LastInk(data, start, i - 1) else i
  }

  /** A title from `start`, which is just past its opening quote: where it ends, where
      its line ends, and whether it is closed there.  One that is not closed runs to the
      end of the line. */
  datatype Title = Title(end: nat, lineEnd: nat, closed: bool)

  function TitleAt(data: bytes, start: nat): (t: Title)
    requires 0 < start <= |data|
    ensures start <= t.end <= t.lineEnd <= |data|
    ensures t.closed ==> start < t.end < |data| && ClosesTitle(data[t.end])
  {
    var e := Skip(data, start, NotLineEnd());
    var last := if e + 1 < |data| && data[e] == '\n' && data[e + 1] == '\r' then e + 1 else e;
    var i := LastInk(data, start, e - 1);
    if i > start && ClosesTitle(data[i]) then Title(i, last, true) else Title(last, last, false)
  }

  method ScanTitle(data: bytes, start: nat) returns (t: Title)
    requires 0 < start <= |data|
    ensures t == TitleAt(data, start)
  {
    hide Skip;
    var i: int := start;
    while i < |data| && data[i] != '\n' && data[i] != '\r'
      invariant start <= i <= |data| && forall k :: start <= k < i ==> NotLineEnd()(data[k])
    {
      i := i + 1;
    }
    SkipUnique(data, start, NotLineEnd(), i);
    var lineEnd: nat := i;
    if i + 1 < |data| && data[i] == '\n' && data[i + 1] == '\r' { lineEnd := i + 1; }
    i := i - 1;
    while i > start && (data[i] == ' ' || data[i] == '\t')
      invariant start - 1 <= i < |data| && i < lineEnd
      invariant LastInk(data, start, i) == LastInk(data, start, Skip(data, start, NotLineEnd()) - 1)
    {
      i := i - 1;
    }
    if i > start && (data[i] == '\'' || data[i] == '\"' || data[i] == ')') { return Title(i, lineEnd, true); }
    return Title(lineEnd, lineEnd, false);
  }

  /** Where the run of the destination ends. */
  function RunEnd(data: bytes, start: nat): (i: nat)
    requires start < |data|
    ensures start <= i <= |data|
  {
    Skip(data, if data[start] == '<' then start + 1 else start, NotSpaceByte())
  }

  /** What follows the destination: the range of the title, and where the definition
      ends, 0 if there is none. */
  datatype Tail = Tail(titleStart: nat, titleEnd: nat, end: nat)

  /** The end of the line that ends at `j`. */
  function LineEndAt(data: bytes, j: nat): (e: nat)
    requires j <= |data|
    ensures e <= |data|
  {
    if j == |data| then j
    else if IsLineEnd(data[j]) then (if j + 1 < |data| && data[j] == '\r' && data[j + 1] == '\n' then j + 1 else j)
    else 0
  }

  function TailAt(data: bytes, i: nat): (t: Tail)
    requires i <= |data|
    ensures t.titleStart <= t.titleEnd <= |data| && t.end <= |data|
  {
    var j := Skip(data, i, Blank());
    if j < |data| && !IsLineEnd(data[j]) && !OpensTitle(data[j]) then Tail(0, 0, 0)
    else
      var e := LineEndAt(data, j);
      var k := if e == 0 then j else if e < |data| then Skip(data, e + 1, Blank()) else e + 1;
      if k + 1 < |data| && OpensTitle(data[k]) then
        var t := TitleAt(data, k + 1);
        Tail(k + 1, t.end, if t.closed then t.lineEnd else e)
      else Tail(0, 0, e)
  }

  /** A definition ends with its destination's line, or with the line of a closed title:
      there is one exactly when such a line follows. */
  lemma DefinitionIff(data: bytes, i: nat)
    requires 0 < i <= |data|
    ensures var j := Skip(data, i, Blank());
            TailAt(data, i).end > 0 <==>
              j == |data| || IsLineEnd(data[j])
              || (j + 1 < |data| && OpensTitle(data[j]) && TitleAt(data, j + 1).closed)
  {
    hide Skip;
  }

  /** The title a definition keeps lies in the lines it takes exactly when it is closed. */
  lemma TitleIsTakenIff(data: bytes, i: nat)
    requires 0 < i <= |data| && TailAt(data, i).titleStart > 0 && TailAt(data, i).end > 0
    ensures var t := TailAt(data, i);
            t.titleStart <= |data|
            && (t.titleEnd <= t.end <==> TitleAt(data, t.titleStart).closed)
  {
    hide Skip;
  }

  /** A title that is not closed is kept although its line is not taken:
      `[a]: /x`, then `"t`. */
  lemma UnclosedTitleIsKept()
    ensures TailAt("[a]: /x\n\"t\n", 7) == Tail(9, 10, 7)
  {
    var d := "[a]: /x\n\"t\n";
    SkipUnique(d, 7, Blank(), 7);
    SkipUnique(d, 8, Blank(), 8);
    SkipUnique(d, 9, NotLineEnd(), 10);
    hide Skip;
    assert LastInk(d, 9, 9) == 9;
  }

  /** A definition from its destination on.  Every range lies in the data, so the
      caller's slices are safe. */
  method ScanLinkRef(data: bytes, start: nat) returns (r: LinkRef)
    requires start < |data| && (data[start] == '<' ==> start + 1 < |data|)
    ensures r.linkStart <= r.linkEnd <= |data| && r.titleStart <= r.titleEnd <= |data| && r.lineEnd <= |data|
    ensures start <= r.linkStart && forall k :: r.linkStart <= k < r.linkEnd ==> NotSpaceByte()(data[k])
    ensures data[r.linkStart..r.linkEnd] == Stripped(DestRun(data, start))
    ensures Tail(r.titleStart, r.titleEnd, r.lineEnd) == TailAt(data, RunEnd(data, start))
  {
    hide TailAt, Stripped, DestRun, Skip;
    var a, b, i := ScanDestination(data, start);
    var t := ScanTail(data, i);
    r := LinkRef(a, b, t.titleStart, t.titleEnd, t.end);
  }

  /** The rest of a definition: its line end and its title. */
  method ScanTail(data: bytes, start: nat) returns (t: Tail)
    requires start <= |data|
    ensures t == TailAt(data, start)
  {
    hide TitleAt, Skip;
    var i := SkipBlanks(data, start);
    if i < |data| && data[i] != '\n' && data[i] != '\r' && data[i] != '\'' && data[i] != '\"' && data[i] != '(' {
      return Tail(0, 0, 0);
    }
    var lineEnd := 0;
    if i >= |data| || data[i] == '\r' || data[i] == '\n' { lineEnd := i; }
    if i + 1 < |data| && data[i] == '\r' && data[i + 1] == '\n' { lineEnd := lineEnd + 1; }
    if lineEnd > 0 {
      i := lineEnd + 1;
      if i <= |data| { i := SkipBlanks(data, i); }
    }
    t := Tail(0, 0, lineEnd);
    if i + 1 < |data| && (data[i] == '\'' || data[i] == '\"' || data[i] == '(') {
      var title := ScanTitle(data, i + 1);
      t := Tail(i + 1, title.end, if title.closed then title.lineEnd else lineEnd);
    }
  }

  // ----- a footnote definition -----

  /** Width of an indent: a tab, or `size` spaces. */
  function IndentLen(data: bytes, size: nat): (n: nat)
    ensures n <= |data|
  {
    if data == [] then 0
    else if data[0] == '\t' then 1
    else if |data| >= size && (forall k :: 0 <= k < size ==> data[k] == ' ') then size
    else 0
  }

  method IsIndented(data: bytes, size: nat) returns (n: nat)
    ensures n == IndentLen(data, size)
  {
    if data == [] { return 0; }
    if data[0] == '\t' { return 1; }
    if |data| < size { return 0; }
    var k := 0;
    while k < size
      invariant 0 <= k <= size && forall j :: 0 <= j < k ==> data[j] == ' '
    {
      if data[k] != ' ' { return 0; }
      k := k + 1;
    }
    return size;
  }

  /** The continuation lines of a note from `i`: where they end, their de-indented
      text, and whether there were any.  `gap` says a blank line is pending. */
  function NoteLines(data: bytes, i: nat, size: nat, gap: bool): (r: (nat, bytes, bool))
    requires i <= |data|
    ensures i <= r.0 <= |data|
    decreases |data| - i
  {
    if i == |data| then (i, "", false)
    else
      var next := NextLine(data, i);
      var line := data[i..next];
      if BlankLen(line) > 0 then NoteLines(data, next, size, true)
      else
        var n := IndentLen(line, size);
        if n == 0 then (i, "", false)
        else
          var rest := NoteLines(data, next, size, false);
          (rest.0, (if gap then "\n" else "") + line[n..] + rest.1, true)
  }

  method ScanNoteLines(data: bytes, start: nat, size: nat) returns (end: nat, raw: bytes, more: bool)
    requires start <= |data|
    ensures (end, raw, more) == NoteLines(data, start, size, false)
  {
    hide BlankLen, IndentLen;
    end, raw, more := start, "", false;
    var gap := false;
    assert "" + NoteLines(data, start, size, false).1 == NoteLines(data, start, size, false).1;
    while end < |data|
      invariant start <= end <= |data|
      invariant NoteLines(data, start, size, false)
             == (NoteLines(data, end, size, gap).0, raw + NoteLines(data, end, size, gap).1,
                 more || NoteLines(data, end, size, gap).2)
      decreases |data| - end
    {
      var next := NextLineStart(data, end);
      var line := data[end..next];
      var blank := IsEmpty(line);
      if blank > 0 {
        gap, end := true, next;
      } else {
        var n := IsIndented(line, size);
        if n == 0 {
          assert raw + "" == raw;
          return;
        }
        var text := (if gap then "\n" else "") + line[n..];
        ConcatAssoc(raw, text, NoteLines(data, next, size, false).1);
        raw, gap, more, end := raw + text, false, true, next;
      }
    }
    assert raw + "" == raw;
  }

  /** In terminated data every continuation line, and so their text, is terminated. */
  lemma {:induction false} NoteLinesTerminated(data: bytes, i: nat, size: nat, gap: bool)
    requires i <= |data| && Terminated(data)
    ensures Terminated(NoteLines(data, i, size, gap).1)
    decreases |data| - i
  {
    if i < |data| {
      var next := NextLine(data, i);
      var line := data[i..next];
      NoteLinesTerminated(data, next, size, true);
      NoteLinesTerminated(data, next, size, false);
      var n := IndentLen(line, size);
      TerminatedSuffix(line, n);
    }
  }

  function SpaceByte(): byte -> bool { c => c == ' ' }

  /** The end of the first line of a note whose text starts at `i`; a text that starts
      just after a newline has an empty one. */
  function FirstLineEnd(data: bytes, i: nat): (e: nat)
    requires 0 < i <= |data|
    ensures i <= e <= |data|
  {
    if data[i - 1] == '\n' then i else NextLine(data, i)
  }

  /** Where a footnote that starts at `start` ends, its text, and whether it has more than
      its first line: the rest of the line, then the indented lines that follow with
      their indent taken off and one newline for each run of blank lines between. */
  datatype Note = Note(end: nat, text: bytes, hasBlock: bool)

  function NoteAt(data: bytes, start: nat, size: nat): Note
    requires 0 < start <= |data|
  {
    var a := Skip(data, start, SpaceByte());
    var b := FirstLineEnd(data, a);
    var (end, tail, more) := NoteLines(data, b, size, false);
    Note(end, data[a..b] + tail + (if data[end - 1] != '\n' then "\n" else ""), more)
  }

  /** In terminated data the text can be parsed as blocks again, and a note of several
      lines has text. */
  lemma NoteTerminated(data: bytes, start: nat, size: nat)
    requires 0 < start <= |data| && Terminated(data)
    ensures var n := NoteAt(data, start, size);
            start <= n.end <= |data| && Terminated(n.text) && (n.hasBlock ==> n.text != [])
  {
    var a := Skip(data, start, SpaceByte());
    var b := FirstLineEnd(data, a);
    assert Terminated(data[a..b]);
    NoteLinesTerminated(data, b, size, false);
    MoreIsText(data, b, size, false);
    TerminatedConcat(data[a..b], NoteLines(data, b, size, false).1);
  }

  /** The body of a footnote whose text starts at `i`. */
  method ScanFootnote(data: bytes, start: nat, size: nat) returns (end: nat, raw: bytes, hasBlock: bool)
    requires 0 < start < |data|
    ensures Note(end, raw, hasBlock) == NoteAt(data, start, size)
  {
    hide NoteLines, Skip;
    var i := start;
    while i < |data| && data[i] == ' '
      invariant start <= i <= |data| && forall k :: start <= k < i ==> SpaceByte()(data[k])
    {
      i := i + 1;
    }
    SkipUnique(data, start, SpaceByte(), i);
    var first := i;
    if data[i - 1] != '\n' { i := NextLineStart(data, i); }
    var tail;
    end, tail, hasBlock := ScanNoteLines(data, i, size);
    raw := data[first..i] + tail;
    if data[end - 1] != '\n' { raw := raw + "\n"; } else { assert raw + "" == raw; }
  }

  lemma {:induction false} MoreIsText(data: bytes, i: nat, size: nat, gap: bool)
    requires i <= |data| && Terminated(data)
    ensures NoteLines(data, i, size, gap).2 ==> NoteLines(data, i, size, gap).1 != []
    decreases |data| - i
  {
    if i < |data| {
      var next := NextLine(data, i);
      var line := data[i..next];
      MoreIsText(data, next, size, true);
      if BlankLen(line) == 0 {
        var n := IndentLen(line, size);
        if n == |line| { IndentIsBlank(line, size); }
      }
    }
  }

  lemma IndentIsBlank(line: bytes, size: nat)
    requires line != [] && IndentLen(line, size) == |line|
    ensures BlankLen(line) > 0
  {
    SkipUnique(line, 0, IsBlank, |line|);
  }

  // ----- registering -----

  /** What the record of a definition holds, whose text starts at `i`. */
  predicate Defines(data: bytes, h: RefHead, i: nat, tabSize: nat, r: Reference, n: nat)
    requires i < |data| && h.idStart <= h.idEnd <= i
  {
    if h.isNote then
      0 < i && r.link == data[h.idStart..h.idEnd] && Note(n, r.title, r.hasBlock) == NoteAt(data, i, tabSize)
    else
      var t := TailAt(data, RunEnd(data, i));
      && r.link == Stripped(DestRun(data, i)) && r.title == data[t.titleStart..t.titleEnd] && n == t.end
      && !r.hasBlock
  }

  /** `data` starts with a definition. */
  predicate IsDefinition(data: bytes, footnotes: bool) {
    && HeadAt(data, footnotes).Some?
    && var h := HeadAt(data, footnotes).value;
    && var i := Spacer(data, h.idEnd + 2);
    && i < |data| && (h.isNote || TailAt(data, RunEnd(data, i)).end > 0)
  }

  /** How much of `data` the definition at its start takes; 0 if there is none. */
  function DefinitionSize(data: bytes, footnotes: bool, tabSize: nat): nat {
    if !IsDefinition(data, footnotes) then 0
    else
      var h := HeadAt(data, footnotes).value;
      var i := Spacer(data, h.idEnd + 2);
      if h.isNote then NoteAt(data, i, tabSize).end else TailAt(data, RunEnd(data, i)).end
  }

  lemma DefinitionInData(data: bytes, footnotes: bool, tabSize: nat)
    ensures DefinitionSize(data, footnotes, tabSize) <= |data|
  {
    hide HeadAt, TailAt, RunEnd;
    if IsDefinition(data, footnotes) && HeadAt(data, footnotes).value.isNote {
      NoteInData(data, Spacer(data, HeadAt(data, footnotes).value.idEnd + 2), tabSize);
    }
  }

  lemma NoteInData(data: bytes, start: nat, size: nat)
    requires 0 < start <= |data|
    ensures NoteAt(data, start, size).end <= |data|
  {
    hide NoteLines, Skip;
  }

  /** Scans a definition and registers it, replacing any earlier one of the same
      id by a fresh record; 0, and no change, when `data` does not start with one. */
  method IsReference(m: Markdown, data: bytes, tabSize: nat) returns (n: nat)
    requires Terminated(data)
    requires forall k :: k in m.refs ==> m.refs[k].WellFormed() && m.refs[k] in m.handles
    modifies m`refs, m`handles
    ensures n <= |data|
    ensures n > 0 ==> HeadAt(data, m.ext.footnotes).Some?
    ensures forall k :: k in m.refs ==> m.refs[k].WellFormed() && m.refs[k] in m.handles
    ensures fresh(m.handles - old(m.handles))
    ensures n == 0 ==> m.refs == old(m.refs) && m.handles == old(m.handles)
    ensures n > 0 ==>
              var h := HeadAt(data, m.ext.footnotes).value;
              var key := m.uni.lower(data[h.idStart..h.idEnd]);
              key in m.refs && fresh(m.refs[key]) && m.refs == old(m.refs)[key := m.refs[key]]
              && m.refs[key].noteId == (if h.isNote then 1 else 0) && m.refs[key].footnote == None
              && Spacer(data, h.idEnd + 2) < |data|
              && Defines(data, h, Spacer(data, h.idEnd + 2), tabSize, m.refs[key], n)
    ensures n == 0 <==> !IsDefinition(data, m.ext.footnotes)
    ensures n == DefinitionSize(data, m.ext.footnotes, tabSize)
  {
    hide Skip, HeadAt, Spacer, DestRun, Stripped, NoteAt, TailAt;
    var ok, h := ScanHead(data, m.ext.footnotes);
    if !ok { return 0; }
    var i := SkipSpacer(data, h.idEnd + 2);
    if i >= |data| { return 0; }
    var key := m.uni.lower(data[h.idStart..h.idEnd]);
    if h.isNote {
      NoteTerminated(data, i, tabSize);
      var end, raw, hasBlock := ScanFootnote(data, i, tabSize);
      var r := new Reference(data[h.idStart..h.idEnd], raw, 1, hasBlock, None);
      m.refs, m.handles := m.refs[key := r], m.handles + {r};
      return end;
    }
    var link, title, end := ScanDefinition(data, i);
    if end == 0 { return 0; }
    var r := new Reference(link, title, 0, false, None);
    m.refs, m.handles := m.refs[key := r], m.handles + {r};
    return end;
  }

  /** The link and title of a definition; 0 when there is none. */
  method ScanDefinition(data: bytes, start: nat) returns (link: bytes, title: bytes, end: nat)
    requires start < |data| && (data[start] == '<' ==> start + 1 < |data|)
    ensures link == Stripped(DestRun(data, start))
    ensures var t := TailAt(data, RunEnd(data, start)); title == data[t.titleStart..t.titleEnd] && end == t.end
  {
    hide Skip, DestRun, Stripped, TailAt;
    var l := ScanLinkRef(data, start);
    return data[l.linkStart..l.linkEnd], data[l.titleStart..l.titleEnd], l.lineEnd;
  }

  // ----- definitions without a destination -----

  /** `[id]: <<>` defines a reference whose link is empty. */
  lemma EmptyDefinition()
    ensures HeadAt("[id]: <<>\n", false) == Some(RefHead(false, 1, 3))
    ensures Spacer("[id]: <<>\n", 5) == 6 && DestRun("[id]: <<>\n", 6) == "<>" && Stripped("<>") == ""
  {
    var d := "[id]: <<>\n";
    assert SkipUpTo(d, 0, 3, ' ') == 0;
    SkipUnique(d, 1, NotIdEnd(), 3);
    SkipUnique(d, 5, Blank(), 6);
    SkipUnique(d, 6, Blank(), 6);
    SkipUnique(d, 7, NotSpaceByte(), 9);
    hide Skip;
    assert d[7..9] == "<>";
  }
}
