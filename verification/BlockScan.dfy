/** The line scanners of src/block.rs: each loop is proved against a description
    of what it finds. */
module BlockScan {
  import opened Bytes
  import opened Node
  import M = Markdown

  function Is(c: byte): byte -> bool { x => x == c }

  function Not(c: byte): byte -> bool { x => x != c }

  method SkipChar(data: bytes, start: nat, c: byte) returns (i: nat)
    requires start <= |data|
    ensures i == Skip(data, start, Is(c))
  {
    i := start;
    while i < |data| && data[i] == c
      invariant start <= i <= |data| && forall k :: start <= k < i ==> data[k] == c
    {
      i := i + 1;
    }
    SkipUnique(data, start, Is(c), i);
  }

  method SkipUntilChar(data: bytes, start: nat, c: byte) returns (i: nat)
    requires start <= |data|
    ensures i == Skip(data, start, Not(c))
  {
    i := start;
    while i < |data| && data[i] != c
      invariant start <= i <= |data| && forall k :: start <= k < i ==> data[k] != c
    {
      i := i + 1;
    }
    SkipUnique(data, start, Not(c), i);
  }

  /** End of the line that holds position `i`: its newline, or the end of data. */
  function LineEnd(data: bytes, i: nat): (j: nat)
    requires i <= |data|
    ensures i <= j <= |data|
  {
    Skip(data, i, Not('\n'))
  }

  /** Just past the line that holds position `i`. */
  function NextLine(data: bytes, i: nat): (j: nat)
    requires i <= |data|
    ensures i <= j <= |data| && (i < |data| ==> i < j)
    ensures Terminated(data) && j > i ==> data[j - 1] == '\n'
  {
    var e := LineEnd(data, i);
    if e < |data| then e + 1 else e
  }

  method NextLineStart(data: bytes, i: nat) returns (j: nat)
    requires i <= |data|
    ensures j == NextLine(data, i)
  {
    j := SkipUntilChar(data, i, '\n');
    if j < |data| { j := j + 1; }
  }

  function Backslashes(data: bytes, i: nat): (n: nat)
    requires i <= |data|
    ensures n <= i
  {
    if i > 0 && data[i - 1] == '\\' then 1 + Backslashes(data, i - 1) else 0
  }

  predicate Escaped(data: bytes, i: nat)
    requires i <= |data|
  {
    Backslashes(data, i) % 2 == 1
  }

  method IsBackslashEscaped(data: bytes, i: nat) returns (r: bool)
    requires i <= |data|
    ensures r == Escaped(data, i)
  {
    var n := 0;
    while i > n && data[i - n - 1] == '\\'
      invariant 0 <= n <= i && Backslashes(data, i) == n + Backslashes(data, i - n)
    {
      n := n + 1;
    }
    return n % 2 == 1;
  }

  // ----- blank lines -----

  /** Length of a leading blank line with its newline; 0 if the line is not blank. */
  function BlankLen(data: bytes): (n: nat)
    ensures n <= |data|
    ensures n == 0 && data != [] ==> Skip(data, 0, IsBlank) < |data| && data[Skip(data, 0, IsBlank)] != '\n'
  {
    var i := Skip(data, 0, IsBlank);
    if i == |data| then i else if data[i] == '\n' then i + 1 else 0
  }

  method IsEmpty(data: bytes) returns (n: nat)
    ensures n == BlankLen(data)
  {
    if data == [] { return 0; }
    var i := 0;
    while i < |data| && data[i] != '\n'
      invariant 0 <= i <= |data| && forall k :: 0 <= k < i ==> IsBlank(data[k])
    {
      if data[i] != ' ' && data[i] != '\t' {
        SkipUnique(data, 0, IsBlank, i);
        return 0;
      }
      i := i + 1;
    }
    SkipUnique(data, 0, IsBlank, i);
    if i < |data| && data[i] == '\n' { i := i + 1; }
    return i;
  }

  // ----- horizontal rules and underlines -----

  predicate IsRuleMark(c: byte) { c == '*' || c == '-' || c == '_' }

  /** At most three spaces, then a line of one marker and spaces with the marker
      at least three times. */
  predicate Hrule(data: bytes) {
    var i := SkipUpTo(data, 0, 3, ' ');
    i < |data| && IsRuleMark(data[i]) &&
    (forall k :: i <= k < LineEnd(data, i) ==> data[k] == data[i] || data[k] == ' ') &&
    multiset(data[i..LineEnd(data, i)])[data[i]] >= 3
  }

  lemma SliceGrows(data: bytes, s: nat, i: nat)
    requires s <= i < |data|
    ensures data[s..i + 1] == data[s..i] + [data[i]]
  {
  }

  /** The leading-space loop has no length guard: it is safe exactly when a byte
      other than the first three spaces exists. */
  method IsHrule(data: bytes) returns (r: bool)
    requires SkipUpTo(data, 0, 3, ' ') < |data|
    ensures r == Hrule(data)
  {
    var i := 0;
    ghost var s := SkipUpTo(data, 0, 3, ' ');
    while i < 3 && data[i] == ' '
      invariant 0 <= i <= s && SkipUpTo(data, i, 3, ' ') == s
    {
      i := i + 1;
    }
    if data[i] != '*' && data[i] != '-' && data[i] != '_' { return false; }
    var ok, n := CountMarks(data, i);
    return ok && n >= 3;
  }

  /** Whether the rest of the line is `data[s]` and spaces, and how many of the former. */
  method CountMarks(data: bytes, s: nat) returns (ok: bool, n: nat)
    requires s < |data| && data[s] != '\n'
    ensures ok <==> forall k :: s <= k < LineEnd(data, s) ==> data[k] == data[s] || data[k] == ' '
    ensures ok ==> n == multiset(data[s..LineEnd(data, s)])[data[s]]
  {
    var c := data[s];
    var i := s;
    n := 0;
    assert data[s..s] == [];
    while i < |data| && data[i] != '\n'
      invariant s <= i <= |data|
      invariant forall k :: s <= k < i ==> (data[k] == c || data[k] == ' ') && data[k] != '\n'
      invariant n == multiset(data[s..i])[c]
    {
      SliceGrows(data, s, i);
      if data[i] == c {
        n := n + 1;
      } else if data[i] != ' ' {
        assert i < LineEnd(data, s);
        return false, n;
      }
      i := i + 1;
    }
    SkipUnique(data, s, Not('\n'), i);
    ok := true;
  }

  /** 1 for a line of `=`, 2 for a line of `-`, either padded with spaces. */
  function UnderlineLevel(data: bytes): (level: nat)
    requires data != []
    ensures level <= 2
  {
    if data[0] != '=' && data[0] != '-' then 0
    else
      var i := Skip(data, Skip(data, 1, Is(data[0])), Is(' '));
      if i < |data| && data[i] == '\n' then (if data[0] == '=' then 1 else 2) else 0
  }

  method IsUnderlinedHeading(data: bytes) returns (level: nat)
    requires data != []
    ensures level == UnderlineLevel(data)
  {
    if data[0] == '=' {
      var i := SkipChar(data, 1, '=');
      i := SkipChar(data, i, ' ');
      return if i < |data| && data[i] == '\n' then 1 else 0;
    }
    if data[0] == '-' {
      var i := SkipChar(data, 1, '-');
      i := SkipChar(data, i, ' ');
      return if i < |data| && data[i] == '\n' then 2 else 0;
    }
    return 0;
  }

  // ----- prefixes -----

  method SkipIndent(data: bytes) returns (i: nat)
    ensures i == SkipUpTo(data, 0, 3, ' ') && i <= 3
  {
    i := 0;
    ghost var s := SkipUpTo(data, 0, 3, ' ');
    while i < |data| && i < 3 && data[i] == ' '
      invariant 0 <= i <= s && i <= 3 && SkipUpTo(data, i, 3, ' ') == s
    {
      i := i + 1;
    }
  }

  /** Prefix of an unordered item: bullet and one blank, after at most three spaces. */
  function UliLen(data: bytes): (n: nat)
    ensures n <= |data| && n <= 5
    ensures n > 0 ==> n >= 2 && IsBlank(data[n - 1]) && (data[n - 2] == '*' || data[n - 2] == '+' || data[n - 2] == '-')
  {
    var i := SkipUpTo(data, 0, 3, ' ');
    if i + 1 < |data| && (data[i] == '*' || data[i] == '+' || data[i] == '-') && IsBlank(data[i + 1])
    then i + 2 else 0
  }

  method UliPrefix(data: bytes) returns (n: nat)
    ensures n == UliLen(data)
  {
    var i := SkipIndent(data);
    if i + 1 >= |data| { return 0; }
    if (data[i] != '*' && data[i] != '+' && data[i] != '-') || (data[i + 1] != ' ' && data[i + 1] != '\t') {
      return 0;
    }
    return i + 2;
  }

  /** Prefix of an ordered item: digits, a dot and one blank. */
  function OliLen(data: bytes): (n: nat)
    ensures n <= |data|
    ensures n > 0 ==> n >= 3 && IsBlank(data[n - 1]) && data[n - 2] == '.' && IsDigit(data[n - 3])
  {
    var i := SkipUpTo(data, 0, 3, ' ');
    var d := Skip(data, i, IsDigit);
    if d > i && d + 1 < |data| && data[d] == '.' && IsBlank(data[d + 1]) then d + 2 else 0
  }

  method OliPrefix(data: bytes) returns (n: nat)
    ensures n == OliLen(data)
  {
    var i := SkipIndent(data);
    var start := i;
    while i < |data| && IsDigit(data[i])
      invariant start <= i <= |data| && forall k :: start <= k < i ==> IsDigit(data[k])
    {
      i := i + 1;
    }
    SkipUnique(data, start, IsDigit, i);
    if start == i || i + 1 >= |data| { return 0; }
    if data[i] != '.' || !(data[i + 1] == ' ' || data[i + 1] == '\t') { return 0; }
    return i + 2;
  }

  /** Prefix of a definition: `:` and one blank.  The space-skipping loop after it never
      runs, since the byte it looks at is that `:`. */
  function DliLen(data: bytes): (n: nat)
    ensures n <= |data|
  {
    if |data| >= 2 && data[0] == ':' && IsBlank(data[1]) then 2 else 0
  }

  method DliPrefix(data: bytes) returns (n: nat)
    ensures n == DliLen(data)
  {
    if |data| < 2 { return 0; }
    var i := 0;
    if data[i] != ':' || !(data[i + 1] == ' ' || data[i + 1] == '\t') { return 0; }
    return i + 2;
  }

  /** Prefix of a quoted line: `>` and at most one space. */
  function QuoteLen(data: bytes): (n: nat)
    ensures n <= |data|
    ensures forall k :: 0 <= k < n ==> data[k] == ' ' || data[k] == '>'
  {
    var i := SkipUpTo(data, 0, 3, ' ');
    if i < |data| && data[i] == '>' then (if i + 1 < |data| && data[i + 1] == ' ' then i + 2 else i + 1)
    else 0
  }

  method QuotePrefix(data: bytes) returns (n: nat)
    ensures n == QuoteLen(data)
  {
    var i := SkipIndent(data);
    if i < |data| && data[i] == '>' {
      if i + 1 < |data| && data[i + 1] == ' ' { return i + 2; }
      return i + 1;
    }
    return 0;
  }

  function CodeLen(data: bytes): (n: nat)
    ensures n <= |data| && n <= 4
    ensures n > 0 ==> forall k :: 0 <= k < n ==> IsBlank(data[k])
  {
    if data != [] && data[0] == '\t' then 1
    else if |data| >= 4 && data[..4] == "    " then (assert forall k :: 0 <= k < 4 ==> data[k] == data[..4][k]; 4)
    else 0
  }

  /** A blank line followed by something that is neither quoted nor blank. */
  predicate QuoteEnds(data: bytes, beg: nat, end: nat)
    requires beg <= |data|
  {
    BlankLen(data[beg..]) > 0 && (end >= |data| || (QuoteLen(data[end..]) == 0 && BlankLen(data[end..]) == 0))
  }

  method TerminateBlockquote(data: bytes, beg: nat, end: nat) returns (r: bool)
    requires beg <= |data|
    ensures r == QuoteEnds(data, beg, end)
  {
    var n := IsEmpty(data[beg..]);
    if n == 0 { return false; }
    if end >= |data| { return true; }
    var q := QuotePrefix(data[end..]);
    if q != 0 { return false; }
    n := IsEmpty(data[end..]);
    return n == 0;
  }

  /** An item prefix of another kind of list. */
  predicate OtherList(data: bytes, flags: ListType) {
    (DliLen(data) > 0 && !flags.definition) || (OliLen(data) > 0 && !flags.ordered)
    || (UliLen(data) > 0 && (flags.ordered || flags.definition))
  }

  method ListTypeChanged(data: bytes, flags: ListType) returns (r: bool)
    ensures r == OtherList(data, flags)
  {
    var d := DliPrefix(data);
    if d > 0 && !flags.definition { return true; }
    var o := OliPrefix(data);
    if o > 0 && !flags.ordered { return true; }
    var u := UliPrefix(data);
    return u > 0 && (flags.ordered || flags.definition);
  }

  /** `#`, and with `spaceHeadings` a run of at most six of them and a space. */
  predicate HeadingMark(ext: M.Extensions, data: bytes) {
    data != [] && data[0] == '#' &&
    (ext.spaceHeadings ==>
      SkipUpTo(data, 0, 6, '#') < |data| && data[SkipUpTo(data, 0, 6, '#')] == ' ')
  }

  method HeadingLevel(data: bytes) returns (level: nat)
    ensures level == SkipUpTo(data, 0, 6, '#')
  {
    level := 0;
    ghost var s := SkipUpTo(data, 0, 6, '#');
    while level < 6 && level < |data| && data[level] == '#'
      invariant 0 <= level <= s && SkipUpTo(data, level, 6, '#') == s
    {
      level := level + 1;
    }
  }

  method IsPrefixHeading(ext: M.Extensions, data: bytes) returns (r: bool)
    requires data != []
    ensures r == HeadingMark(ext, data)
  {
    if data[0] != '#' { return false; }
    if ext.spaceHeadings {
      var level := HeadingLevel(data);
      if level == |data| || data[level] != ' ' { return false; }
    }
    return true;
  }

  // ----- white space at the ends -----

  /** White space trimmed from both ends, by whole characters. */
  function TrimLeft(uni: M.Unicode, s: bytes): (r: bytes)
    ensures |r| <= |s| && r == s[|s| - |r|..]
  {
    var n := uni.headSpace(s);
    if 0 < n <= |s| then TrimLeft(uni, s[n..]) else s
  }

  function TrimRight(uni: M.Unicode, s: bytes): (r: bytes)
    ensures r <= s
  {
    var n := uni.tailSpace(s);
    if 0 < n <= |s| then TrimRight(uni, s[..|s| - n]) else s
  }

  method TrimSpaceLeft(uni: M.Unicode, data: bytes) returns (s: bytes)
    ensures s == TrimLeft(uni, data)
  {
    s := data;
    while 0 < uni.headSpace(s) <= |s|
      invariant TrimLeft(uni, data) == TrimLeft(uni, s)
      decreases |s|
    {
      s := s[uni.headSpace(s)..];
    }
  }

  method TrimSpaceRight(uni: M.Unicode, data: bytes) returns (s: bytes)
    ensures s == TrimRight(uni, data)
  {
    s := data;
    while 0 < uni.tailSpace(s) <= |s|
      invariant TrimRight(uni, data) == TrimRight(uni, s)
      decreases |s|
    {
      s := s[..|s| - uni.tailSpace(s)];
    }
  }

  function Trimmed(uni: M.Unicode, data: bytes): (s: bytes)
    ensures forall c :: c in s ==> c in data
  {
    TrimRight(uni, TrimLeft(uni, data))
  }

  method TrimSpace(uni: M.Unicode, data: bytes) returns (s: bytes)
    ensures s == Trimmed(uni, data)
  {
    s := TrimSpaceLeft(uni, data);
    s := TrimSpaceRight(uni, s);
  }
}
