/** Code fences: the fence line, the fenced block, and the info string. */
module Fence {
  import opened Bytes
  import opened BlockScan
  import M = Markdown
  import U = Unescape

  /** A fence line: just past its end (0 if it is none), its marker, its info. */
  datatype FenceLine = FenceLine(end: nat, marker: bytes, info: Option<bytes>)

  const NoFence := FenceLine(0, "", None)

  // ----- the marker -----

  /** The marker run: at least three backticks or tildes after at most three spaces. */
  function MarkerSpan(data: bytes): (r: Option<(nat, nat)>)
    ensures r.Some? ==> r.value.0 + 3 <= r.value.1 <= |data|
                        && (forall k :: r.value.0 <= k < r.value.1 ==> data[k] == '`' || data[k] == '~')
  {
    var i := SkipUpTo(data, 0, 3, ' ');
    if i >= |data| || (data[i] != '~' && data[i] != '`') then None
    else
      var e := Skip(data, i, Is(data[i]));
      if e - i < 3 then None else Some((i, e))
  }

  method FindMarker(data: bytes) returns (found: bool, start: nat, end: nat)
    ensures found <==> MarkerSpan(data).Some?
    ensures found ==> MarkerSpan(data) == Some((start, end))
  {
    var i := SkipIndent(data);
    if i >= |data| { return false, 0, 0; }
    if data[i] != '~' && data[i] != '`' { return false, 0, 0; }
    var c := data[i];
    var size := 0;
    start := i;
    while i < |data| && data[i] == c
      invariant start <= i <= |data| && size == i - start && forall k :: start <= k < i ==> data[k] == c
    {
      size := size + 1;
      i := i + 1;
    }
    SkipUnique(data, start, Is(c), i);
    return size >= 3, start, i;
  }

  // ----- the info string -----

  function NotBraceEnd(): byte -> bool { c => c != '}' && c != '\n' }

  function NotVertical(): byte -> bool { c => !IsVerticalSpace(c) }

  function StripLeft(s: bytes): (r: bytes)
    ensures |r| <= |s| && r == s[|s| - |r|..]
  {
    if s != [] && IsSpace(s[0]) then StripLeft(s[1..]) else s
  }

  function StripRight(s: bytes): (r: bytes)
    ensures r <= s
  {
    if s != [] && IsSpace(s[|s| - 1]) then StripRight(s[..|s| - 1]) else s
  }

  function BraceText(uni: M.Unicode, s: bytes): (r: bytes)
    ensures '\n' !in s ==> '\n' !in r
  {
    Trimmed(uni, StripRight(StripLeft(s)))
  }

  /** After the marker: where the line's text ends and what the info string is;
      `None` when a brace is not closed on the line. */
  function InfoSpan(uni: M.Unicode, data: bytes, j: nat): (r: Option<(nat, bytes)>)
    requires j < |data|
    ensures r.Some? ==> j <= r.value.0 <= |data|
  {
    if data[j] == '{' then
      var k := Skip(data, j + 1, NotBraceEnd());
      if k >= |data| || data[k] != '}' then None
      else Some((Skip(data, k + 1, Is(' ')), BraceText(uni, data[j + 1..k])))
    else
      var k := Skip(data, j, NotVertical());
      Some((k, Trimmed(uni, data[j..k])))
  }

  method StripSpaces(data: bytes) returns (s: bytes)
    ensures s == StripRight(StripLeft(data))
  {
    s := data;
    while s != [] && IsSpace(s[0])
      invariant StripLeft(data) == StripLeft(s)
      decreases |s|
    {
      s := s[1..];
    }
    while s != [] && IsSpace(s[|s| - 1])
      invariant StripRight(StripLeft(data)) == StripRight(s)
      decreases |s|
    {
      s := s[..|s| - 1];
    }
  }

  method FindBrace(data: bytes, j: nat) returns (i: nat)
    requires j <= |data|
    ensures i == Skip(data, j, NotBraceEnd())
  {
    i := j;
    while i < |data| && data[i] != '}' && data[i] != '\n'
      invariant j <= i <= |data| && forall k :: j <= k < i ==> data[k] != '}' && data[k] != '\n'
    {
      i := i + 1;
    }
    SkipUnique(data, j, NotBraceEnd(), i);
  }

  method ReadBraces(uni: M.Unicode, data: bytes, j: nat) returns (ok: bool, i: nat, info: bytes)
    requires j < |data| && data[j] == '{'
    ensures ok <==> InfoSpan(uni, data, j).Some?
    ensures ok ==> InfoSpan(uni, data, j) == Some((i, info))
  {
    hide StripLeft, StripRight;
    i := FindBrace(data, j + 1);
    if i >= |data| || data[i] != '}' { return false, 0, ""; }
    info := BraceInfo(uni, data[j + 1..i]);
    i := SkipChar(data, i + 1, ' ');
    ok := true;
  }

  method BraceInfo(uni: M.Unicode, s: bytes) returns (info: bytes)
    ensures info == BraceText(uni, s)
  {
    info := StripSpaces(s);
    info := TrimSpace(uni, info);
  }

  method ReadInfo(uni: M.Unicode, data: bytes, j: nat) returns (ok: bool, i: nat, info: bytes)
    requires j < |data|
    ensures ok <==> InfoSpan(uni, data, j).Some?
    ensures ok ==> InfoSpan(uni, data, j) == Some((i, info))
  {
    if data[j] == '{' {
      ok, i, info := ReadBraces(uni, data, j);
      return;
    }
    i := j;
    while i < |data| && !IsVerticalSpace(data[i])
      invariant j <= i <= |data| && forall k :: j <= k < i ==> !IsVerticalSpace(data[k])
    {
      i := i + 1;
    }
    SkipUnique(data, j, NotVertical(), i);
    info := TrimSpace(uni, data[j..i]);
    ok := true;
  }

  // ----- the line -----

  function LineTail(data: bytes, i: nat, marker: bytes, info: Option<bytes>): (f: FenceLine)
    requires i <= |data|
    ensures f != NoFence ==> i <= f.end <= |data| && f.marker == marker
  {
    if i == |data| then FenceLine(i, marker, info)
    else if data[i] != '\n' then NoFence
    else FenceLine(i + 1, marker, info)
  }

  /** What follows the marker, which ends at `e`. */
  function FenceRest(uni: M.Unicode, data: bytes, e: nat, marker: bytes, wantInfo: bool): (f: FenceLine)
    requires 0 < e <= |data|
    ensures f != NoFence ==> e <= f.end <= |data| && f.marker == marker
  {
    if !wantInfo then LineTail(data, e, marker, None)
    else
      var j := Skip(data, e, Is(' '));
      if j >= |data| then FenceLine(j, marker, None)
      else
        var r := InfoSpan(uni, data, j);
        if r == None then NoFence else LineTail(data, r.value.0, marker, Some(r.value.1))
  }

  /** The fence line at the start of `data`.  Asking for the info string changes
      which text is allowed after the marker; a closing fence must repeat `prior`. */
  function FenceAt(uni: M.Unicode, data: bytes, wantInfo: bool, prior: bytes): (f: FenceLine)
    ensures f.end <= |data| && (f.end > 0 <==> f != NoFence)
    ensures f.end > 0 ==> f.end >= 3
  {
    match MarkerSpan(data)
    case None => NoFence
    case Some(span) =>
      var marker := data[span.0..span.1];
      if prior != [] && marker != prior then NoFence
      else FenceRest(uni, data, span.1, marker, wantInfo)
  }

  method IsFenceLine(uni: M.Unicode, data: bytes, wantInfo: bool, prior: bytes) returns (f: FenceLine)
    ensures f == FenceAt(uni, data, wantInfo, prior)
  {
    var found, s, i := FindMarker(data);
    if !found { return NoFence; }
    var marker := data[s..i];
    if prior != [] && marker != prior { return NoFence; }
    f := IsFenceRest(uni, data, i, marker, wantInfo);
  }

  method IsFenceRest(uni: M.Unicode, data: bytes, e: nat, marker: bytes, wantInfo: bool) returns (f: FenceLine)
    requires 0 < e <= |data|
    ensures f == FenceRest(uni, data, e, marker, wantInfo)
  {
    hide InfoSpan;
    var i, info: Option<bytes> := e, None;
    if wantInfo {
      i := SkipChar(data, i, ' ');
      if i >= |data| { return FenceLine(i, marker, None); }
      var ok, k, text := ReadInfo(uni, data, i);
      if !ok { return NoFence; }
      i, info := k, Some(text);
    }
    if i == |data| { return FenceLine(i, marker, info); }
    if data[i] != '\n' { return NoFence; }
    return FenceLine(i + 1, marker, info);
  }

  // ----- the block -----

  /** From the line at `beg` on: where the body ends and where the block ends;
      `None` when no closing fence follows. */
  function CloseFence(uni: M.Unicode, data: bytes, beg: nat, marker: bytes): (r: Option<(nat, nat)>)
    requires beg < |data|
    ensures r.Some? ==> beg <= r.value.0 < r.value.1 <= |data|
    decreases |data| - beg
  {
    var f := FenceAt(uni, data[beg..], false, marker).end;
    if f != 0 then Some((beg, beg + f))
    else
      var end := LineEnd(data, beg) + 1;
      if end >= |data| then None else CloseFence(uni, data, end, marker)
  }

  /** The pieces of a complete fenced block. */
  datatype FencedBlock = FencedBlock(info: bytes, bodyStart: nat, bodyEnd: nat, size: nat)

  function Fenced(uni: M.Unicode, data: bytes): (r: Option<FencedBlock>)
    ensures r.Some? ==> 3 <= r.value.bodyStart <= r.value.bodyEnd < r.value.size <= |data|
  {
    var f := FenceAt(uni, data, true, "");
    if f.end == 0 || f.end >= |data| then None
    else match CloseFence(uni, data, f.end, f.marker)
      case None => None
      case Some((bodyEnd, size)) =>
        Some(FencedBlock(match f.info case Some(i) => i case None => "", f.end, bodyEnd, size))
  }

  function FencedSize(uni: M.Unicode, data: bytes): (n: nat)
    ensures n <= |data|
  {
    match Fenced(uni, data) case None => 0 case Some(b) => b.size
  }

  lemma InfoSpanHasNoNewline(uni: M.Unicode, data: bytes, j: nat)
    requires j < |data|
    ensures InfoSpan(uni, data, j).Some? ==> '\n' !in InfoSpan(uni, data, j).value.1
  {
    if data[j] == '{' {
      assert '\n' !in data[j + 1..Skip(data, j + 1, NotBraceEnd())];
    } else {
      assert '\n' !in data[j..Skip(data, j, NotVertical())];
    }
  }

  /** An info string never holds a newline. */
  lemma InfoHasNoNewline(uni: M.Unicode, data: bytes)
    ensures Fenced(uni, data).Some? ==> '\n' !in Fenced(uni, data).value.info
  {
    hide CloseFence, InfoSpan;
    match MarkerSpan(data)
    case None =>
    case Some(span) =>
      var j := Skip(data, span.1, Is(' '));
      if j < |data| {
        InfoSpanHasNoNewline(uni, data, j);
      }
  }

  /** In terminated data a complete fenced block ends at the end of a line. */
  lemma FencedEndsLine(uni: M.Unicode, data: bytes)
    requires Terminated(data) && Fenced(uni, data).Some?
    ensures data[FencedSize(uni, data) - 1] == '\n'
  {
    hide FenceAt, CloseFence;
    var f := FenceAt(uni, data, true, "");
    CloseEndsLine(uni, data, f.end, f.marker);
  }

  lemma ClosingLine(uni: M.Unicode, data: bytes, marker: bytes)
    requires Terminated(data) && FenceAt(uni, data, false, marker).end > 0
    ensures data[FenceAt(uni, data, false, marker).end - 1] == '\n'
  {
    var span := MarkerSpan(data).value;
    assert data[span.1 - 1] != '\n';
  }

  lemma {:induction false} CloseEndsLine(uni: M.Unicode, data: bytes, beg: nat, marker: bytes)
    requires beg < |data| && Terminated(data) && CloseFence(uni, data, beg, marker).Some?
    ensures data[CloseFence(uni, data, beg, marker).value.1 - 1] == '\n'
    decreases |data| - beg
  {
    hide FenceAt;
    if FenceAt(uni, data[beg..], false, marker).end != 0 {
      TerminatedSuffix(data, beg);
      ClosingLine(uni, data[beg..], marker);
    } else {
      CloseEndsLine(uni, data, LineEnd(data, beg) + 1, marker);
    }
  }

  lemma SliceConcat(data: bytes, a: nat, b: nat, c: nat)
    requires a <= b <= c <= |data|
    ensures data[a..b] + data[b..c] == data[a..c]
  {
  }

  lemma CloseUnfolds(uni: M.Unicode, data: bytes, beg: nat, marker: bytes)
    requires beg < |data|
    ensures var close, next := FenceAt(uni, data[beg..], false, marker).end, LineEnd(data, beg) + 1;
            CloseFence(uni, data, beg, marker)
            == if close != 0 then Some((beg, beg + close))
               else if next >= |data| then None else CloseFence(uni, data, next, marker)
  {
  }

  /** Searches for the closing fence line by line, collecting the lines before it. */
  method ScanClose(uni: M.Unicode, data: bytes, start: nat, marker: bytes, collect: bool)
    returns (r: Option<(nat, nat)>, body: bytes)
    requires start < |data|
    ensures r == CloseFence(uni, data, start, marker)
    ensures r.Some? ==> body == if collect then data[start..r.value.0] else ""
  {
    hide FenceAt, CloseFence, Skip;
    var beg := start;
    body := "";
    while true
      invariant start <= beg < |data|
      invariant CloseFence(uni, data, start, marker) == CloseFence(uni, data, beg, marker)
      invariant collect ==> body == data[start..beg]
      invariant !collect ==> body == ""
      decreases |data| - beg
    {
      CloseUnfolds(uni, data, beg, marker);
      var close := IsFenceLine(uni, data[beg..], false, marker);
      if close.end != 0 {
        return Some((beg, beg + close.end)), body;
      }
      var nl := SkipUntilChar(data, beg, '\n');
      var end := nl + 1;
      if end >= |data| { return None, ""; }
      if collect {
        SliceConcat(data, start, beg, end);
        body := body + data[beg..end];
      }
      beg := end;
    }
  }

  /** The scan both the peek and the render share. */
  method ScanFenced(uni: M.Unicode, data: bytes, collect: bool)
    returns (r: Option<FencedBlock>, body: bytes)
    ensures r == Fenced(uni, data)
    ensures r.Some? ==> body == if collect then data[r.value.bodyStart..r.value.bodyEnd] else ""
  {
    var f := IsFenceLine(uni, data, true, "");
    if f.end == 0 || f.end >= |data| { return None, ""; }
    var info := match f.info case Some(i) => i case None => "";
    var close;
    close, body := ScanClose(uni, data, f.end, f.marker, collect);
    if close.None? { return None, ""; }
    r := Some(FencedBlock(info, f.end, close.value.0, close.value.1));
  }

  // ----- finishing a code block -----

  function SkipMax(data: bytes, i: nat, limit: nat, p: byte -> bool): (j: nat)
    requires i <= |data|
    ensures i <= j <= |data|
    decreases limit
  {
    if i < |data| && limit > 0 && p(data[i]) then SkipMax(data, i + 1, limit - 1, p) else i
  }

  method CountMax(data: bytes, start: nat, limit: nat, p: byte -> bool) returns (j: nat)
    requires start <= |data|
    ensures j == SkipMax(data, start, limit, p)
  {
    j := start;
    while j < |data| && j - start < limit && p(data[j])
      invariant start <= j <= |data| && j - start <= limit
      invariant SkipMax(data, start, limit, p) == SkipMax(data, j, limit - (j - start), p)
    {
      j := j + 1;
    }
  }

  /** Length of a character entity at the start of `s`: `&#x` and 1 to 8 hex
      digits, `&#` and 1 to 8 digits, or `&` and a name of 2 to 32; then `;`. */
  function CharEntityLen(s: bytes): (n: nat)
    ensures n <= |s|
  {
    if |s| < 2 || s[0] != '&' then 0
    else
      var (first, end) :=
        if s[1] == '#' then
          (if |s| > 2 && (s[2] == 'x' || s[2] == 'X') then (3, SkipMax(s, 3, 8, IsHexDigit))
           else (2, SkipMax(s, 2, 8, IsDigit)))
        else if IsLetter(s[1]) then (2, SkipMax(s, 2, 31, IsAlnum))
        else (1, 1);
      if end > first && end < |s| && s[end] == ';' then end + 1 else 0
  }

  method MatchCharEntity(s: bytes) returns (n: nat)
    ensures n == CharEntityLen(s)
  {
    if |s| == 0 || s[0] != '&' { return 0; }
    var j, first := 1, 1;
    if |s| > 1 && s[1] == '#' {
      j := 2;
      if |s| > 2 && (s[2] == 'x' || s[2] == 'X') {
        first := 3;
        j := CountMax(s, 3, 8, IsHexDigit);
      } else {
        first := 2;
        j := CountMax(s, 2, 8, IsDigit);
      }
    } else {
      if |s| <= 1 || !IsLetter(s[1]) { return 0; }
      first := 2;
      j := CountMax(s, 2, 31, IsAlnum);
    }
    if j == first || j >= |s| || s[j] != ';' { return 0; }
    return j + 1;
  }

  function ExpandInfo(names: U.Names, s: bytes): bytes {
    if s == [] then []
    else if s[0] == '\\' && |s| > 1 && IsPunct(s[1]) then [s[1]] + ExpandInfo(names, s[2..])
    else if CharEntityLen(s) > 0 then
      U.UnescapeText(names, s[..CharEntityLen(s)]) + ExpandInfo(names, s[CharEntityLen(s)..])
    else [s[0]] + ExpandInfo(names, s[1..])
  }

  /** The info string as stored.  The guard tests only for `&`, so a backslash
      escape in a string without one is left alone. */
  function InfoText(names: U.Names, s: bytes): bytes {
    if '&' in s then ExpandInfo(names, s) else s
  }

  method ExpandOne(names: U.Names, s: bytes, i: nat, out: bytes) returns (next: nat, out': bytes)
    requires i < |s|
    ensures i < next <= |s|
    ensures out' + ExpandInfo(names, s[next..]) == out + ExpandInfo(names, s[i..])
  {
    hide CharEntityLen, U.UnescapeText;
    if s[i] == '\\' && i + 1 < |s| && IsPunct(s[i + 1]) {
      assert s[i..][2..] == s[i + 2..];
      ConcatAssoc(out, [s[i + 1]], ExpandInfo(names, s[i + 2..]));
      return i + 2, out + [s[i + 1]];
    }
    var n := MatchCharEntity(s[i..]);
    if n > 0 {
      var text := U.UnescapeString(names, s[i..i + n]);
      assert s[i..][..n] == s[i..i + n] && s[i..][n..] == s[i + n..];
      ConcatAssoc(out, text, ExpandInfo(names, s[i + n..]));
      return i + n, out + text;
    }
    assert s[i..][1..] == s[i + 1..];
    ConcatAssoc(out, [s[i]], ExpandInfo(names, s[i + 1..]));
    return i + 1, out + [s[i]];
  }

  method UnescapeInfo(names: U.Names, s: bytes) returns (out: bytes)
    ensures out == InfoText(names, s)
  {
    if '&' !in s { return s; }
    out := "";
    var i := 0;
    assert s[0..] == s;
    while i < |s|
      invariant 0 <= i <= |s| && out + ExpandInfo(names, s[i..]) == ExpandInfo(names, s)
    {
      i, out := ExpandOne(names, s, i, out);
    }
    assert out + ExpandInfo(names, []) == out;
  }

  /** Splitting a staged block at its first newline recovers both halves, because
      no info string holds a newline. */
  method SplitStaged(content: bytes) returns (first: bytes, rest: bytes)
    requires '\n' in content
    ensures '\n' !in first && content == first + ['\n'] + rest
  {
    var i := SkipUntilChar(content, 0, '\n');
    first, rest := content[..i], content[i + 1..];
  }

  lemma SplitIsUnique(info: bytes, body: bytes, first: bytes, rest: bytes)
    requires '\n' !in info && '\n' !in first
    requires info + ['\n'] + body == first + ['\n'] + rest
    ensures first == info && rest == body
  {
    var c := info + ['\n'] + body;
    SkipUnique(c, 0, Not('\n'), |info|);
    SkipUnique(c, 0, Not('\n'), |first|);
    assert first == c[..|first|] && info == c[..|info|];
    assert rest == c[|first| + 1..] && body == c[|info| + 1..];
  }
}
