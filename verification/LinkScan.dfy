/** The bracketed constructs' scanners (`link` of src/inline.rs). */
module LinkScan {
  import opened Bytes
  import BlockScan
  import Slug

  datatype LinkType = Normal | Img | DeferredFootnote | InlineFootnote

  /** Where the last of `level` open brackets is closed, or the end. */
  function BracketEnd(data: bytes, i: nat, level: nat): (r: nat)
    requires i <= |data| && level > 0
    ensures i <= r <= |data| && (r < |data| ==> data[r] == ']')
    decreases |data| - i
  {
    if i == |data| then i
    else if data[i] == '\n' || BlockScan.Escaped(data, i) then BracketEnd(data, i + 1, level)
    else if data[i] == '[' then BracketEnd(data, i + 1, level + 1)
    else if data[i] == ']' then (if level == 1 then i else BracketEnd(data, i + 1, level - 1))
    else BracketEnd(data, i + 1, level)
  }

  /** To the bracket that closes the one just before `from`; also whether the text
      holds a newline. */
  method MatchBracket(data: bytes, from: nat) returns (end: nat, newline: bool)
    requires from <= |data|
    ensures end == BracketEnd(data, from, 1)
    ensures end < |data| ==> newline == ('\n' in data[from..end])
  {
    end, newline := from, false;
    var level: nat := 1;
    while level > 0 && end < |data|
      invariant from <= end <= |data| && (level == 0 ==> end < |data|)
      invariant BracketEnd(data, from, 1) == if level == 0 then end else BracketEnd(data, end, level)
      invariant newline == ('\n' in data[from..end])
      decreases |data| - end, level
    {
      var escaped := BlockScan.IsBackslashEscaped(data, end);
      SliceMore(data, from, end);
      if data[end] == '\n' {
        newline := true;
        end := end + 1;
      } else if !escaped && data[end] == '[' {
        level := level + 1;
        end := end + 1;
      } else if !escaped && data[end] == ']' {
        level := level - 1;
        if level > 0 { end := end + 1; }
      } else {
        end := end + 1;
      }
    }
  }

  lemma SliceMore(data: bytes, a: nat, b: nat)
    requires a <= b < |data|
    ensures data[a..b + 1] == data[a..b] + [data[b]]
  {
  }

  method SkipSpaces(data: bytes, from: nat) returns (i: nat)
    requires from <= |data|
    ensures from <= i <= |data| && i == Skip(data, from, IsSpace)
  {
    i := from;
    while i < |data| && IsSpace(data[i])
      invariant from <= i <= |data| && Skip(data, i, IsSpace) == Skip(data, from, IsSpace)
    {
      i := i + 1;
    }
  }

  datatype Target = Target(end: nat, dest: bytes, title: Option<bytes>)

  predicate Stop(c: byte, quotes: bool) { c == ')' || (quotes && (c == '\'' || c == '\"')) }

  /** To a closing parenthesis (or a quote), stepping over escaped bytes; perhaps past
      the end. */
  function StopAt(data: bytes, i: nat, quotes: bool): (r: nat)
    ensures i <= r && (r < |data| ==> Stop(data[r], quotes))
    decreases |data| - i
  {
    if i >= |data| then i
    else if data[i] == '\\' then StopAt(data, i + 2, quotes)
    else if Stop(data[i], quotes) then i
    else StopAt(data, i + 1, quotes)
  }

  method ScanTo(data: bytes, from: nat, quotes: bool) returns (i: nat)
    ensures i == StopAt(data, from, quotes) && from <= i && (i < |data| ==> Stop(data[i], quotes))
  {
    i := from;
    while i < |data|
      invariant StopAt(data, i, quotes) == StopAt(data, from, quotes)
      decreases |data| - i
    {
      if data[i] == '\\' {
        i := i + 2;
      } else if Stop(data[i], quotes) {
        break;
      } else {
        i := i + 1;
      }
    }
  }

  /** Back over white space, no further than `low`. */
  function BackSpace(data: bytes, low: nat, i: nat): (r: nat)
    requires low <= i < |data|
    ensures low <= r <= i
  {
    if i > low && IsSpace(data[i]) then BackSpace(data, low, i - 1) else i
  }

  predicate IsQuote(c: byte) { c == '\'' || c == '\"' }

  /** Where the title that opens at `open` ends, if a quote stands before the
      parenthesis at `close`. */
  function TitleEnd(data: bytes, open: nat, close: nat): (r: Option<nat>)
    requires open < close < |data|
    ensures r.Some? ==> open <= r.value < close
  {
    var e := if open + 1 <= close - 1 then BackSpace(data, open + 1, close - 1) else open;
    if IsQuote(data[e]) then Some(e) else None
  }

  method ScanTitleEnd(data: bytes, open: nat, close: nat) returns (r: Option<nat>)
    requires open < close < |data|
    ensures r == TitleEnd(data, open, close)
  {
    var b, e := open + 1, close - 1;
    while e > b && IsSpace(data[e])
      invariant open <= e < close
      invariant (if b <= e then BackSpace(data, b, e) else open)
             == (if b <= close - 1 then BackSpace(data, b, close - 1) else open)
    {
      e := e - 1;
    }
    r := if IsQuote(data[e]) then Some(e) else None;
  }

  function TrimSpaces(data: bytes, b: nat, e: nat): (r: nat)
    requires b <= e <= |data|
    ensures b <= r <= e
  {
    if e > b && IsSpace(data[e - 1]) then TrimSpaces(data, b, e - 1) else e
  }

  /** The destination in `b..e`, without outer spaces and angle brackets. */
  function DestIn(data: bytes, b: nat, e: nat): (r: bytes)
    requires 0 < b <= e < |data|
  {
    var e1 := TrimSpaces(data, b, e);
    var b' := if data[b] == '<' then b + 1 else b;
    var e2 := if data[e1 - 1] == '>' then e1 - 1 else e1;
    if e2 > b' then data[b'..e2] else []
  }

  method ScanDest(data: bytes, b: nat, end: nat) returns (dest: bytes)
    requires 0 < b <= end < |data|
    ensures dest == DestIn(data, b, end)
  {
    var e := end;
    while e > b && IsSpace(data[e - 1])
      invariant b <= e <= end && TrimSpaces(data, b, e) == TrimSpaces(data, b, end)
    {
      e := e - 1;
    }
    var b' := b;
    if data[b'] == '<' { b' := b' + 1; }
    if data[e - 1] == '>' { e := e - 1; }
    dest := [];
    if e > b' { dest := data[b'..e]; }
  }

  /** The parenthesised target at `from`: a destination, perhaps in angle brackets, and
      perhaps a title. */
  function TargetAt(data: bytes, from: nat): (r: Option<Target>)
    requires from < |data| && data[from] == '('
    ensures r.Some? ==> from + 1 < r.value.end <= |data| && data[r.value.end - 1] == ')'
    ensures r.Some? && r.value.title.Some? ==> r.value.title.value != []
  {
    var b := Skip(data, from + 1, IsSpace);
    var i := StopAt(data, b, true);
    if i >= |data| then None
    else if data[i] == ')' then Some(Target(i + 1, DestIn(data, b, i), None))
    else
      var close := StopAt(data, i + 1, false);
      if close >= |data| then None
      else match TitleEnd(data, i, close)
        case None => Some(Target(close + 1, DestIn(data, b, close), None))
        case Some(e) =>
          Some(Target(close + 1, DestIn(data, b, i), if e > i + 1 then Some(data[i + 1..e]) else None))
  }

  method ScanTarget(data: bytes, from: nat) returns (r: Option<Target>)
    requires from < |data| && data[from] == '('
    ensures r == TargetAt(data, from)
  {
    hide StopAt, DestIn, TitleEnd, Skip;
    var b := SkipSpaces(data, from + 1);
    var i := ScanTo(data, b, true);
    if i >= |data| { return None; }
    var end, close := i, i;
    var title := None;
    if data[i] != ')' {
      close := ScanTo(data, i + 1, false);
      if close >= |data| { return None; }
      var e := ScanTitleEnd(data, i, close);
      if e == None {
        end := close;
      } else if e.value > i + 1 {
        title := Some(data[i + 1..e.value]);
      }
    }
    var dest := ScanDest(data, b, end);
    return Some(Target(close + 1, dest, title));
  }

  /** Text with each newline turned into a space, unless a space stands before it. */
  function Collapsed(data: bytes, from: nat, end: nat): (r: bytes)
    requires 0 < from <= end <= |data|
    ensures '\n' !in r
    decreases end - from
  {
    if from == end then []
    else (if data[from] != '\n' then [data[from]] else if data[from - 1] != ' ' then [' '] else [])
         + Collapsed(data, from + 1, end)
  }

  method CollapseNewlines(data: bytes, txtE: nat, from: nat) returns (b: bytes)
    requires 0 < from <= txtE <= |data|
    ensures b == Collapsed(data, from, txtE)
  {
    b := [];
    var j := from;
    while j < txtE
      invariant from <= j <= txtE && b + Collapsed(data, j, txtE) == Collapsed(data, from, txtE)
    {
      ConcatAssoc(b, if data[j] != '\n' then [data[j]] else if data[j - 1] != ' ' then [' '] else [],
          Collapsed(data, j + 1, txtE));
      if data[j] != '\n' { b := b + [data[j]]; }
      else if data[j - 1] != ' ' { b := b + [' ']; }
      else { assert b + [] == b; }
      j := j + 1;
    }
    assert b + [] == b;
  }

  /** The anchor of an inline footnote: its slug, cut or padded to the length of the
      text, at most 16 bytes; a numbered name for an empty text. */
  function Fragment(id: bytes, fallback: bytes): (r: bytes)
    ensures id != [] ==> |r| == if |id| < 16 then |id| else 16
  {
    if id == [] then fallback
    else
      var n := if |id| < 16 then |id| else 16;
      var slug := Slug.Slugify(id);
      if n <= |slug| then slug[..n] else slug + seq(n - |slug|, _ => 0 as char)
  }

  // ----- which construct a bracket opens -----

  function KindOf(footnotes: bool, data: bytes, offset: nat): LinkType
    requires offset < |data|
  {
    if footnotes && offset + 1 < |data| && data[offset + 1] == '^' then DeferredFootnote
    else if data[offset] == '!' then Img
    else if footnotes && data[offset] == '^' then InlineFootnote
    else Normal
  }

  /** The byte before the bracket belongs to the construct. */
  predicate HasMark(t: LinkType) { t.Img? || t.InlineFootnote? }

  predicate OpensBracket(data: bytes, offset: nat) {
    && offset < |data|
    && (data[offset] == '[' || ((data[offset] == '!' || data[offset] == '^') && offset + 1 < |data|
        && data[offset + 1] == '['))
  }

  lemma DeferredHasCaret(footnotes: bool, data: bytes, offset: nat)
    requires OpensBracket(data, offset)
    ensures var t := KindOf(footnotes, data, offset);
            && (t.DeferredFootnote? ==> data[offset] == '[' && offset + 1 < |data| && data[offset + 1] == '^')
            && (HasMark(t) ==> offset + 1 < |data| && data[offset + 1] == '[')
  {
  }

  /** From the bracket on. */
  function BracketText(footnotes: bool, data: bytes, offset: nat): (d: bytes)
    requires OpensBracket(data, offset)
    ensures |d| >= (if KindOf(footnotes, data, offset).DeferredFootnote? then 2 else 1)
    ensures |d| == |data| - offset - (if HasMark(KindOf(footnotes, data, offset)) then 1 else 0)
  {
    DeferredHasCaret(footnotes, data, offset);
    data[if HasMark(KindOf(footnotes, data, offset)) then offset + 1 else offset..]
  }

  function DestAt(d: bytes, i: nat): Option<bytes>
    requires i < |d| && d[i] == '('
  {
    match TargetAt(d, i) case Some(t) => Some(t.dest) case None => None
  }

  function TextStart(t: LinkType): nat { if t.DeferredFootnote? then 2 else 1 }
}
