/** The inline parser's scanners, which only read (src/inline.rs). */
module InlineScan {
  import opened Bytes
  import Shape

  const Punctuation: bytes := "\\`*_{}[]()#+-.!:|&<>~"

  // ----- backslashes -----

  /** `src` without its backslashes; each keeps the byte after it. */
  function Unescaped(src: bytes): bytes {
    if src == [] then []
    else if src[0] != '\\' then [src[0]] + Unescaped(src[1..])
    else if |src| == 1 then []
    else [src[1]] + Unescaped(src[2..])
  }

  /** Only the empty text and a lone backslash unescape to nothing. */
  lemma UnescapedEmpty(src: bytes)
    ensures Unescaped(src) == [] <==> src == [] || src == "\\"
  {
  }

  lemma {:induction false} UnescapedRun(src: bytes, n: nat)
    requires n <= |src| && forall k :: 0 <= k < n ==> src[k] != '\\'
    ensures Unescaped(src) == src[..n] + Unescaped(src[n..])
    decreases n
  {
    if n == 0 {
      assert src[0..] == src && src[..0] == [];
    } else {
      UnescapedRun(src[1..], n - 1);
      var rest := Unescaped(src[n..]);
      assert Unescaped(src) == [src[0]] + Unescaped(src[1..]);
      hide Unescaped;
      assert src[1..][n - 1..] == src[n..];
      assert [src[0]] + src[1..][..n - 1] == src[..n];
      ConcatAssoc([src[0]], src[1..][..n - 1], rest);
    }
  }

  method UnescapeText(src: bytes) returns (out: bytes)
    ensures out == Unescaped(src)
  {
    out := [];
    var i: nat := 0;
    assert src[0..] == src;
    while i < |src|
      invariant i <= |src| && out + Unescaped(src[i..]) == Unescaped(src)
    {
      hide Unescaped;
      var org := i;
      while i < |src| && src[i] != '\\'
        invariant org <= i <= |src| && forall k :: org <= k < i ==> src[k] != '\\'
      {
        i := i + 1;
      }
      UnescapedStep(src, org, i, out);
      out := out + src[org..i];
      if i + 1 >= |src| { return; }
      out := out + [src[i + 1]];
      i := i + 2;
    }
    assert out + [] == out;
  }

  /** A plain run, then an escaped byte if there is one. */
  lemma UnescapedStep(src: bytes, org: nat, i: nat, out: bytes)
    requires org <= i <= |src| && (forall k :: org <= k < i ==> src[k] != '\\') && (i < |src| ==> src[i] == '\\')
    ensures i + 1 >= |src| ==> out + Unescaped(src[org..]) == out + src[org..i]
    ensures i + 1 < |src| ==>
            out + Unescaped(src[org..]) == ((out + src[org..i]) + [src[i + 1]]) + Unescaped(src[i + 2..])
  {
    UnescapedRun(src[org..], i - org);
    assert src[org..][i - org..] == src[i..] && src[org..][..i - org] == src[org..i];
    if i + 1 >= |src| {
      assert src[org..i] + [] == src[org..i];
    } else {
      assert src[i..][2..] == src[i + 2..];
      ConcatAssoc(out, src[org..i], [src[i + 1]] + Unescaped(src[i + 2..]));
      ConcatAssoc(out + src[org..i], [src[i + 1]], Unescaped(src[i + 2..]));
    }
  }

  function StripMailto(link: bytes): bytes {
    if StartsWith(link, "mailto://") then link[9..]
    else if StartsWith(link, "mailto:") then link[7..]
    else link
  }

  // ----- emphasis -----

  /** The next emphasis character outside code spans and links.  0 stands both for
      failure and for position 0, so a run never opens on the byte it starts at. */
  method FindEmphChar(data: bytes, c: byte) returns (r: nat)
    requires c != '`' && c != '['
    ensures r == 0 || (r < |data| && data[r] == c)
    ensures data != [] && data[0] == c ==> r == 0
  {
    var i: nat := 0;
    while i < |data|
      invariant data != [] && data[0] == c ==> i == 0
      decreases |data| - i
    {
      while i < |data| && data[i] != c && data[i] != '`' && data[i] != '['
        invariant data != [] && data[0] == c ==> i == 0
      {
        i := i + 1;
      }
      if i >= |data| { return 0; }
      if i != 0 && data[i - 1] == '\\' {
        i := i + 1;
        continue;
      }
      if data[i] == c { return i; }
      if data[i] == '`' {
        var seen;
        i, seen := SkipPast(data, i + 1, '`', c);
        if i >= |data| { return seen; }
        i := i + 1;
      } else {
        var start := i;
        var done;
        i, r, done := SkipLink(data, i + 1, c);
        if done { return r; }
      }
    }
    return 0;
  }

  /** To the next `stop`, noting the first `c` on the way. */
  method SkipPast(data: bytes, from: nat, stop: byte, c: byte) returns (i: nat, seen: nat)
    requires 0 < from <= |data|
    ensures from <= i <= |data| && (i < |data| ==> data[i] == stop)
    ensures seen == 0 || (seen < |data| && data[seen] == c)
  {
    i, seen := from, 0;
    while i < |data| && data[i] != stop
      invariant from <= i <= |data| && (seen == 0 || (seen < |data| && data[seen] == c))
    {
      if seen == 0 && data[i] == c { seen := i; }
      i := i + 1;
    }
  }

  /** Past the link whose text starts at `from`; `done` if the search ends here. */
  method SkipLink(data: bytes, from: nat, c: byte) returns (i: nat, r: nat, done: bool)
    requires 0 < from <= |data|
    ensures i > from - 1 && (r == 0 || (r < |data| && data[r] == c))
    ensures !done ==> i <= |data|
  {
    var seen;
    i, seen := SkipPast(data, from, ']', c);
    i := i + 1;
    while i < |data| && (data[i] == ' ' || data[i] == '\n')
      invariant i > from
    {
      i := i + 1;
    }
    if i >= |data| { return i, seen, true; }
    if data[i] != '[' && data[i] != '(' {
      return i, seen, seen > 0;
    }
    var cc := data[i];
    i := i + 1;
    while i < |data| && data[i] != cc
      invariant from < i <= |data|
    {
      if seen == 0 && data[i] == c { return i, i, true; }
      i := i + 1;
    }
    if i >= |data| { return i, seen, true; }
    i, r, done := i + 1, 0, false;
  }

  // ----- tags and autolinks -----

  datatype AutolinkType = NotAutolink | NormalAutolink | EmailAutolink

  predicate SchemeChar(c: byte) { IsAlnum(c) || c == '.' || c == '+' || c == '-' }

  /** An email autolink body up to its `>`, with exactly one `@`. */
  method MailtoAutoLink(data: bytes) returns (n: nat)
    ensures n <= |data| && (n > 0 ==> data[n - 1] == '>')
    ensures n > 0 ==> forall k :: 0 <= k < n - 1 ==> IsAlnum(data[k]) || data[k] in "@-._"
  {
    var nb, i: nat := 0, 0;
    while i < |data|
      invariant i <= |data| && forall k :: 0 <= k < i ==> IsAlnum(data[k]) || data[k] in "@-._"
    {
      var c := data[i];
      if IsAlnum(c) {
      } else if c == '@' {
        nb := nb + 1;
      } else if c == '-' || c == '.' || c == '_' {
      } else if c == '>' {
        return if nb == 1 then i + 1 else 0;
      } else {
        return 0;
      }
      i := i + 1;
    }
    return 0;
  }

  /** Length of the tag or autolink at the front.  An unclosed tag reports how far its
      name was read. */
  method TagLength(data: bytes) returns (kind: AutolinkType, n: nat)
    ensures n <= |data|
    ensures n > 0 ==> |data| >= 3 && data[0] == '<' && n >= 2
    ensures kind != NotAutolink && n > 0 ==>
              n >= 3 && data[n - 1] == '>' && IsAlnum(data[if data[1] == '/' then 2 else 1])
    ensures kind == NotAutolink && n > 0 ==>
              data[n - 1] == '>' || (forall k :: n <= k < |data| ==> data[k] != '>')
    ensures |data| > 1 && data[1] == '!' ==> n == 0 && kind == NotAutolink
  {
    if |data| < 3 { return NotAutolink, 0; }
    if data[0] != '<' { return NotAutolink, 0; }
    var i: nat := if data[1] == '/' then 2 else 1;
    if !IsAlnum(data[i]) { return NotAutolink, 0; }
    ghost var first := i;
    kind := NotAutolink;
    while i < |data| && SchemeChar(data[i])
      invariant first <= i <= |data| && (i == first ==> SchemeChar(data[i]))
    {
      i := i + 1;
    }
    if i > 1 && i < |data| && data[i] == '@' {
      var j := MailtoAutoLink(data[i..]);
      if j != 0 {
        assert data[i..][j - 1] == data[i + j - 1];
        return EmailAutolink, i + j;
      }
    }
    if i > 2 && i < |data| && data[i] == ':' {
      kind := NormalAutolink;
      i := i + 1;
    }
    if i >= |data| {
      kind := NotAutolink;
    } else if kind != NotAutolink {
      var j := i;
      while i < |data|
        invariant j <= i
        decreases |data| - i
      {
        if data[i] == '\\' {
          i := i + 2;
        } else if data[i] == '>' || data[i] == '\'' || data[i] == '\"' || IsSpace(data[i]) {
          break;
        } else {
          i := i + 1;
        }
      }
      if i >= |data| { return kind, 0; }
      if i > j && data[i] == '>' { return kind, i + 1; }
      kind := NotAutolink;
    }
    var k := i;
    while k < |data| && data[k] != '>'
      invariant i <= k <= |data| && forall x :: i <= x < k ==> data[x] != '>'
    {
      k := k + 1;
    }
    if k < |data| { return kind, k + 1; }
    return kind, i;
  }

  // ----- entities in a bare link -----

  /** How many bytes from `i` on, at most `limit`, are in the class. */
  function Count(d: bytes, i: nat, limit: nat, p: byte -> bool): (n: nat)
    ensures n <= limit && (i <= |d| ==> i + n <= |d|)
    ensures i > |d| ==> n == 0
    decreases limit
  {
    if limit > 0 && i < |d| && p(d[i]) then 1 + Count(d, i + 1, limit - 1, p) else 0
  }

  /** Length of a well-formed reference at `i`: a short name, at most 7 decimal or at
      most 6 hexadecimal digits, and a semicolon. */
  function ReferenceLen(d: bytes, i: nat): (n: nat)
    requires i < |d|
    ensures i + n <= |d| && (n > 0 ==> n >= 4 && d[i + n - 1] == ';')
  {
    var named := NamedLen(d, i);
    if named > 0 then named
    else if i + 1 < |d| && d[i + 1] == '#' then
      var digits := Count(d, i + 2, 7, IsDigit);
      if digits >= 1 && i + 2 + digits < |d| && d[i + 2 + digits] == ';' then digits + 3
      else if i + 2 < |d| && (d[i + 2] == 'x' || d[i + 2] == 'X') then
        var hex := Count(d, i + 3, 6, IsHexDigit);
        if hex >= 1 && i + 3 + hex < |d| && d[i + 3 + hex] == ';' then hex + 4 else 0
      else 0
    else 0
  }

  function NamedLen(d: bytes, i: nat): (n: nat)
    requires i < |d|
    ensures i + n <= |d| && (n > 0 ==> n >= 4 && d[i + n - 1] == ';')
  {
    var letters := Count(d, i + 1, 31, IsLetter);
    if letters < 2 then 0
    else
      var digits := Count(d, i + 1 + letters, 2, IsDigit);
      var p := i + 1 + letters + digits;
      if p < |d| && d[p] == ';' then p + 1 - i else 0
  }

  /** Where the last reference found from `i` on ends; `last` if there is none. */
  function LastReference(d: bytes, i: nat, last: nat): nat
    requires i <= |d|
    decreases |d| - i
  {
    if i == |d| then last
    else
      var n := ReferenceAt(d, i);
      if n > 0 then LastReference(d, i + n, i + n) else LastReference(d, i + 1, last)
  }

  function ReferenceAt(d: bytes, i: nat): (n: nat)
    requires i < |d|
    ensures i + n <= |d|
  {
    if d[i] == '&' then ReferenceLen(d, i) else 0
  }

  method LinkEndsWithEntity(data: bytes, linkEnd: nat) returns (r: bool)
    requires 0 < linkEnd <= |data|
    ensures r == (LastReference(data[..linkEnd], 0, 0) == linkEnd)
  {
    hide ReferenceAt;
    var d := data[..linkEnd];
    var i: nat, last: nat := 0, 0;
    while i < |d|
      invariant i <= |d| && LastReference(d, i, last) == LastReference(d, 0, 0)
      decreases |d| - i
    {
      var n := ReferenceAt(d, i);
      if n > 0 {
        i, last := i + n, i + n;
      } else {
        i := i + 1;
      }
    }
    r := last == linkEnd;
  }

  // ----- anchors -----

  predicate IsReSpace(c: byte) { c == '\t' || c == '\n' || c as int == 12 || c == '\r' || c == ' ' }

  predicate IsUrlChar(c: byte) { IsAlnum(c) || c in "-+&@#/%?=~_|!:,.;()" }

  function At(d: bytes, i: nat, s: bytes): bool {
    i + |s| <= |d| && d[i..i + |s|] == s
  }

  /** End of a URL at `i`: a scheme or a slash, then at least one URL character. */
  function UrlEnd(d: bytes, i: nat): (r: Option<nat>)
    ensures r.Some? ==> i < r.value <= |d|
  {
    var scheme := if At(d, i, "https://") then 8 else if At(d, i, "http://") then 7
                  else if At(d, i, "ftp://") then 6 else if At(d, i, "/") then 1 else 0;
    if scheme == 0 then None
    else
      var end := Skip(d, i + scheme, IsUrlChar);
      if end > i + scheme then Some(end) else None
  }

  function AnchorClose(d: bytes, i: nat): (r: Option<nat>)
    ensures r.Some? ==> i + 4 < r.value <= |d| && d[r.value - 4..r.value] == "</a>"
  {
    if i < |d| && d[i] == '>' then
      match UrlEnd(d, i + 1)
      case Some(end) => if At(d, end, "</a>") then Some(end + 4) else None
      case None => None
    else None
  }

  function AnchorTail(d: bytes, i: nat): (r: Option<nat>)
    ensures r.Some? ==> i + 4 < r.value <= |d| && d[r.value - 4..r.value] == "</a>"
  {
    if i < |d| && IsReSpace(d[i]) && AnchorClose(d, i + 1).Some? then AnchorClose(d, i + 1) else AnchorClose(d, i)
  }

  /** End of an optional title attribute at `i`. */
  function TitleAttr(d: bytes, i: nat): (r: Option<nat>)
    ensures r.Some? ==> i < r.value <= |d|
  {
    if i < |d| && IsReSpace(d[i]) && At(d, i + 1, "title=\"") then
      var j := Skip(d, i + 8, NotTitleEnd());
      if j == i + 8 || j >= |d| then None else Some(j + 1)
    else None
  }

  function NotTitleEnd(): byte -> bool { c => c != '\"' && c != '<' && c != '>' }

  /** Length of a complete anchor element at the front. */
  function AnchorLen(d: bytes): (r: Option<nat>)
    ensures r.Some? ==> 4 < r.value <= |d| && d[0] == '<' && d[r.value - 4..r.value] == "</a>"
  {
    if At(d, 0, "<a") && 2 < |d| && IsReSpace(d[2]) && At(d, 3, "href=\"") then
      assert d[0] == d[0..2][0];
      match UrlEnd(d, 9)
      case None => None
      case Some(i) =>
        if i < |d| && d[i] == '\"' then
          (match TitleAttr(d, i + 1)
           case Some(j) => if AnchorTail(d, j).Some? then AnchorTail(d, j) else AnchorTail(d, i + 1)
           case None => AnchorTail(d, i + 1))
        else None
    else None
  }

  /** Reading back from a byte that is not `<` to the one before it, an anchor found
      there always ends beyond where the reading began. */
  lemma AnchorReachesBeyond(data: bytes, start: nat, offset: nat)
    requires start <= offset < |data| && (forall k :: start < k <= offset ==> data[k] != '<')
    requires AnchorLen(data[start..]).Some? && data[offset] != '<'
    ensures offset - start < AnchorLen(data[start..]).value - 4 <= |data| - start - 4
  {
    var n := AnchorLen(data[start..]).value;
    assert data[start..][n - 4..n][0] == data[start + n - 4];
    assert data[start..][n - 4] == '<';
  }

  // ----- bare URLs -----

  /** The source's case-blind prefix test: each byte equals its pattern, or is 32 less.
      Every pattern byte is above 32, so the wrapping addition never wraps to a match. */
  predicate HasPrefixFold(s: bytes, prefix: bytes) {
    && |s| >= |prefix|
    && forall k :: 0 <= k < |prefix| ==> s[k] == prefix[k] || s[k] as int + 32 == prefix[k] as int
  }

  predicate StartsUrl(s: bytes) {
    HasPrefixFold(s, "http://") || HasPrefixFold(s, "https://") || HasPrefixFold(s, "ftp://")
    || HasPrefixFold(s, "file://") || HasPrefixFold(s, "mailto:")
  }

  predicate IsEndOfLink(c: byte) { IsSpace(c) || c == '<' }

  /** A protocol name, then a byte that is not a letter. */
  lemma FoldedLetters(s: bytes, prefix: bytes, n: nat)
    requires HasPrefixFold(s, prefix) && n < |prefix| && prefix[n] == ':'
    requires forall k :: 0 <= k < n ==> 'a' <= prefix[k] <= 'z'
    ensures n < |s| && !IsLetter(s[n]) && forall k :: 0 <= k < n ==> IsLetter(s[k]) && ToLower(s[k]) == prefix[k]
  {
    forall k | 0 <= k < n ensures IsLetter(s[k]) && ToLower(s[k]) == prefix[k] {
      assert s[k] == prefix[k] || s[k] as int + 32 == prefix[k] as int;
    }
  }

  lemma SafeLetters(s: bytes, prefix: bytes, n: nat)
    requires Shape.SafeUri(s, prefix) && n < |prefix| && prefix[n] == ':'
    requires forall k :: 0 <= k < n ==> 'a' <= prefix[k] <= 'z'
    ensures n < |s| && !IsLetter(s[n]) && forall k :: 0 <= k < n ==> IsLetter(s[k]) && ToLower(s[k]) == prefix[k]
  {
    assert ToLower(s[n]) == ':';
    forall k | 0 <= k < n ensures IsLetter(s[k]) && ToLower(s[k]) == prefix[k] {
      assert ToLower(s[k]) == prefix[k];
    }
  }

  /** Where the first byte that is not a letter stands. */
  ghost predicate LettersThen(s: bytes, n: nat) {
    n < |s| && !IsLetter(s[n]) && forall k :: 0 <= k < n ==> IsLetter(s[k])
  }

  lemma SafeScheme(s: bytes) returns (scheme: bytes)
    requires s != [] && IsLetter(s[0]) && Shape.IsSafeLink(s)
    ensures scheme == "http" || scheme == "https" || scheme == "ftp" || scheme == "mailto"
    ensures LettersThen(s, |scheme|) && forall k :: 0 <= k < |scheme| ==> ToLower(s[k]) == scheme[k]
    ensures |s| > |scheme| + 3 && s[|scheme|] == ':' && s[|scheme| + 1] == s[|scheme| + 2] == '/'
            && IsAlnum(s[|scheme| + 3])
  {
    assert s[..1][0] == s[0] && (|s| >= 2 ==> s[..2][0] == s[0]) && (|s| >= 3 ==> s[..3][0] == s[0]);
    assert !Shape.SafePath(s, "/") && !Shape.SafePath(s, "./") && !Shape.SafePath(s, "../");
    var full := if Shape.SafeUri(s, "http://") then "http://" else if Shape.SafeUri(s, "https://") then "https://"
                else if Shape.SafeUri(s, "ftp://") then "ftp://" else "mailto://";
    var n := |full| - 3;
    SafeLetters(s, full, n);
    assert ToLower(s[n]) == full[n] && ToLower(s[n + 1]) == full[n + 1] && ToLower(s[n + 2]) == full[n + 2];
    scheme := full[..n];
  }

  lemma UrlScheme(s: bytes) returns (scheme: bytes)
    requires StartsUrl(s)
    ensures scheme == "http" || scheme == "https" || scheme == "ftp" || scheme == "file" || scheme == "mailto"
    ensures LettersThen(s, |scheme|) && forall k :: 0 <= k < |scheme| ==> ToLower(s[k]) == scheme[k]
  {
    if HasPrefixFold(s, "http://") { FoldedLetters(s, "http://", 4); return "http"; }
    if HasPrefixFold(s, "https://") { FoldedLetters(s, "https://", 5); return "https"; }
    if HasPrefixFold(s, "ftp://") { FoldedLetters(s, "ftp://", 3); return "ftp"; }
    if HasPrefixFold(s, "file://") { FoldedLetters(s, "file://", 4); return "file"; }
    FoldedLetters(s, "mailto:", 6);
    scheme := "mailto";
  }

  /** Reading back over letters never moves the start of a bare link that passes the
      safety test: no known scheme ends in another one. */
  lemma RewindIsZero(data: bytes, offset: nat, rewind: nat)
    requires rewind <= offset < |data|
    requires forall k :: offset - rewind <= k < offset ==> IsLetter(data[k])
    requires StartsUrl(data[offset..]) && IsLetter(data[offset]) && Shape.IsSafeLink(data[offset - rewind..])
    ensures rewind == 0
  {
    var s, u := data[offset - rewind..], data[offset..];
    assert s[rewind..] == u && s[0] == data[offset - rewind];
    var long := SafeScheme(s);
    var short := UrlScheme(u);
    hide Shape.IsSafeLink, StartsUrl, IsAlnum;
    var p, l := |long|, |short|;
    assert s[rewind + l] == u[l];
    forall k | 0 <= k < rewind + l ensures IsLetter(s[k]) {
      if k >= rewind { assert s[k] == u[k - rewind]; }
    }
    assert rewind + l == p;
  }

  // ----- where a bare link ends -----

  /** A safe link runs past its scheme. */
  lemma LinkIsLong(data: bytes, end: nat)
    requires data != [] && IsLetter(data[0]) && Shape.IsSafeLink(data)
    requires end <= |data| && (end < |data| ==> IsEndOfLink(data[end]))
    requires forall k :: 0 <= k < end ==> !IsEndOfLink(data[k])
    ensures end >= 7
  {
    var scheme := SafeScheme(data);
    forall k | 0 <= k < |scheme| + 4 ensures !IsEndOfLink(data[k]) {
      assert IsLetter(data[k]) || data[k] == ':' || data[k] == '/' || IsAlnum(data[k]);
    }
  }

  function Opener(c: byte): Option<byte> {
    match c
    case '\"' => Some('\"') case '\'' => Some('\'') case ')' => Some('(') case ']' => Some('[') case '}' => Some('{')
    case _ => None
  }

  function Tally(c: byte, x: byte): int { if c == x then 1 else 0 }

  /** Openers less closers, from `i` to `n`. */
  function Net(s: bytes, i: nat, n: nat, close: byte, open: byte): int
    requires n < |s|
    decreases n + 1 - i
  {
    if i > n then 0 else Tally(s[i], open) - Tally(s[i], close) + Net(s, i + 1, n, close, open)
  }

  /** The opener, at `b`, of a closing delimiter that follows the byte at `from`. */
  ghost predicate OpensAt(s: bytes, from: nat, close: byte, open: byte, b: nat) {
    && b <= from < |s| && (forall k :: b <= k <= from ==> s[k] != '\n') && Net(s, b, from, close, open) == 1
    && forall c :: b < c <= from ==> Net(s, c, from, close, open) < 1
  }

  ghost predicate Opens(s: bytes, from: nat, close: byte, open: byte) {
    exists b :: OpensAt(s, from, close, open, b)
  }

  /** A sentence's punctuation at the end of a bare link is dropped, unless escaped. */
  predicate DropsStop(d: bytes, e: nat)
    requires 2 <= e <= |d|
  {
    (d[e - 1] == '.' || d[e - 1] == ',') && d[e - 2] != '\\'
  }

  /** So is a semicolon that does not end a character reference. */
  predicate DropsSemicolon(d: bytes, e: nat)
    requires 2 <= e <= |d|
  {
    d[e - 1] == ';' && d[e - 2] != '\\' && LastReference(d[..e], 0, 0) != e
  }

  /** And so is a closing delimiter whose opener is found earlier on the line. */
  ghost predicate DropsCloser(orig: bytes, offset: nat, e: nat)
    requires 2 <= e && offset + e <= |orig|
  {
    var c := orig[offset + e - 1];
    Opener(c).Some? && Opens(orig, offset + e - 2, c, Opener(c).value)
  }

  /** Where a bare link that runs to `e` ends once its tail is dropped. */
  ghost function Trimmed(orig: bytes, offset: nat, e: nat): (r: nat)
    requires 7 <= e && offset + e <= |orig|
    ensures e - 3 <= r <= e
  {
    var d := orig[offset..];
    var e1 := if DropsStop(d, e) then e - 1 else e;
    var e2 := if DropsSemicolon(d, e1) then e1 - 1 else e1;
    if DropsCloser(orig, offset, e2) then e2 - 1 else e2
  }

  function InLink(): byte -> bool { c => !IsEndOfLink(c) }

  /** The run up to the next space or `<`. */
  function LinkRun(d: bytes, i: nat): nat
    requires i <= |d|
  {
    Skip(d, i, InLink())
  }

  /** What is dropped is never part of the scheme or the byte after it. */
  lemma TrimKeepsHost(orig: bytes, offset: nat, e: nat, k: nat)
    requires 7 <= e && offset + e <= |orig| && k < e && IsAlnum(orig[offset + k])
    ensures k < Trimmed(orig, offset, e)
  {
    hide Opens, LastReference;
    assert orig[offset..][k] == orig[offset + k];
  }

  lemma HostIsReached(data: bytes)
    requires data != [] && IsLetter(data[0]) && Shape.IsSafeLink(data)
    ensures LinkRun(data, 0) >= 7
    ensures forall k: nat :: LettersThen(data, k) ==> k + 3 < LinkRun(data, 0) && IsAlnum(data[k + 3])
  {
    var scheme := SafeScheme(data);
    var e := LinkRun(data, 0);
    LinkIsLong(data, e);
    forall k | 0 <= k < |scheme| + 4 ensures !IsEndOfLink(data[k]) {
      assert IsLetter(data[k]) || data[k] == ':' || data[k] == '/' || IsAlnum(data[k]);
    }
    hide Shape.IsSafeLink;
    forall k: nat | LettersThen(data, k) ensures k == |scheme| {}
  }

  /** Where a bare link ends: before the next space or `<`, less its trailing
      punctuation, and always past its scheme and the byte after it. */
  method LinkEnd(orig: bytes, offset: nat) returns (end: nat)
    requires offset < |orig| && IsLetter(orig[offset]) && Shape.IsSafeLink(orig[offset..])
    ensures 4 <= end <= |orig| - offset
    ensures 7 <= LinkRun(orig[offset..], 0) && end == Trimmed(orig, offset, LinkRun(orig[offset..], 0))
    ensures forall k: nat :: LettersThen(orig[offset..], k) ==> k + 4 <= end
    ensures forall k :: offset <= k < offset + end ==> !IsEndOfLink(orig[k])
  {
    var data := orig[offset..];
    assert data[0] == orig[offset];
    HostIsReached(data);
    ghost var run := LinkRun(data, 0);
    forall k: nat | LettersThen(data, k) ensures k + 3 < Trimmed(orig, offset, run) {
      TrimKeepsHost(orig, offset, run, k + 3);
    }
    hide LettersThen, Shape.IsSafeLink, Trimmed;
    end := 0;
    while end < |data| && !IsEndOfLink(data[end])
      invariant end <= |data| && LinkRun(data, end) == run
    {
      end := end + 1;
    }
    end := DropTail(orig, offset, end);
    forall k | offset <= k < offset + end ensures !IsEndOfLink(orig[k]) { assert data[k - offset] == orig[k]; }
  }

  method DropTail(orig: bytes, offset: nat, run: nat) returns (end: nat)
    requires 7 <= run && offset + run <= |orig|
    ensures end == Trimmed(orig, offset, run)
  {
    hide Opens, LastReference;
    var data := orig[offset..];
    end := run;
    if (data[end - 1] == '.' || data[end - 1] == ',') && data[end - 2] != '\\' { end := end - 1; }
    if data[end - 1] == ';' && data[end - 2] != '\\' {
      var entity := LinkEndsWithEntity(data, end);
      if !entity { end := end - 1; }
    }
    var opener := Opener(data[end - 1]);
    if opener.Some? {
      var balance := Unopened(orig, offset + end - 2, data[end - 1], opener.value);
      if balance == 0 { end := end - 1; }
    }
  }

  /** Counts back to the opener of a closing delimiter, within the line. */
  method Unopened(orig: bytes, from: nat, close: byte, open: byte) returns (balance: int)
    requires from < |orig|
    ensures balance == 0 <==> Opens(orig, from, close, open)
  {
    var bufEnd: int := from;
    balance := 1;
    while bufEnd >= 0 && orig[bufEnd] != '\n' && balance != 0
      invariant -1 <= bufEnd <= from && (balance == 0 ==> bufEnd < from)
      invariant balance == 1 - Net(orig, bufEnd + 1, from, close, open) && balance >= 0
      invariant forall k :: bufEnd < k <= from ==> orig[k] != '\n'
      invariant forall c :: bufEnd + 1 < c <= from ==> Net(orig, c, from, close, open) < 1
      decreases bufEnd
    {
      if orig[bufEnd] == close { balance := balance + 1; }
      if orig[bufEnd] == open { balance := balance - 1; }
      bufEnd := bufEnd - 1;
    }
    if balance == 0 {
      assert OpensAt(orig, from, close, open, bufEnd + 1);
    } else {
      NotOpened(orig, from, close, open, bufEnd);
    }
  }

  lemma NotOpened(orig: bytes, from: nat, close: byte, open: byte, bufEnd: int)
    requires -1 <= bufEnd <= from < |orig| && (bufEnd == -1 || orig[bufEnd] == '\n')
    requires forall c: nat :: bufEnd < c <= from ==> Net(orig, c, from, close, open) < 1
    ensures !Opens(orig, from, close, open)
  {
    forall b: nat ensures !OpensAt(orig, from, close, open, b) {}
  }

  // ----- closing delimiters at the end of a bare link -----

  /** The opener is inside the link that starts at `offset`. */
  ghost predicate OpensInside(s: bytes, offset: nat, from: nat, close: byte, open: byte) {
    exists b :: b >= offset && OpensAt(s, from, close, open, b)
  }

  ghost predicate OpensBefore(s: bytes, offset: nat, from: nat, close: byte, open: byte) {
    exists b: nat :: b < offset && OpensAt(s, from, close, open, b)
  }

  /** The comment in the source keeps a closing delimiter unless its opener stands before
      the link.  The code drops it wherever the opener is: it does what the comment says
      exactly when the opener is not inside. */
  lemma CloserRule(orig: bytes, offset: nat, e: nat)
    requires 2 <= e && offset + e <= |orig| && Opener(orig[offset + e - 1]).Some?
    ensures var c, from := orig[offset + e - 1], offset + e - 2;
            (DropsCloser(orig, offset, e) <==> OpensBefore(orig, offset, from, c, Opener(c).value))
            <==> !OpensInside(orig, offset, from, c, Opener(c).value)
  {
    var c, from := orig[offset + e - 1], offset + e - 2;
    var open := Opener(c).value;
    assert Opens(orig, from, c, open) <==>
           OpensInside(orig, offset, from, c, open) || OpensBefore(orig, offset, from, c, open) by {
      if Opens(orig, from, c, open) {
        var b: nat :| OpensAt(orig, from, c, open, b);
        assert b < offset || b >= offset;
      }
    }
    if OpensInside(orig, offset, from, c, open) {
      var b :| b >= offset && OpensAt(orig, from, c, open, b);
      forall a: nat | a < offset ensures !OpensAt(orig, from, c, open, a) {}
    }
  }

  /** `http://x/a(b)` loses its parenthesis. */
  lemma ParenthesisLost()
    ensures LinkRun("http://x/a(b)", 0) == 13 && Trimmed("http://x/a(b)", 0, 13) == 12
    ensures OpensInside("http://x/a(b)", 0, 11, ')', '(')
  {
    var d := "http://x/a(b)";
    assert d[0..] == d;
    assert Net(d, 11, 11, ')', '(') == 0 && Net(d, 10, 11, ')', '(') == 1;
    assert OpensAt(d, 11, ')', '(', 10);
    hide LastReference, Net, OpensAt;
    assert LinkRun(d, 0) == 13 by { WholeRun(d); }
  }

  lemma WholeRun(d: bytes)
    requires forall k :: 0 <= k < |d| ==> !IsEndOfLink(d[k])
    ensures LinkRun(d, 0) == |d|
  {
  }

  /** A quote is its own opener, so none is ever dropped. */
  lemma QuoteStays(orig: bytes, from: nat, q: byte)
    ensures !Opens(orig, from, q, q)
  {
    forall b: nat ensures !OpensAt(orig, from, q, q, b) {
      if b <= from < |orig| { NetOfOne(orig, b, from, q); }
    }
  }

  lemma {:induction false} NetOfOne(s: bytes, i: nat, n: nat, q: byte)
    requires n < |s|
    ensures Net(s, i, n, q, q) == 0
    decreases n + 1 - i
  {
    if i <= n { NetOfOne(s, i + 1, n, q); }
  }
}
