/** The character-reference decoder of src/unescape.rs. */
module Unescape {
  import opened Bytes

  /** A Rust `char`: any Unicode scalar value. */
  type rune = char

  const Replacement: rune := '\U{FFFD}'
  const TwoTo31: int := 0x8000_0000
  const TwoTo32: int := 0x1_0000_0000

  /** The two name tables of the decoder.  Keys omit the `&` and keep any `;`. */
  datatype Names = Names(single: map<bytes, rune>, pair: map<bytes, (rune, rune)>)

  /** The longest name that may omit its semicolon. */
  const LongestBare: nat := 6

  // ----- UTF-8 (section 3 of RFC 3629) -----

  function Utf8(c: rune): (s: bytes)
    ensures 1 <= |s| <= 4
  {
    var v := c as int;
    if v < 0x80 then [c]
    else if v < 0x800 then [(0xC0 + v / 0x40) as char, (0x80 + v % 0x40) as char]
    else if v < 0x1_0000 then
      [(0xE0 + v / 0x1000) as char, (0x80 + v / 0x40 % 0x40) as char, (0x80 + v % 0x40) as char]
    else
      [(0xF0 + v / 0x4_0000) as char, (0x80 + v / 0x1000 % 0x40) as char,
       (0x80 + v / 0x40 % 0x40) as char, (0x80 + v % 0x40) as char]
  }

  /** The tables' shape: an expansion is never wider than `&` plus its name. */
  ghost predicate NamesFit(t: Names) {
    && (forall n :: n in t.single ==> |Utf8(t.single[n])| <= |n| + 1)
    && (forall n :: n in t.pair ==> |Utf8(t.pair[n].0)| + |Utf8(t.pair[n].1)| <= |n| + 1)
  }

  /** The four names `escape_html` itself relies on. */
  ghost predicate HasBasics(t: Names) {
    && "amp;" in t.single && t.single["amp;"] == '&'
    && "lt;" in t.single && t.single["lt;"] == '<'
    && "gt;" in t.single && t.single["gt;"] == '>'
    && "quot;" in t.single && t.single["quot;"] == '\"'
  }

  // ----- numeric references -----

  function DigitValue(c: byte): (d: nat)
    requires IsHexDigit(c)
    ensures d < 16 && (IsDigit(c) ==> d < 10)
  {
    if IsDigit(c) then c as int - '0' as int
    else if 'a' <= c <= 'f' then c as int - 'a' as int + 10
    else c as int - 'A' as int + 10
  }

  predicate IsDigitOf(hex: bool, c: byte) { if hex then IsHexDigit(c) else IsDigit(c) }

  function DigitClass(hex: bool): byte -> bool { c => IsDigitOf(hex, c) }

  function Base(hex: bool): nat { if hex then 16 else 10 }

  /** The number a digit string denotes, with no bound. */
  function Numeral(hex: bool, digits: bytes): nat
    requires forall k :: 0 <= k < |digits| ==> IsDigitOf(hex, digits[k])
  {
    if digits == [] then 0
    else
      var last := digits[|digits| - 1];
      assert IsDigitOf(hex, last);
      Numeral(hex, digits[..|digits| - 1]) * Base(hex) + DigitValue(last)
  }

  /** Two's-complement wrap-around of a 32-bit signed register. */
  function Wrap32(n: int): (x: int)
    ensures -TwoTo31 <= x < TwoTo31
  {
    (n + TwoTo31) % TwoTo32 - TwoTo31
  }

  /** Wrapping after every step loses nothing that wrapping once at the end keeps. */
  lemma WrapStep(n: int, hex: bool, d: int)
    ensures Wrap32(Wrap32(Wrap32(n) * Base(hex)) + d) == Wrap32(n * Base(hex) + d)
  {
    var k := (n + TwoTo31) / TwoTo32;
    assert Wrap32(n) == n - k * TwoTo32;
    var m := Wrap32(n) * Base(hex);
    var l := (m + TwoTo31) / TwoTo32;
    assert Wrap32(m) == m - l * TwoTo32;
    if hex {
      WrapShift(n * 16 + d, -(16 * k + l));
    } else {
      WrapShift(n * 10 + d, -(10 * k + l));
    }
  }

  lemma WrapShift(n: int, k: int)
    ensures Wrap32(n + k * TwoTo32) == Wrap32(n)
  {
    var q := (n + TwoTo31) / TwoTo32;
    var r := (n + TwoTo31) % TwoTo32;
    assert n + k * TwoTo32 + TwoTo31 == (q + k) * TwoTo32 + r;
  }

  const Windows1252: seq<int> := [
    0x20AC, 0x0081, 0x201A, 0x0192, 0x201E, 0x2026, 0x2020, 0x2021,
    0x02C6, 0x2030, 0x0160, 0x2039, 0x0152, 0x008D, 0x017D, 0x008F,
    0x0090, 0x2018, 0x2019, 0x201C, 0x201D, 0x2022, 0x2013, 0x2014,
    0x02DC, 0x2122, 0x0161, 0x203A, 0x0153, 0x009D, 0x017E, 0x0178]

  predicate IsScalar(v: int) { 0 <= v < 0xD800 || 0xE000 <= v <= 0x10_FFFF }

  /** `char::from_u32` after the `i32 as u32` reinterpretation. */
  function FromU32(x: int): Option<rune>
    requires -TwoTo31 <= x < TwoTo31
  {
    var u := if x < 0 then x + TwoTo32 else x;
    if IsScalar(u) then Some(u as char) else None
  }

  /** What the decoder makes of the final register value. */
  function DecodeRegister(x: int): rune
    requires -TwoTo31 <= x < TwoTo31
  {
    if 0x80 <= x <= 0x9F then
      var v := Windows1252[x - 0x80];
      if IsScalar(v) then v as char else Replacement
    else if x == 0 || 0xD800 <= x <= 0xDFFF || x > 0x10_FFFF then Replacement
    else match FromU32(x) case Some(c) => c case None => Replacement
  }

  /** The "numeric character reference end state" of the WHATWG HTML Standard,
      section 13.2.5.80: 27 remapped C1 controls, and U+FFFD for zero,
      surrogates and anything past the last code point. */
  function StandardRemap(n: nat): nat {
    match n
    case 0x80 => 0x20AC case 0x82 => 0x201A case 0x83 => 0x0192 case 0x84 => 0x201E
    case 0x85 => 0x2026 case 0x86 => 0x2020 case 0x87 => 0x2021 case 0x88 => 0x02C6
    case 0x89 => 0x2030 case 0x8A => 0x0160 case 0x8B => 0x2039 case 0x8C => 0x0152
    case 0x8E => 0x017D case 0x91 => 0x2018 case 0x92 => 0x2019 case 0x93 => 0x201C
    case 0x94 => 0x201D case 0x95 => 0x2022 case 0x96 => 0x2013 case 0x97 => 0x2014
    case 0x98 => 0x02DC case 0x99 => 0x2122 case 0x9A => 0x0161 case 0x9B => 0x203A
    case 0x9C => 0x0153 case 0x9E => 0x017E case 0x9F => 0x0178
    case _ => n
  }

  function StandardCodePoint(n: nat): rune {
    if n == 0 || n > 0x10_FFFF || 0xD800 <= n <= 0xDFFF then Replacement
    else StandardRemap(n) as char
  }

  /** The decoder sees a numeral only modulo 2^32. */
  lemma DecodesModulo(n: nat)
    ensures DecodeRegister(Wrap32(n)) == StandardCodePoint(n % TwoTo32)
  {
    var m := n % TwoTo32;
    WrapShift(m, n / TwoTo32);
    assert n == m + n / TwoTo32 * TwoTo32;
    assert Wrap32(m) == if m < TwoTo31 then m else m - TwoTo32;
    if 0x80 <= m <= 0x9F { RemapAgrees(m); }
  }

  lemma RemapAgrees(m: nat)
    requires 0x80 <= m <= 0x9F
    ensures Windows1252[m - 0x80] == StandardRemap(m)
  {
  }

  /** Agreement with the standard: always below 2^32, and above it exactly when
      the wrapped numeral happens to decode to U+FFFD as well. */
  lemma DecodesPerStandard(n: nat)
    ensures DecodeRegister(Wrap32(n)) == StandardCodePoint(n)
       <==> n < TwoTo32 || StandardCodePoint(n % TwoTo32) == Replacement
  {
    DecodesModulo(n);
    if n < TwoTo32 { assert n % TwoTo32 == n; }
  }

  /** `&#4294967361;` decodes to `A`, where the standard says U+FFFD. */
  lemma WrappedNumeralDiffers()
    ensures DecodeRegister(Wrap32(4294967361)) == 'A' && StandardCodePoint(4294967361) == Replacement
  {
    DecodesModulo(4294967361);
    assert 4294967361 % TwoTo32 == 65;
  }

  // ----- one reference -----

  /** What one `&` turns into: `len` bytes read, `text` written. */
  datatype Expansion = Expansion(len: nat, text: bytes)

  predicate IsHexRef(s: bytes) {
    |s| > 2 && (s[2] == 'x' || s[2] == 'X')
  }

  function DigitsStart(s: bytes): (i: nat)
    requires |s| > 1
    ensures 2 <= i <= 3 && i <= |s|
  {
    if IsHexRef(s) then 3 else 2
  }

  function DigitsEnd(s: bytes): (i: nat)
    requires |s| > 1
    ensures DigitsStart(s) <= i <= |s|
  {
    Skip(s, DigitsStart(s), DigitClass(IsHexRef(s)))
  }

  function AfterSemicolon(s: bytes, i: nat): (j: nat)
    requires i <= |s|
    ensures i <= j <= |s|
  {
    if i < |s| && s[i] == ';' then i + 1 else i
  }

  function NumericExpansion(s: bytes): Expansion
    requires |s| > 3
  {
    var e := AfterSemicolon(s, DigitsEnd(s));
    if e <= 3 then Expansion(1, s[..1])
    else Expansion(e, Utf8(DecodeRegister(Wrap32(Numeral(IsHexRef(s), s[DigitsStart(s)..DigitsEnd(s)])))))
  }

  /** The longest prefix of `name`, between 2 and `k` bytes, that is an entity
      on its own; 0 when there is none. */
  function LongestPrefix(t: Names, name: bytes, k: nat): (j: nat)
    requires k <= |name|
    ensures j <= k && (j > 0 ==> j > 1 && name[..j] in t.single)
    ensures forall l :: j < l <= k && l > 1 ==> name[..l] !in t.single
  {
    if k <= 1 then 0 else if name[..k] in t.single then k else LongestPrefix(t, name, k - 1)
  }

  function NameEnd(s: bytes): (i: nat)
    requires |s| > 1
    ensures 1 <= i <= |s|
  {
    AfterSemicolon(s, Skip(s, 1, IsAlnum))
  }

  function FallbackBound(name: bytes): (k: nat)
    requires name != []
    ensures k < |name|
  {
    if |name| - 1 > LongestBare then LongestBare else |name| - 1
  }

  function NamedExpansion(t: Names, s: bytes): Expansion
    requires |s| > 1
  {
    var e := NameEnd(s);
    var name := s[1..e];
    if name == [] then Expansion(e, s[..e])
    else if name in t.single then Expansion(e, Utf8(t.single[name]))
    else if name in t.pair then Expansion(e, Utf8(t.pair[name].0) + Utf8(t.pair[name].1))
    else
      var j := LongestPrefix(t, name, FallbackBound(name));
      if j > 0 then Expansion(j + 1, Utf8(t.single[name[..j]])) else Expansion(e, s[..e])
  }

  function Expand(t: Names, s: bytes): (r: Expansion)
    requires s != []
    ensures 1 <= r.len <= |s|
  {
    if |s| <= 1 then Expansion(1, s[..1])
    else if s[1] == '#' then
      (if |s| <= 3 then Expansion(1, s[..1]) else NumericExpansion(s))
    else NamedExpansion(t, s)
  }

  /** A reference never grows: the in-place rewriting of the original relies on it. */
  lemma ExpansionFits(t: Names, s: bytes)
    requires s != [] && NamesFit(t)
    ensures |Expand(t, s).text| <= Expand(t, s).len
  {
    if |s| > 1 && s[1] != '#' {
      var name := s[1..NameEnd(s)];
      if name != [] && name !in t.single && name !in t.pair {
        var j := LongestPrefix(t, name, FallbackBound(name));
        assert j > 0 ==> |name[..j]| == j;
      }
    }
  }

  /** A numeric reference is decoded exactly when enough of it is present: two
      decimal digits, or one and a semicolon; one hex digit, or a semicolon. */
  lemma NumericRecognised(t: Names, s: bytes)
    requires |s| > 1 && s[0] == '&' && s[1] == '#'
    ensures var digits := DigitsEnd(s) - DigitsStart(s);
            var semi := AfterSemicolon(s, DigitsEnd(s)) > DigitsEnd(s);
            Expand(t, s).len > 1 <==>
              if IsHexRef(s) then digits >= 1 || semi else digits >= 2 || (digits == 1 && semi)
  {
  }

  /** The standard decodes whenever there is a digit.  The decoder agrees except
      for a lone decimal digit without `;` and for `&#x;`. */
  lemma RecognisedPerStandard(t: Names, s: bytes)
    requires |s| > 1 && s[0] == '&' && s[1] == '#'
    ensures var digits := DigitsEnd(s) - DigitsStart(s);
            var semi := AfterSemicolon(s, DigitsEnd(s)) > DigitsEnd(s);
            (Expand(t, s).len > 1 <==> digits >= 1)
            <==> !(IsHexRef(s) && digits == 0 && semi) && !(!IsHexRef(s) && digits == 1 && !semi)
  {
    NumericRecognised(t, s);
  }

  /** `&#1` has a digit and stays as it is. */
  lemma LoneDigitStays(t: Names)
    ensures DigitsEnd("&#1") - DigitsStart("&#1") == 1 && Expand(t, "&#1") == Expansion(1, "&")
  {
    assert "&#1"[..1] == "&";
  }

  /** `&#x;` has no digit and becomes U+FFFD. */
  lemma NoHexDigitDecodes(t: Names)
    ensures DigitsEnd("&#x;") == DigitsStart("&#x;") && Expand(t, "&#x;") == Expansion(4, Utf8(Replacement))
  {
    assert "&#x;"[3..3] == [];
  }

  lemma NextDigit(d: bytes, i: nat, n: nat)
    requires i < |d| && (forall k :: 0 <= k < |d| ==> IsDigitOf(false, d[k])) && Numeral(false, d[..i]) == n
    ensures Numeral(false, d[..i + 1]) == n * 10 + DigitValue(d[i])
  {
    assert d[..i + 1][..i] == d[..i];
  }

  const LongDigits: bytes := "4294967361"

  lemma LongDigitsDenote()
    ensures (forall k :: 0 <= k < |LongDigits| ==> IsDigitOf(false, LongDigits[k]))
            && Numeral(false, LongDigits) == 4294967361
  {
    var d := LongDigits;
    EmptyNumeral(false);
    assert d[..0] == [] && d[..10] == d;
    assert Numeral(false, d[..0]) == 0;
    hide Numeral;
    NextDigit(d, 0, 0);
    NextDigit(d, 1, 4);
    NextDigit(d, 2, 42);
    NextDigit(d, 3, 429);
    NextDigit(d, 4, 4294);
    NextDigit(d, 5, 42949);
    NextDigit(d, 6, 429496);
    NextDigit(d, 7, 4294967);
    NextDigit(d, 8, 42949673);
    NextDigit(d, 9, 429496736);
  }

  lemma LongDigitsSpan()
    ensures var s := "&#4294967361;";
            DigitsStart(s) == 2 && DigitsEnd(s) == 12 && s[2..12] == LongDigits && !IsHexRef(s)
  {
    var s := "&#4294967361;";
    SkipUnique(s, 2, DigitClass(false), 12);
    hide Skip;
  }

  /** `&#4294967361;` becomes `A`: the numeral is taken modulo 2 to the 32. */
  lemma LongNumeralWraps(t: Names)
    ensures Expand(t, "&#4294967361;") == Expansion(13, Utf8('A'))
  {
    var s := "&#4294967361;";
    LongDigitsSpan();
    LongDigitsDenote();
    WrappedNumeralDiffers();
    assert |s| == 13 && s[1] == '#' && s[12] == ';';
    hide Numeral, Wrap32, DecodeRegister, Utf8, DigitsEnd, DigitsStart, IsHexRef;
  }

  /** Reads the digits and the optional semicolon of a numeric reference into a
      wrapping 32-bit register. */
  method ReadNumber(s: bytes, start: nat, hex: bool) returns (i: nat, x: int)
    requires start <= |s|
    ensures -TwoTo31 <= x < TwoTo31
    ensures var e := Skip(s, start, DigitClass(hex));
            i == AfterSemicolon(s, e) && x == Wrap32(Numeral(hex, s[start..e]))
  {
    hide Numeral, Wrap32;
    i, x := start, 0;
    EmptyNumeral(hex);
    assert s[start..start] == [];
    while i < |s|
      invariant start <= i <= |s|
      invariant forall k :: start <= k < i ==> IsDigitOf(hex, s[k])
      invariant x == Wrap32(Numeral(hex, s[start..i]))
    {
      var c := s[i];
      i := i + 1;
      if IsDigitOf(hex, c) {
        NumeralStep(hex, s, start, i - 1);
        x := Wrap32(Wrap32(x * Base(hex)) + DigitValue(c));
      } else {
        SkipUnique(s, start, DigitClass(hex), i - 1);
        if c != ';' { i := i - 1; }
        return;
      }
    }
    SkipUnique(s, start, DigitClass(hex), i);
  }

  lemma EmptyNumeral(hex: bool)
    ensures Wrap32(Numeral(hex, [])) == 0
  {
  }

  /** One more digit: the register stays the wrapped numeral. */
  lemma NumeralStep(hex: bool, s: bytes, start: nat, i: nat)
    requires start <= i < |s|
    requires forall k :: start <= k <= i ==> IsDigitOf(hex, s[k])
    ensures Wrap32(Numeral(hex, s[start..i + 1]))
         == Wrap32(Wrap32(Wrap32(Numeral(hex, s[start..i])) * Base(hex)) + DigitValue(s[i]))
  {
    assert s[start..i + 1][..i - start] == s[start..i];
    WrapStep(Numeral(hex, s[start..i]), hex, DigitValue(s[i]));
  }

  method NumericReference(s: bytes) returns (r: Expansion)
    requires |s| > 3
    ensures r == NumericExpansion(s)
  {
    var i := 2;
    var hex := false;
    if s[i] == 'x' || s[i] == 'X' {
      hex := true;
      i := i + 1;
    }
    var x;
    i, x := ReadNumber(s, i, hex);
    if i <= 3 {
      return Expansion(1, [s[0]]);
    }
    return Expansion(i, Utf8(DecodeRegister(x)));
  }

  /** The longest run that could name a reference. */
  method ReadName(s: bytes) returns (i: nat)
    requires |s| > 1
    ensures i == NameEnd(s)
  {
    i := 1;
    while i < |s|
      invariant 1 <= i <= |s|
      invariant forall k :: 1 <= k < i ==> IsAlnum(s[k])
    {
      var c := s[i];
      i := i + 1;
      if !IsAlnum(c) {
        SkipUnique(s, 1, IsAlnum, i - 1);
        if c != ';' { i := i - 1; }
        return;
      }
    }
    SkipUnique(s, 1, IsAlnum, i);
  }

  method NamedReference(t: Names, s: bytes) returns (r: Expansion)
    requires |s| > 1
    ensures r == NamedExpansion(t, s)
  {
    var i := ReadName(s);
    var name := s[1..i];
    if name == [] {
    } else if name in t.single {
      return Expansion(i, Utf8(t.single[name]));
    } else if name in t.pair {
      return Expansion(i, Utf8(t.pair[name].0) + Utf8(t.pair[name].1));
    } else {
      var j := |name| - 1;
      if j > LongestBare { j := LongestBare; }
      while j > 1
        invariant 0 <= j <= FallbackBound(name)
        invariant LongestPrefix(t, name, j) == LongestPrefix(t, name, FallbackBound(name))
      {
        if name[..j] in t.single {
          return Expansion(j + 1, Utf8(t.single[name[..j]]));
        }
        j := j - 1;
      }
    }
    return Expansion(i, s[..i]);
  }

  method UnescapeEntity(t: Names, full: bytes, src: nat, out: bytes) returns (next: nat, out': bytes)
    requires src < |full| && full[src] == '&'
    ensures next == src + Expand(t, full[src..]).len
    ensures out' == out + Expand(t, full[src..]).text
  {
    var s := full[src..];
    if |s| <= 1 || (s[1] == '#' && |s| <= 3) {
      return src + 1, out + [s[0]];
    }
    var r;
    if s[1] == '#' {
      r := NumericReference(s);
    } else {
      r := NamedReference(t, s);
    }
    return src + r.len, out + r.text;
  }

  // ----- whole strings -----

  /** Decoding a string: references expand left to right, the rest is copied. */
  function UnescapeText(t: Names, s: bytes): bytes {
    if s == [] then []
    else if s[0] == '&' then Expand(t, s).text + UnescapeText(t, s[Expand(t, s).len..])
    else [s[0]] + UnescapeText(t, s[1..])
  }

  lemma {:induction false} UnescapeShrinks(t: Names, s: bytes)
    requires NamesFit(t)
    ensures |UnescapeText(t, s)| <= |s|
  {
    if s != [] {
      if s[0] == '&' {
        ExpansionFits(t, s);
        UnescapeShrinks(t, s[Expand(t, s).len..]);
      } else {
        UnescapeShrinks(t, s[1..]);
      }
    }
  }

  /** A run without `&` is copied verbatim, whatever follows it. */
  lemma {:induction false} UnescapeCopies(t: Names, plain: bytes, rest: bytes)
    requires '&' !in plain
    ensures UnescapeText(t, plain + rest) == plain + UnescapeText(t, rest)
  {
    hide Expand;
    if plain == [] {
      assert plain + rest == rest;
    } else {
      assert (plain + rest)[1..] == plain[1..] + rest;
      UnescapeCopies(t, plain[1..], rest);
    }
  }

  /** The first `&` at or after `i`, or the end. */
  method FindAmp(s: bytes, i: nat) returns (j: nat)
    requires i <= |s|
    ensures i <= j <= |s| && '&' !in s[i..j] && (j < |s| ==> s[j] == '&')
  {
    j := i;
    while j < |s| && s[j] != '&'
      invariant i <= j <= |s| && '&' !in s[i..j]
    {
      j := j + 1;
    }
  }

  /** Copying up to an `&` leaves what is decoded from there. */
  lemma UnescapeFrom(t: Names, s: bytes, i: nat, j: nat)
    requires i <= j <= |s| && '&' !in s[i..j]
    ensures UnescapeText(t, s[i..]) == s[i..j] + UnescapeText(t, s[j..])
  {
    UnescapeCopies(t, s[i..j], s[j..]);
    assert s[i..] == s[i..j] + s[j..];
  }

  lemma UnescapeAt(t: Names, s: bytes, i: nat)
    requires i < |s| && s[i] == '&'
    ensures var r := Expand(t, s[i..]);
            i + r.len <= |s| && UnescapeText(t, s[i..]) == r.text + UnescapeText(t, s[i + r.len..])
  {
    assert s[i..][Expand(t, s[i..]).len..] == s[i + Expand(t, s[i..]).len..];
  }

  method UnescapeString(t: Names, s: bytes) returns (out: bytes)
    ensures out == UnescapeText(t, s)
  {
    var first := FindAmp(s, 0);
    UnescapeFrom(t, s, 0, first);
    assert s[0..] == s;
    if first == |s| {
      assert s[..first] + UnescapeText(t, []) == s;
      return s;
    }
    out := s[..first];
    var src := first;
    src, out := UnescapeNext(t, s, first, out);
    while src < |s|
      invariant src <= |s|
      invariant out + UnescapeText(t, s[src..]) == UnescapeText(t, s)
    {
      src, out := UnescapeChunk(t, s, src, out);
    }
    assert out + UnescapeText(t, []) == out;
  }

  method UnescapeNext(t: Names, s: bytes, src: nat, out: bytes) returns (next: nat, out': bytes)
    requires src < |s| && s[src] == '&'
    ensures src < next <= |s|
    ensures out' + UnescapeText(t, s[next..]) == out + UnescapeText(t, s[src..])
  {
    UnescapeAt(t, s, src);
    next, out' := UnescapeEntity(t, s, src, out);
    ConcatAssoc(out, Expand(t, s[src..]).text, UnescapeText(t, s[next..]));
  }

  /** One round of the loop: copy up to the next `&`, then decode it. */
  method UnescapeChunk(t: Names, s: bytes, src: nat, out: bytes) returns (next: nat, out': bytes)
    requires src < |s|
    ensures src < next <= |s|
    ensures out' + UnescapeText(t, s[next..]) == out + UnescapeText(t, s[src..])
  {
    var i := FindAmp(s, src);
    UnescapeFrom(t, s, src, i);
    ConcatAssoc(out, s[src..i], UnescapeText(t, s[i..]));
    if i == |s| {
      assert s[src..] == s[src..i];
      return |s|, out + s[src..];
    }
    next, out' := UnescapeNext(t, s, i, out + s[src..i]);
  }
}
