/** The HTML escaper of src/esc.rs. */
module Esc {
  import opened Bytes
  import Unescape

  function EscapeSeq(c: byte): Option<bytes> {
    match c
    case '&' => Some("&amp;")
    case '<' => Some("&lt;")
    case '>' => Some("&gt;")
    case '\"' => Some("&quot;")
    case _ => None
  }

  predicate Escapable(c: byte) { EscapeSeq(c).Some? }

  /** The shape of the entity table: `&`, then alphanumerics, then an alphanumeric
      or a semicolon. */
  ghost predicate EntitiesShaped(ents: set<bytes>) {
    forall k :: k in ents ==> Shaped(k)
  }

  ghost predicate Shaped(k: bytes) {
    && |k| >= 2 && k[0] == '&'
    && (forall i :: 1 <= i < |k| - 1 ==> IsAlnum(k[i]))
    && (IsAlnum(k[|k| - 1]) || k[|k| - 1] == ';')
  }

  ghost predicate HasBasics(ents: set<bytes>) {
    "&amp;" in ents && "&lt;" in ents && "&gt;" in ents && "&quot;" in ents
  }

  /** Length of the known entity that opens `s`, with its semicolon; 0 if none. */
  function EntityLen(ents: set<bytes>, s: bytes): (n: nat)
    ensures n <= |s| && (n > 0 ==> n >= 2 && s[0] == '&' && s[n - 1] == ';' && s[..n] in ents)
    ensures n > 0 ==> forall k :: 1 <= k < n - 1 ==> IsAlnum(s[k])
  {
    if s == [] || s[0] != '&' then 0
    else
      var k := Skip(s, 1, IsAlnum);
      if k < |s| && s[k] == ';' && s[..k + 1] in ents then k + 1 else 0
  }

  /** Only the first bytes matter: an entity is recognised whatever follows it. */
  lemma EntityLenPrefix(ents: set<bytes>, e: bytes, rest: bytes)
    requires |e| >= 2 && e[0] == '&' && e[|e| - 1] == ';'
    requires forall k :: 1 <= k < |e| - 1 ==> IsAlnum(e[k])
    ensures EntityLen(ents, e + rest) == if e in ents then |e| else 0
  {
    SkipUnique(e + rest, 1, IsAlnum, |e| - 1);
    assert (e + rest)[..|e|] == e;
  }

  /** The escaper stated recursively: entities survive unless `all` is set, every
      other metacharacter is replaced. */
  function Escape(ents: set<bytes>, s: bytes, all: bool): bytes {
    if s == [] then []
    else match EscapeSeq(s[0])
      case None => [s[0]] + Escape(ents, s[1..], all)
      case Some(rep) =>
        var n := EntityLen(ents, s);
        if n > 0 && !all then s[..n] + Escape(ents, s[n..], all)
        else rep + Escape(ents, s[1..], all)
  }

  /** Bytes without metacharacters are copied. */
  lemma {:induction false} EscapeCopies(ents: set<bytes>, plain: bytes, rest: bytes, all: bool)
    requires forall c :: c in plain ==> !Escapable(c)
    ensures Escape(ents, plain + rest, all) == plain + Escape(ents, rest, all)
  {
    hide Escape, Escapable;
    if plain == [] {
      assert plain + rest == rest;
    } else {
      EscapeCopies(ents, plain[1..], rest, all);
      PlainStays(ents, plain[0], plain[1..] + rest, all);
      assert plain + rest == [plain[0]] + (plain[1..] + rest);
      ConcatAssoc([plain[0]], plain[1..], Escape(ents, rest, all));
    }
  }

  lemma PlainStays(ents: set<bytes>, c: byte, rest: bytes, all: bool)
    requires !Escapable(c)
    ensures Escape(ents, [c] + rest, all) == [c] + Escape(ents, rest, all)
  {
    hide EntityLen;
    assert ([c] + rest)[1..] == rest;
  }

  // ----- the loop -----

  /** Whether the `&` at `end` opens a known entity, and where the scan stopped.
      The scan walks over stray `&` and `#`, which no table entry contains. */
  method NodeIsEntity(ents: set<bytes>, s: bytes, end: nat) returns (found: bool, pos: nat)
    requires EntitiesShaped(ents) && end < |s|
    ensures found <==> EntityLen(ents, s[end..]) > 0
    ensures found ==> pos + 1 == end + EntityLen(ents, s[end..])
  {
    found, pos := false, end + 1;
    if s[end] == '&' {
      while pos < |s|
        invariant end < pos <= |s|
        invariant forall k :: end < k < pos ==> s[k] != ';'
      {
        if s[pos] == ';' && s[end..pos + 1] in ents {
          TableHit(ents, s, end, pos);
          return true, pos;
        }
        if !IsAlnum(s[pos]) && s[pos] != '&' && s[pos] != '#' {
          TableMiss(ents, s, end, pos);
          return;
        }
        pos := pos + 1;
      }
      TableMiss(ents, s, end, pos);
    }
  }

  lemma TableHit(ents: set<bytes>, s: bytes, end: nat, pos: nat)
    requires EntitiesShaped(ents) && end < pos < |s|
    requires s[pos] == ';' && s[end..pos + 1] in ents
    ensures EntityLen(ents, s[end..]) == pos + 1 - end
  {
    var e := s[end..pos + 1];
    assert Shaped(e);
    EntityLenPrefix(ents, e, s[pos + 1..]);
    assert s[end..] == e + s[pos + 1..];
  }

  lemma TableMiss(ents: set<bytes>, s: bytes, end: nat, pos: nat)
    requires end < pos <= |s|
    requires forall k :: end < k < pos ==> s[k] != ';'
    requires pos < |s| ==> !IsAlnum(s[pos]) && !(s[pos] == ';' && s[end..pos + 1] in ents)
    ensures EntityLen(ents, s[end..]) == 0
  {
    if pos < |s| { assert s[end..][..pos + 1 - end] == s[end..pos + 1]; }
  }

  /** The loop state: while `start` is ahead of `end`, the loop is walking over the
      tail of an entity already copied, which holds nothing escapable. */
  ghost predicate EscapeState(ents: set<bytes>, s: bytes, all: bool, target: bytes, start: nat, end: nat, out: bytes)
  {
    && start <= |s| && end <= |s|
    && (start <= end ==>
        (forall k :: start <= k < end ==> !Escapable(s[k])) &&
        out + Escape(ents, s[start..], all) == target)
    && (start > end ==>
        (forall k :: end <= k < start ==> !Escapable(s[k])) &&
        out + Escape(ents, s[start..], all) == target)
  }

  lemma PlainRun(ents: set<bytes>, s: bytes, start: nat, end: nat, all: bool)
    requires start <= end <= |s|
    requires forall k :: start <= k < end ==> !Escapable(s[k])
    ensures Escape(ents, s[start..], all) == s[start..end] + Escape(ents, s[end..], all)
  {
    EscapeCopies(ents, s[start..end], s[end..], all);
    assert s[start..] == s[start..end] + s[end..];
  }

  /** One metacharacter: flush the pending run, then copy the entity or escape. */
  method EscapeOne(ents: set<bytes>, s: bytes, all: bool, ghost target: bytes,
                   start: nat, end: nat, out: bytes) returns (start': nat, out': bytes)
    requires EntitiesShaped(ents) && end < |s| && Escapable(s[end])
    requires EscapeState(ents, s, all, target, start, end, out)
    ensures EscapeState(ents, s, all, target, start', end + 1, out')
  {
    hide EntityLen, Escape, EntitiesShaped;
    var found, pos := NodeIsEntity(ents, s, end);
    PlainRun(ents, s, start, end, all);
    if found && !all {
      CopyStep(ents, s, end);
      Chunk(out, s[start..end], s[end..pos + 1], Escape(ents, s[pos + 1..], all));
      assert s[start..end] + s[end..pos + 1] == s[start..pos + 1];
      return pos + 1, out + s[start..pos + 1];
    }
    var esc := EscapeSeq(s[end]).value;
    EscapeStep(ents, s, end, all);
    Chunk(out, s[start..end], esc, Escape(ents, s[end + 1..], all));
    return end + 1, out + s[start..end] + esc;
  }

  lemma Chunk(a: bytes, b: bytes, c: bytes, d: bytes)
    ensures a + (b + (c + d)) == ((a + b) + c) + d
    ensures a + (b + (c + d)) == (a + (b + c)) + d
  {
  }

  lemma CopyStep(ents: set<bytes>, s: bytes, end: nat)
    requires end < |s| && EntityLen(ents, s[end..]) > 0
    ensures var n := EntityLen(ents, s[end..]);
            end + n <= |s| && Escape(ents, s[end..], false) == s[end..end + n] + Escape(ents, s[end + n..], false)
            && (forall k :: end < k < end + n ==> !Escapable(s[k]))
  {
    var tail := s[end..];
    var n := EntityLen(ents, tail);
    assert tail[n..] == s[end + n..] && tail[..n] == s[end..end + n];
    forall k | end < k < end + n ensures !Escapable(s[k]) {
      assert s[k] == tail[k - end];
    }
  }

  lemma EscapeStep(ents: set<bytes>, s: bytes, end: nat, all: bool)
    requires end < |s| && Escapable(s[end]) && (all || EntityLen(ents, s[end..]) == 0)
    ensures Escape(ents, s[end..], all) == EscapeSeq(s[end]).value + Escape(ents, s[end + 1..], all)
  {
    hide EntityLen;
    assert s[end..][1..] == s[end + 1..];
  }

  method EscapeEntities(ents: set<bytes>, out: bytes, s: bytes, all: bool) returns (out': bytes)
    requires EntitiesShaped(ents)
    ensures out' == out + Escape(ents, s, all)
  {
    ghost var target := out + Escape(ents, s, all);
    var start: nat, end: nat := 0, 0;
    out' := out;
    assert s[0..] == s;
    while end < |s|
      invariant EscapeState(ents, s, all, target, start, end, out')
    {
      if Escapable(s[end]) {
        start, out' := EscapeOne(ents, s, all, target, start, end, out');
      }
      end := end + 1;
    }
    if start < |s| && end <= |s| {
      PlainRun(ents, s, start, end, all);
      out' := out' + s[start..end];
    }
  }

  method EscapeHtml(ents: set<bytes>, out: bytes, s: bytes) returns (out': bytes)
    requires EntitiesShaped(ents)
    ensures out' == out + Escape(ents, s, false)
  {
    out' := EscapeEntities(ents, out, s, false);
  }

  method EscapeAllHtml(ents: set<bytes>, out: bytes, s: bytes) returns (out': bytes)
    requires EntitiesShaped(ents)
    ensures out' == out + Escape(ents, s, true)
  {
    out' := EscapeEntities(ents, out, s, true);
  }

  method EscLink(ents: set<bytes>, names: Unescape.Names, out: bytes, text: bytes) returns (out': bytes)
    requires EntitiesShaped(ents)
    ensures out' == out + Escape(ents, Unescape.UnescapeText(names, text), false)
  {
    var plain := Unescape.UnescapeString(names, text);
    out' := EscapeHtml(ents, out, plain);
  }

  // ----- what escaping means -----

  predicate RawFree(s: bytes) {
    forall c :: c in s ==> c != '<' && c != '>' && c != '\"'
  }

  /** No `<`, `>` or `"` survives, in either mode. */
  lemma {:induction false} EscapeIsRawFree(ents: set<bytes>, s: bytes, all: bool)
    ensures RawFree(Escape(ents, s, all))
  {
    if s != [] {
      var n := EntityLen(ents, s);
      if Escapable(s[0]) && n > 0 && !all {
        EscapeIsRawFree(ents, s[n..], all);
        assert forall k :: 0 <= k < n ==> s[k] == '&' || s[k] == ';' || IsAlnum(s[k]);
        assert RawFree(s[..n]);
      } else {
        EscapeIsRawFree(ents, s[1..], all);
      }
    }
  }

  /** Text in which every metacharacter opens a known entity. */
  predicate Settled(ents: set<bytes>, s: bytes) {
    s == [] ||
    (if Escapable(s[0]) then EntityLen(ents, s) > 0 && Settled(ents, s[EntityLen(ents, s)..])
     else Settled(ents, s[1..]))
  }

  lemma SettledEntity(ents: set<bytes>, e: bytes, rest: bytes)
    requires e in ents && |e| >= 2 && e[0] == '&' && e[|e| - 1] == ';'
    requires forall k :: 1 <= k < |e| - 1 ==> IsAlnum(e[k])
    requires Settled(ents, rest)
    ensures Settled(ents, e + rest)
  {
    EntityLenPrefix(ents, e, rest);
    assert (e + rest)[|e|..] == rest;
  }

  lemma {:induction false} EscapeSettles(ents: set<bytes>, s: bytes)
    requires HasBasics(ents)
    ensures Settled(ents, Escape(ents, s, false))
  {
    if s != [] {
      var n := EntityLen(ents, s);
      if !Escapable(s[0]) {
        EscapeSettles(ents, s[1..]);
        assert ([s[0]] + Escape(ents, s[1..], false))[1..] == Escape(ents, s[1..], false);
      } else if n > 0 {
        EscapeSettles(ents, s[n..]);
        SettledEntity(ents, s[..n], Escape(ents, s[n..], false));
      } else {
        EscapeSettles(ents, s[1..]);
        SettledEntity(ents, EscapeSeq(s[0]).value, Escape(ents, s[1..], false));
      }
    }
  }

  /** Settled text is what the escaper leaves alone, and only that. */
  lemma FixedPoints(ents: set<bytes>, s: bytes)
    requires HasBasics(ents)
    ensures Escape(ents, s, false) == s <==> Settled(ents, s)
  {
    if Settled(ents, s) {
      SettledIsFixed(ents, s);
    } else {
      EscapeSettles(ents, s);
    }
  }

  lemma {:induction false} SettledIsFixed(ents: set<bytes>, s: bytes)
    requires Settled(ents, s)
    ensures Escape(ents, s, false) == s
  {
    if s != [] {
      if Escapable(s[0]) {
        SettledIsFixed(ents, s[EntityLen(ents, s)..]);
      } else {
        SettledIsFixed(ents, s[1..]);
      }
    }
  }

  /** `escape_html` is idempotent. */
  lemma EscapeIdempotent(ents: set<bytes>, s: bytes)
    requires HasBasics(ents)
    ensures Escape(ents, Escape(ents, s, false), false) == Escape(ents, s, false)
  {
    EscapeSettles(ents, s);
    SettledIsFixed(ents, Escape(ents, s, false));
  }

  // ----- round trips -----

  lemma UnescapeBasic(names: Unescape.Names, c: byte, rest: bytes)
    requires Unescape.HasBasics(names) && Escapable(c)
    ensures Unescape.UnescapeText(names, EscapeSeq(c).value + rest)
         == [c] + Unescape.UnescapeText(names, rest)
  {
    var e := EscapeSeq(c).value;
    var s := e + rest;
    SkipUnique(s, 1, IsAlnum, |e| - 1);
    assert s[1..|e|] == e[1..];
    assert s[|e|..] == rest;
    assert e[1..] == if c == '&' then "amp;" else if c == '<' then "lt;" else if c == '>' then "gt;" else "quot;";
  }

  /** Decoding undoes `escape_all_html`, on every byte string. */
  lemma {:induction false} RoundTrip(ents: set<bytes>, names: Unescape.Names, s: bytes)
    requires Unescape.HasBasics(names)
    ensures Unescape.UnescapeText(names, Escape(ents, s, true)) == s
  {
    if s != [] {
      RoundTrip(ents, names, s[1..]);
      var rest := Escape(ents, s[1..], true);
      if Escapable(s[0]) {
        UnescapeBasic(names, s[0], rest);
      } else {
        Unescape.UnescapeCopies(names, [s[0]], rest);
      }
    }
  }

  /** `esc_link` sees through a previous full escape. */
  lemma EscLinkOfEscaped(ents: set<bytes>, names: Unescape.Names, s: bytes)
    requires Unescape.HasBasics(names)
    ensures Escape(ents, Unescape.UnescapeText(names, Escape(ents, s, true)), false)
         == Escape(ents, s, false)
  {
    RoundTrip(ents, names, s);
  }
}
