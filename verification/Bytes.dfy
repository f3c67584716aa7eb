/** Byte classes and scanning primitives shared by every parser (src/util.rs).

    A byte with value v is written as the character with code point v, so that
    literals stay readable.  Nothing below depends on the 256 limit: the theorems
    hold for byte strings in particular. */
module Bytes {
  type byte = char
  type bytes = seq<byte>

  datatype Option<+T> = None | Some(value: T)

  predicate IsDigit(c: byte) { '0' <= c <= '9' }

  predicate IsLetter(c: byte) { 'a' <= c <= 'z' || 'A' <= c <= 'Z' }

  predicate IsAlnum(c: byte) { IsDigit(c) || IsLetter(c) }

  predicate IsHexDigit(c: byte) { IsDigit(c) || 'a' <= c <= 'f' || 'A' <= c <= 'F' }

  /** The 32 ASCII punctuation characters. */
  predicate IsPunct(c: byte) {
    '!' <= c <= '/' || ':' <= c <= '@' || '[' <= c <= '`' || '{' <= c <= '~'
  }

  predicate IsBlank(c: byte) { c == ' ' || c == '\t' }

  predicate IsVerticalSpace(c: byte) {
    c == '\n' || c == '\r' || c as int == 12 || c as int == 11
  }

  predicate IsSpace(c: byte) { IsBlank(c) || IsVerticalSpace(c) }

  /** The first position at or after `i` whose byte fails `p`, or the end. */
  function Skip(data: bytes, i: nat, p: byte -> bool): (j: nat)
    requires i <= |data|
    ensures i <= j <= |data|
    ensures forall k :: i <= k < j ==> p(data[k])
    ensures j < |data| ==> !p(data[j])
    decreases |data| - i
  {
    if i < |data| && p(data[i]) then Skip(data, i + 1, p) else i
  }

  /** `Skip` is the only position with its three properties. */
  lemma {:induction false} SkipUnique(data: bytes, i: nat, p: byte -> bool, j: nat)
    requires i <= j <= |data|
    requires forall k :: i <= k < j ==> p(data[k])
    requires j < |data| ==> !p(data[j])
    ensures Skip(data, i, p) == j
    decreases |data| - i
  {
    if i < j { SkipUnique(data, i + 1, p, j); }
  }

  /** ASCII only. */
  function ToLower(c: byte): byte {
    if 'A' <= c <= 'Z' then (c as int + 32) as char else c
  }

  lemma ConcatAssoc(a: bytes, b: bytes, c: bytes)
    ensures (a + b) + c == a + (b + c)
  {
  }

  predicate StartsWith(data: bytes, prefix: bytes) {
    |prefix| <= |data| && data[..|prefix|] == prefix
  }

  /** Bounded runs: the first position failing `p`, but no further than `limit`. */
  function SkipUpTo(data: bytes, i: nat, limit: nat, c: byte): (j: nat)
    requires i <= |data|
    ensures i <= j <= |data| && (j <= limit || j == i)
    ensures forall k :: i <= k < j ==> data[k] == c
    ensures j < |data| && j < limit ==> data[j] != c
    decreases |data| - i
  {
    if i < |data| && i < limit && data[i] == c then SkipUpTo(data, i + 1, limit, c) else i
  }

  /** Empty, or ending in a newline: the shape of every buffer the block parser sees. */
  predicate Terminated(data: bytes) { data == [] || data[|data| - 1] == '\n' }

  lemma TerminatedSuffix(data: bytes, i: nat)
    requires Terminated(data) && i <= |data|
    ensures Terminated(data[i..])
  {
  }

  lemma TerminatedConcat(a: bytes, b: bytes)
    requires Terminated(a) && Terminated(b)
    ensures Terminated(a + b)
  {
  }
}
