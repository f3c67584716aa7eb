/** Footnote anchors: `slugify` (src/util.rs). */
module Slug {
  import opened Bytes

  /** Letters and digits, every other run of bytes as one dash. */
  function Dashed(s: bytes, sym: bool): (r: bytes)
    ensures forall k :: 0 <= k < |r| ==> IsAlnum(r[k]) || r[k] == '-'
    ensures forall k :: 0 <= k < |r| - 1 ==> r[k] != '-' || r[k + 1] != '-'
    ensures sym && r != [] ==> r[0] != '-'
    ensures s != [] && !sym ==> r != []
  {
    if s == [] then []
    else if IsAlnum(s[0]) then [s[0]] + Dashed(s[1..], false)
    else if sym then Dashed(s[1..], true)
    else ['-'] + Dashed(s[1..], true)
  }

  /** The first byte that is not a dash, or the last byte. */
  function Front(out: bytes, i: nat): (a: nat)
    requires i < |out| && forall k :: 0 <= k < i ==> out[k] == '-'
    ensures i <= a < |out| && (forall k :: 0 <= k < a ==> out[k] == '-') && (out[a] != '-' || a == |out| - 1)
    decreases |out| - i
  {
    if out[i] != '-' || i == |out| - 1 then i else Front(out, i + 1)
  }

  /** The last byte that is not a dash, or the first byte. */
  function Back(out: bytes, i: nat): (b: nat)
    requires i < |out| && forall k :: i < k < |out| ==> out[k] == '-'
    ensures b <= i && (forall k :: b < k < |out| ==> out[k] == '-') && (out[b] != '-' || b == 0)
  {
    if out[i] != '-' || i == 0 then i else Back(out, i - 1)
  }

  /** Never two dashes in a row, and none at either end unless nothing else is left;
      the final slice is never reversed. */
  function Slugify(input: bytes): (r: bytes)
    ensures forall k :: 0 <= k < |r| ==> IsAlnum(r[k]) || r[k] == '-'
    ensures r == [] <==> input == []
    ensures r == [] || r == "-" || (r[0] != '-' && r[|r| - 1] != '-')
    ensures forall k :: 0 <= k < |r| - 1 ==> r[k] != '-' || r[k + 1] != '-'
  {
    if input == [] then []
    else
      var out := Dashed(input, false);
      var a, b := Front(out, 0), Back(out, |out| - 1);
      assert |out| > 1 ==> out[0] != '-' || out[1] != '-';
      assert a <= b;
      assert out[a..b + 1][0] == out[a] && out[a..b + 1][b - a] == out[b];
      out[a..b + 1]
  }
}
