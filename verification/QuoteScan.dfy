/** The lines of a block quote (src/block.rs). */
module QuoteScan {
  import opened Bytes
  import opened Node
  import opened BlockScan
  import opened MD = Markdown
  import Fence

  /** Size of the fenced block that starts at `j`, with the extension on. */
  function FencedAt(ext: Extensions, uni: Unicode, data: bytes, j: nat): nat
    requires j <= |data|
  {
    if ext.fencedCode then Fence.FencedSize(uni, data[j..]) else 0
  }

  /** End of the line at `j` in terminated data, taking a fenced block that starts
      within it whole. */
  function LineReach(ext: Extensions, uni: Unicode, data: bytes, j: nat): (r: nat)
    requires j < |data| && Terminated(data)
    ensures j <= r < |data| && data[r] == '\n'
    decreases |data| - j
  {
    if data[j] == '\n' then j
    else
      FenceReach(ext, uni, data, j);
      hide FencedAt;
      var n := FencedAt(ext, uni, data, j);
      if n > 0 then j + n - 1 else LineReach(ext, uni, data, j + 1)
  }

  lemma FenceReach(ext: Extensions, uni: Unicode, data: bytes, j: nat)
    requires j < |data| && Terminated(data)
    ensures var n := FencedAt(ext, uni, data, j);
            j + n <= |data| && (n > 0 ==> data[j + n - 1] == '\n')
    ensures data[j] != '\n' ==> j + 1 < |data|
  {
    hide Fence.FenceAt, Fence.CloseFence;
    var tail := data[j..];
    TerminatedSuffix(data, j);
    if Fence.Fenced(uni, tail).Some? {
      Fence.FencedEndsLine(uni, tail);
      assert data[j + Fence.FencedSize(uni, tail) - 1] == tail[Fence.FencedSize(uni, tail) - 1];
    }
  }

  function QuoteAt(data: bytes, beg: nat): nat
    requires beg <= |data|
  {
    QuoteLen(data[beg..])
  }

  /** End of the quoted line at `beg`, its newline included. */
  function QuoteEnd(ext: Extensions, uni: Unicode, data: bytes, beg: nat): (r: nat)
    requires beg < |data| && Terminated(data)
    ensures beg + QuoteAt(data, beg) < r <= |data| && data[r - 1] == '\n'
  {
    PrefixOnLine(data, beg, LineReach(ext, uni, data, beg) + 1);
    hide QuoteAt;
    LineReach(ext, uni, data, beg) + 1
  }

  /** A line without a quote prefix ends the quote when a blank line comes first. */
  predicate QuoteStops(ext: Extensions, uni: Unicode, data: bytes, beg: nat)
    requires beg < |data| && Terminated(data)
  {
    QuoteAt(data, beg) == 0 && QuoteEnds(data, beg, QuoteEnd(ext, uni, data, beg))
  }

  /** The line at `beg` without its quote prefix. */
  function QuoteSlice(ext: Extensions, uni: Unicode, data: bytes, beg: nat): (r: bytes)
    requires beg < |data| && Terminated(data)
    ensures r != [] && Terminated(r)
  {
    data[beg + QuoteAt(data, beg)..QuoteEnd(ext, uni, data, beg)]
  }

  /** Where the quote that is open at `beg` ends.  Unprefixed lines belong to it until
      a blank line ends it. */
  function QuoteSize(ext: Extensions, uni: Unicode, data: bytes, beg: nat): (r: nat)
    requires beg <= |data| && Terminated(data)
    ensures beg <= r <= |data| && (beg < |data| ==> beg < r)
    decreases |data| - beg
  {
    if beg == |data| then beg
    else if QuoteStops(ext, uni, data, beg) then QuoteEnd(ext, uni, data, beg)
    else QuoteSize(ext, uni, data, QuoteEnd(ext, uni, data, beg))
  }

  /** The quoted text from `beg`: its lines without their quote prefixes. */
  function QuoteText(ext: Extensions, uni: Unicode, data: bytes, beg: nat): bytes
    requires beg <= |data| && Terminated(data)
    decreases |data| - beg
  {
    if beg == |data| || QuoteStops(ext, uni, data, beg) then ""
    else QuoteSlice(ext, uni, data, beg) + QuoteText(ext, uni, data, QuoteEnd(ext, uni, data, beg))
  }

  /** A quote prefix holds no newline, so it ends before the line does. */
  lemma PrefixOnLine(data: bytes, beg: nat, end: nat)
    requires beg < end <= |data| && data[end - 1] == '\n'
    ensures beg + QuoteAt(data, beg) < end
  {
    assert data[beg..][end - 1 - beg] == '\n';
  }

  lemma {:induction false} QuoteTextTerminated(ext: Extensions, uni: Unicode, data: bytes, beg: nat)
    requires beg <= |data| && Terminated(data)
    ensures Terminated(QuoteText(ext, uni, data, beg))
    decreases |data| - beg
  {
    hide QuoteSlice, QuoteEnd, QuoteStops;
    if beg < |data| && !QuoteStops(ext, uni, data, beg) {
      QuoteTextTerminated(ext, uni, data, QuoteEnd(ext, uni, data, beg));
      TerminatedConcat(QuoteSlice(ext, uni, data, beg), QuoteText(ext, uni, data, QuoteEnd(ext, uni, data, beg)));
    }
  }

  method ScanReach(ext: Extensions, uni: Unicode, data: bytes, beg: nat) returns (j: nat)
    requires beg < |data| && Terminated(data)
    ensures j == LineReach(ext, uni, data, beg)
  {
    hide FencedAt;
    j := beg;
    while data[j] != '\n'
      invariant beg <= j < |data| && LineReach(ext, uni, data, j) == LineReach(ext, uni, data, beg)
      decreases |data| - j
    {
      FenceReach(ext, uni, data, j);
      var n := ScanFencedAt(ext, uni, data, j);
      if n > 0 { return j + n - 1; }
      j := j + 1;
    }
  }

  method ScanFencedAt(ext: Extensions, uni: Unicode, data: bytes, j: nat) returns (n: nat)
    requires j <= |data|
    ensures n == FencedAt(ext, uni, data, j)
  {
    hide Fence.FenceAt, Fence.CloseFence;
    if !ext.fencedCode { return 0; }
    var block, body := Fence.ScanFenced(uni, data[j..], false);
    n := if block.Some? then block.value.size else 0;
  }

  method ScanQuoteAt(data: bytes, beg: nat) returns (n: nat)
    requires beg <= |data|
    ensures n == QuoteAt(data, beg)
  {
    n := QuotePrefix(data[beg..]);
  }

  /** The quoted text, line by line. */
  method ScanQuote(ext: Extensions, uni: Unicode, data: bytes) returns (end: nat, raw: bytes)
    requires data != [] && Terminated(data)
    ensures end == QuoteSize(ext, uni, data, 0) && raw == QuoteText(ext, uni, data, 0)
  {
    var beg := 0;
    end, raw := 0, "";
    NothingBefore(QuoteText(ext, uni, data, 0));
    while beg < |data|
      invariant 0 <= beg <= |data| && end == beg
      invariant QuoteSize(ext, uni, data, 0) == QuoteSize(ext, uni, data, beg)
      invariant QuoteText(ext, uni, data, 0) == raw + QuoteText(ext, uni, data, beg)
      decreases |data| - beg
    {
      hide QuoteSlice, QuoteEnd, QuoteStops;
      var pre, stops;
      end, pre, stops := ScanQuoteLine(ext, uni, data, beg);
      if stops { NothingAfter(raw); return; }
      ConcatAssoc(raw, QuoteSlice(ext, uni, data, beg), QuoteText(ext, uni, data, end));
      raw := raw + data[beg + pre..end];
      beg := end;
    }
    NothingAfter(raw);
  }

  /** One quoted line: its end, its prefix, and whether the quote stops there. */
  method ScanQuoteLine(ext: Extensions, uni: Unicode, data: bytes, beg: nat) returns (end: nat, pre: nat, stops: bool)
    requires beg < |data| && Terminated(data)
    ensures end == QuoteEnd(ext, uni, data, beg) && beg + pre < end
    ensures stops == QuoteStops(ext, uni, data, beg)
    ensures data[beg + pre..end] == QuoteSlice(ext, uni, data, beg)
  {
    hide LineReach, QuoteAt, QuoteEnds;
    var j := ScanReach(ext, uni, data, beg);
    end := j + 1;
    pre := ScanQuoteAt(data, beg);
    stops := false;
    if pre == 0 { stops := TerminateBlockquote(data, beg, end); }
  }

  lemma NothingBefore(a: bytes)
    ensures "" + a == a
  {
  }

  lemma NothingAfter(a: bytes)
    ensures a + "" == a
  {
  }
}
