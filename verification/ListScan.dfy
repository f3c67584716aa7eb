/** Gathering the lines of one list item (src/block.rs). */
module ListScan {
  import opened Bytes
  import opened Node
  import opened BlockScan
  import opened MD = Markdown
  import Fence

  /** The gathering state: the line about to be looked at, the text so far, whether
      a blank line is pending, where the first nested item starts in the text (0 for
      none), the open code fence if any, and the list flags. */
  datatype Gather = Gather(line: nat, raw: bytes, blank: bool, sublist: nat, fence: bytes, flags: ListType)

  ghost predicate GatherOk(data: bytes, st: Gather) {
    && st.line <= |data| && st.raw != [] && Terminated(st.raw)
    && st.sublist <= |st.raw| && Terminated(st.raw[..st.sublist])
    && !st.flags.definition
  }

  /** First byte of a line after at most four spaces, or one tab. */
  function Dedent(data: bytes, line: nat): (i: nat)
    requires line < |data|
    ensures line <= i <= |data| && i <= line + 4
  {
    if data[line] == '\t' then line + 1 else SkipUpTo(data, line, line + 4, ' ')
  }

  /** The indentation those bytes stand for. */
  function IndentOf(data: bytes, line: nat): (n: nat)
    requires line < |data|
  {
    if data[line] == '\t' then 4 else Dedent(data, line) - line
  }

  method ScanIndent(data: bytes, line: nat) returns (start: nat, indent: nat)
    requires line < |data|
    ensures start == Dedent(data, line) && indent == IndentOf(data, line)
  {
    if data[line] == '\t' { return line + 1, 4; }
    indent := 0;
    while indent < 4 && line + indent < |data| && data[line + indent] == ' '
      invariant 0 <= indent <= 4 && line + indent <= |data|
      invariant SkipUpTo(data, line + indent, line + 4, ' ') == SkipUpTo(data, line, line + 4, ' ')
    {
      indent := indent + 1;
    }
    start := line + indent;
  }

  /** A line that is not blank has text left after its indent. */
  lemma ChunkIsText(data: bytes, line: nat)
    requires line < |data| && BlankLen(data[line..NextLine(data, line)]) == 0
    ensures Dedent(data, line) < NextLine(data, line)
    ensures SkipUpTo(data[line..], 0, 3, ' ') < |data| - line
    ensures BlankLen(data[line..]) == 0
  {
    var cur := data[line..NextLine(data, line)];
    var s := Skip(cur, 0, IsBlank);
    assert cur[s] == data[line + s] == data[line..][s];
    assert forall k :: 0 <= k < s ==> cur[k] == data[line..][k];
    SkipUnique(data[line..], 0, IsBlank, s);
  }

  /** Any list-item prefix. */
  predicate StartsItem(chunk: bytes)
  {
    (UliLen(chunk) > 0 && !Hrule(chunk)) || OliLen(chunk) > 0 || DliLen(chunk) > 0
  }

  method CheckItem(chunk: bytes) returns (r: bool)
    ensures r == StartsItem(chunk)
  {
    var u := UliPrefix(chunk);
    if u > 0 {
      UliIsText(chunk);
      var rule := IsHrule(chunk);
      if !rule { return true; }
    }
    var o := OliPrefix(chunk);
    if o > 0 { return true; }
    var d := DliPrefix(chunk);
    return d > 0;
  }

  lemma UliIsText(chunk: bytes)
    requires UliLen(chunk) > 0
    ensures SkipUpTo(chunk, 0, 3, ' ') < |chunk|
  {
  }

  /** The fence bookkeeping of one line: the fence open after it, and whether the
      line belongs to a code block (and so is taken as it is). */
  function FenceAfter(uni: Unicode, chunk: bytes, open: bytes): (bytes, bool) {
    var marker := Fence.FenceAt(uni, chunk, false, open).marker;
    var next := if marker == [] then open else if open == [] then marker else "";
    (next, next != [] || marker != [])
  }

  method TrackFence(uni: Unicode, chunk: bytes, open: bytes) returns (next: bytes, inside: bool)
    ensures (next, inside) == FenceAfter(uni, chunk, open)
  {
    hide Fence.FenceAt;
    var f := Fence.IsFenceLine(uni, chunk, false, open);
    next := open;
    if f.marker != [] {
      if open == [] { next := f.marker; } else { next := ""; }
    }
    inside := next != [] || f.marker != [];
  }

  /** What a line does to the item. */
  datatype Verdict = Verdict(stop: bool, flags: ListType, sublist: nat, extra: bool)

  /** A line starting with an item prefix: a nested item if it is indented further,
      otherwise the end of this one. */
  function ItemVerdict(chunk: bytes, st: Gather, indent: nat, itemIndent: nat): Verdict {
    if indent <= itemIndent then
      Verdict(true,
              if OtherList(chunk, st.flags) then st.flags.(endOfList := true)
              else if st.blank then st.flags.(containsBlock := true)
              else st.flags,
              st.sublist, false)
    else
      Verdict(false, if st.blank then st.flags.(containsBlock := true) else st.flags,
              if st.sublist == 0 then |st.raw| else st.sublist, false)
  }

  /** What an item line, a heading or another line does: an item line that is not
      indented further ends the item, and so does any unindented line after a blank one. */
  function LineVerdict(ext: Extensions, chunk: bytes, st: Gather, indent: nat, itemIndent: nat): Verdict {
    if StartsItem(chunk) then ItemVerdict(chunk, st, indent, itemIndent)
    else if st.blank && indent < 4 then Verdict(true, st.flags.(endOfList := true), st.sublist, false)
    else if HeadingMark(ext, chunk) then Verdict(false, st.flags.(containsBlock := true), st.sublist, false)
    else if st.blank then Verdict(false, st.flags.(containsBlock := true), st.sublist, true)
    else Verdict(false, st.flags, st.sublist, false)
  }

  method JudgeItem(chunk: bytes, st: Gather, indent: nat, itemIndent: nat) returns (v: Verdict)
    ensures v == ItemVerdict(chunk, st, indent, itemIndent)
  {
    var flags := st.flags;
    if indent <= itemIndent {
      var changed := ListTypeChanged(chunk, flags);
      if changed {
        flags := flags.(endOfList := true);
      } else if st.blank {
        flags := flags.(containsBlock := true);
      }
      return Verdict(true, flags, st.sublist, false);
    }
    if st.blank { flags := flags.(containsBlock := true); }
    return Verdict(false, flags, if st.sublist == 0 then |st.raw| else st.sublist, false);
  }

  method JudgeLine(ext: Extensions, chunk: bytes, st: Gather, indent: nat, itemIndent: nat) returns (v: Verdict)
    requires chunk != []
    ensures v == LineVerdict(ext, chunk, st, indent, itemIndent)
  {
    hide StartsItem, UliLen, OliLen, DliLen, HeadingMark, ItemVerdict;
    var item := CheckItem(chunk);
    if item {
      v := JudgeItem(chunk, st, indent, itemIndent);
      return;
    }
    var heading := IsPrefixHeading(ext, chunk);
    var flags := st.flags;
    if heading {
      if st.blank && indent < 4 { return Verdict(true, flags.(endOfList := true), st.sublist, false); }
      return Verdict(false, flags.(containsBlock := true), st.sublist, false);
    }
    if st.blank && indent < 4 { return Verdict(true, flags.(endOfList := true), st.sublist, false); }
    if st.blank { return Verdict(false, flags.(containsBlock := true), st.sublist, true); }
    return Verdict(false, flags, st.sublist, false);
  }

  function Newlines(extra: bool, blank: bool): bytes {
    (if extra then "\n" else "") + (if blank then "\n" else "")
  }

  /** The line at `st.line` without its indent. */
  function Chunk(data: bytes, line: nat): bytes
    requires line < |data|
  {
    if Dedent(data, line) <= NextLine(data, line) then data[Dedent(data, line)..NextLine(data, line)] else ""
  }

  /** A line that is not blank: whether it stops the item, and the state after it.  A line
      in a code block, or one that belongs to the item, is taken without its indent, after
      any pending newlines. */
  function TakeOf(ext: Extensions, uni: Unicode, data: bytes, st: Gather, itemIndent: nat): (bool, Gather)
    requires st.line < |data|
  {
    var chunk, i := Chunk(data, st.line), NextLine(data, st.line);
    var (fence, inside) := if ext.fencedCode then FenceAfter(uni, chunk, st.fence) else (st.fence, false);
    if inside then (false, st.(line := i, raw := st.raw + chunk, fence := fence))
    else
      var v := LineVerdict(ext, chunk, st, IndentOf(data, st.line), itemIndent);
      if v.stop then (true, st.(flags := v.flags, fence := fence))
      else (false, Gather(i, st.raw + Newlines(v.extra, st.blank) + chunk, false, v.sublist, fence, v.flags))
  }

  /** One line; a blank one is only remembered. */
  function LineOf(ext: Extensions, uni: Unicode, data: bytes, st: Gather, itemIndent: nat): (bool, Gather)
    requires st.line < |data|
  {
    if BlankLen(data[st.line..NextLine(data, st.line)]) > 0 then
      (false, st.(line := NextLine(data, st.line), blank := true))
    else TakeOf(ext, uni, data, st, itemIndent)
  }

  /** A line that stops the item leaves the state where it was; any other is passed. */
  lemma TakeOk(ext: Extensions, uni: Unicode, data: bytes, st: Gather, itemIndent: nat)
    requires GatherOk(data, st) && st.line < |data| && Terminated(data)
    requires BlankLen(data[st.line..NextLine(data, st.line)]) == 0
    ensures var (stop, st') := TakeOf(ext, uni, data, st, itemIndent);
            GatherOk(data, st') && st'.line == if stop then st.line else NextLine(data, st.line)
  {
    hide LineVerdict, FenceAfter, Chunk, Dedent, NextLine, BlankLen, Terminated, GatherOk, Newlines, IndentOf;
    ChunkEndsLine(data, st.line);
    NotDefinition(data, st);
    var chunk, i := Chunk(data, st.line), NextLine(data, st.line);
    var (fence, inside) := if ext.fencedCode then FenceAfter(uni, chunk, st.fence) else (st.fence, false);
    var v := LineVerdict(ext, chunk, st, IndentOf(data, st.line), itemIndent);
    VerdictOk(ext, chunk, st, IndentOf(data, st.line), itemIndent);
    var st' := TakeOf(ext, uni, data, st, itemIndent).1;
    if inside {
      assert st.raw + "" + chunk == st.raw + chunk;
      GatherGrown(data, st, st', "", chunk);
    } else if v.stop {
      GatherKept(data, st, st');
    } else {
      GatherGrown(data, st, st', Newlines(v.extra, st.blank), chunk);
    }
  }

  lemma NotDefinition(data: bytes, st: Gather)
    requires GatherOk(data, st)
    ensures !st.flags.definition && NextLine(data, st.line) <= |data|
  {
  }

  lemma GatherKept(data: bytes, st: Gather, st': Gather)
    requires GatherOk(data, st) && st' == st.(flags := st'.flags, fence := st'.fence) && !st'.flags.definition
    ensures GatherOk(data, st')
  {
  }

  lemma GatherGrown(data: bytes, st: Gather, st': Gather, gap: bytes, chunk: bytes)
    requires GatherOk(data, st) && chunk != [] && Terminated(chunk) && st'.raw == st.raw + gap + chunk
    requires st'.line <= |data| && !st'.flags.definition && (st'.sublist == st.sublist || st'.sublist == |st.raw|)
    ensures GatherOk(data, st')
  {
    assert st.raw[..|st.raw|] == st.raw;
    RawOk(st.raw, gap, chunk, st'.sublist);
  }

  lemma ChunkEndsLine(data: bytes, line: nat)
    requires line < |data| && Terminated(data) && BlankLen(data[line..NextLine(data, line)]) == 0
    ensures Chunk(data, line) != [] && Terminated(Chunk(data, line)) && NextLine(data, line) <= |data|
  {
    ChunkIsText(data, line);
    var chunk := Chunk(data, line);
    assert chunk[|chunk| - 1] == data[NextLine(data, line) - 1];
  }

  /** A whole line may be added to the text. */
  lemma RawOk(raw: bytes, gap: bytes, chunk: bytes, sublist: nat)
    requires raw != [] && Terminated(raw) && sublist <= |raw| && Terminated(raw[..sublist])
    requires chunk != [] && Terminated(chunk)
    ensures var r := raw + gap + chunk; r != [] && Terminated(r) && sublist <= |r| && Terminated(r[..sublist])
  {
    assert (raw + gap + chunk)[..sublist] == raw[..sublist];
  }

  lemma VerdictOk(ext: Extensions, chunk: bytes, st: Gather, indent: nat, itemIndent: nat)
    requires !st.flags.definition
    ensures var v := LineVerdict(ext, chunk, st, indent, itemIndent);
            !v.flags.definition && (v.sublist == st.sublist || v.sublist == |st.raw|)
  {
    hide StartsItem, HeadingMark, OtherList;
  }

  lemma LineOk(ext: Extensions, uni: Unicode, data: bytes, st: Gather, itemIndent: nat)
    requires GatherOk(data, st) && st.line < |data| && Terminated(data)
    ensures var (stop, st') := LineOf(ext, uni, data, st, itemIndent);
            && GatherOk(data, st') && st'.line == (if stop then st.line else NextLine(data, st.line))
            && (stop ==> BlankLen(data[st.line..NextLine(data, st.line)]) == 0)
  {
    hide TakeOf, BlankLen, NextLine;
    if BlankLen(data[st.line..NextLine(data, st.line)]) == 0 { TakeOk(ext, uni, data, st, itemIndent); }
  }

  /** The text of an item: lines are gathered up to the end of the data or to a line that
      stops it, which is not blank. */
  function Gathered(ext: Extensions, uni: Unicode, data: bytes, st: Gather, itemIndent: nat): (r: Gather)
    requires GatherOk(data, st) && Terminated(data)
    ensures GatherOk(data, r) && st.line <= r.line
    ensures r.line < |data| ==> BlankLen(data[r.line..]) == 0
    decreases |data| - st.line
  {
    if st.line == |data| then st
    else
      LineOk(ext, uni, data, st, itemIndent);
      var (stop, st') := LineOf(ext, uni, data, st, itemIndent);
      if stop then
        ChunkIsText(data, st.line);
        hide LineOf, BlankLen, Dedent;
        st'
      else
        hide LineOf, BlankLen, Dedent;
        Gathered(ext, uni, data, st', itemIndent)
  }

  method TakeLine(ext: Extensions, uni: Unicode, data: bytes, st: Gather, itemIndent: nat)
    returns (stop: bool, st': Gather)
    requires GatherOk(data, st) && st.line < |data| && Terminated(data)
    requires BlankLen(data[st.line..NextLine(data, st.line)]) == 0
    ensures (stop, st') == TakeOf(ext, uni, data, st, itemIndent)
  {
    ChunkIsText(data, st.line);
    hide FenceAfter, LineVerdict, BlankLen;
    var i := NextLineStart(data, st.line);
    var start, indent := ScanIndent(data, st.line);
    var chunk := data[start..i];
    var fence := st.fence;
    if ext.fencedCode {
      var inside;
      fence, inside := TrackFence(uni, chunk, fence);
      if inside { return false, st.(line := i, raw := st.raw + chunk, fence := fence); }
    }
    var v := JudgeLine(ext, chunk, st, indent, itemIndent);
    if v.stop { return true, st.(flags := v.flags, fence := fence); }
    var raw := st.raw;
    if v.extra { raw := raw + "\n"; }
    if st.blank { raw := raw + "\n"; }
    assert raw == st.raw + Newlines(v.extra, st.blank);
    return false, Gather(i, raw + chunk, false, v.sublist, fence, v.flags);
  }

  /** One line of the gathering loop. */
  method GatherLine(ext: Extensions, uni: Unicode, data: bytes, st: Gather, itemIndent: nat)
    returns (stop: bool, st': Gather)
    requires GatherOk(data, st) && st.line < |data| && Terminated(data)
    ensures (stop, st') == LineOf(ext, uni, data, st, itemIndent)
  {
    hide TakeOf, BlankLen;
    var i := NextLineStart(data, st.line);
    var blank := IsEmpty(data[st.line..i]);
    if blank > 0 { return false, st.(line := i, blank := true); }
    stop, st' := TakeLine(ext, uni, data, st, itemIndent);
  }

  /** The whole loop. */
  method GatherItem(ext: Extensions, uni: Unicode, data: bytes, start: Gather, itemIndent: nat) returns (st: Gather)
    requires GatherOk(data, start) && Terminated(data)
    ensures st == Gathered(ext, uni, data, start, itemIndent)
  {
    hide LineOf, BlankLen, NextLine;
    st := start;
    while st.line < |data|
      invariant GatherOk(data, st)
      invariant Gathered(ext, uni, data, st, itemIndent) == Gathered(ext, uni, data, start, itemIndent)
      decreases |data| - st.line
    {
      LineOk(ext, uni, data, st, itemIndent);
      var stop, st' := GatherLine(ext, uni, data, st, itemIndent);
      if stop { return st'; }
      st := st';
    }
  }

  // ----- the first line -----

  /** What the first line of an item says. */
  datatype ItemHead = ItemHead(indent: nat, prefix: nat, bullet: byte, flags: ListType)

  /** The prefix of an item of any kind of list. */
  function ItemPrefix(data: bytes): nat {
    if UliLen(data) > 0 then UliLen(data) else if OliLen(data) > 0 then OliLen(data) else DliLen(data)
  }

  function HeadOf(data: bytes, flags: ListType): ItemHead
    requires data != []
  {
    ItemHead(if data[0] == '\t' then 4 else SkipUpTo(data, 0, 3, ' '), ItemPrefix(data),
             if 2 <= UliLen(data) <= |data| then data[UliLen(data) - 2] else '*',
             if UliLen(data) == 0 && OliLen(data) == 0 && DliLen(data) > 0 then flags.(term := false) else flags)
  }

  method ScanItemHead(data: bytes, flags: ListType) returns (h: ItemHead)
    requires SkipUpTo(data, 0, 3, ' ') < |data| && !flags.definition
    ensures h == HeadOf(data, flags)
  {
    var indent := 0;
    if data[0] == '\t' {
      indent := 4;
    } else {
      ghost var s := SkipUpTo(data, 0, 3, ' ');
      while indent < 3 && data[indent] == ' '
        invariant 0 <= indent <= s && SkipUpTo(data, indent, 3, ' ') == s
      {
        indent := indent + 1;
      }
    }
    hide OliLen;
    var bullet := '*';
    var i := UliPrefix(data);
    if i == 0 {
      i := OliPrefix(data);
    } else {
      UliShape(data);
      bullet := data[i - 2];
    }
    var f := flags;
    if i == 0 {
      i := DliPrefix(data);
      if i > 0 { f := f.(term := false); }
    }
    return ItemHead(indent, i, bullet, f);
  }

  lemma UliShape(data: bytes)
    requires UliLen(data) > 0
    ensures 2 <= UliLen(data) <= |data|
  {
  }

  /** The text of the first line, from the prefix on, with its newline. */
  method FirstLine(data: bytes, prefix: nat) returns (raw: bytes, i: nat)
    requires 0 < prefix <= |data| && Terminated(data) && data[prefix - 1] != '\n'
    ensures prefix < i <= |data| && data[i - 1] == '\n'
    ensures raw == data[Skip(data, prefix, Is(' '))..i] && raw != [] && Terminated(raw)
    ensures i == NextLine(data, Skip(data, prefix, Is(' ')))
  {
    var start := SkipChar(data, prefix, ' ');
    i := start;
    while i > 0 && i < |data| && data[i - 1] != '\n'
      invariant start <= i <= |data|
      invariant forall k :: start <= k < i - 1 ==> data[k] != '\n'
      invariant i == start ==> data[i - 1] != '\n'
      decreases |data| - i
    {
      i := i + 1;
    }
    assert data[|data| - 1] == '\n';
    SkipUnique(data, start, Not('\n'), i - 1);
    raw := data[start..i];
  }
}
