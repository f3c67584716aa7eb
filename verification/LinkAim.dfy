/** Where a bracketed construct points (`link` of src/inline.rs). */
module LinkAim {
  import opened Bytes
  import opened MD = Markdown
  import opened LinkScan
  import BlockScan

  /** A bracket has no use, or goes to a target, or is resolved by its own text. */
  datatype Aim = Nothing | Goes(dest: bytes) | Own

  predicate IsNote(t: LinkType) { t.InlineFootnote? || t.DeferredFootnote? }

  /** The id in the second bracket, which opens at `at`; an empty one is the text. */
  function IdOf(d: bytes, txtE: nat, newline: bool, at: nat): Option<bytes>
    requires 0 < txtE < at < |d|
  {
    var end := Skip(d, at + 1, BlockScan.Not(']'));
    if end >= |d| then None
    else if end > at + 1 then Some(d[at + 1..end])
    else Some(if newline then Collapsed(d, 1, txtE) else d[1..txtE])
  }

  function Lookup(uni: Unicode, refs: map<bytes, Reference>, id: Option<bytes>): Aim {
    if id.Some? && uni.lower(id.value) in refs then Goes(refs[uni.lower(id.value)].link) else Nothing
  }

  /** A second bracket names a reference. */
  predicate NamesReference(t: LinkType, d: bytes, i: nat) {
    !t.DeferredFootnote? && i + 1 < |d| && d[i] == '[' && d[i + 1] != '^'
  }

  /** The target, from the byte `i` after the bracket that closes at `txtE`. */
  function AimAt(uni: Unicode, refs: map<bytes, Reference>, t: LinkType, d: bytes, txtE: nat, newline: bool,
                 i: nat): Aim
    requires 0 < txtE < i <= |d|
  {
    if i < |d| && d[i] == '(' then (match DestAt(d, i) case Some(dest) => Goes(dest) case None => Nothing)
    else if NamesReference(t, d, i) then Lookup(uni, refs, IdOf(d, txtE, newline, i))
    else Own
  }

  /** Where the bracket that starts `d` points. */
  function AimOf(uni: Unicode, refs: map<bytes, Reference>, t: LinkType, d: bytes): Aim
    requires TextStart(t) <= |d|
  {
    var end := BracketEnd(d, TextStart(t), 1);
    if end >= |d| then Nothing
    else AimAt(uni, refs, t, d, end, '\n' in d[TextStart(t)..end], Skip(d, end + 1, IsSpace))
  }

  // ----- a reference to a footnote -----

  /** The id of a footnote reference whose bracket closes at `end`. */
  function NoteId(d: bytes, end: nat, newline: bool): bytes
    requires 2 <= end <= |d|
  {
    if newline then Collapsed(d, 1, end) else d[2..end]
  }

  /** The bracket that starts `d`, after `[^`, names a defined footnote. */
  predicate NamesNote(uni: Unicode, refs: map<bytes, Reference>, d: bytes)
    requires |d| >= 2
  {
    var end := BracketEnd(d, 2, 1);
    && end < |d| && AimOf(uni, refs, DeferredFootnote, d) == Own
    && uni.lower(NoteId(d, end, '\n' in d[2..end])) in refs
  }

  /** A text that starts with a reference to a defined footnote. */
  predicate CitesNote(footnotes: bool, inside: bool, uni: Unicode, refs: map<bytes, Reference>, d: bytes) {
    footnotes && !inside && |d| >= 2 && d[0] == '[' && d[1] == '^' && NamesNote(uni, refs, d)
  }

  /** `[^b]` is one, once `b` is defined. */
  lemma ShortCitation(uni: Unicode, refs: map<bytes, Reference>)
    requires uni.lower("b") in refs
    ensures CitesNote(true, false, uni, refs, "[^b]")
  {
    var d := "[^b]";
    assert BlockScan.Backslashes(d, 2) == 0 && BlockScan.Backslashes(d, 3) == 0;
    hide BlockScan.Backslashes;
    assert BracketEnd(d, 3, 1) == 3;
    assert Skip(d, 4, IsSpace) == 4 && d[2..3] == "b";
    hide BracketEnd, Skip;
  }

  // ----- two marks that go nowhere -----

  lemma ShortText(d: bytes)
    requires |d| > 3 && d[1] != '[' && d[1] != ']' && d[1] != '\n' && d[1] != '\\' && d[0] != '\\' && d[2] == ']'
    ensures BracketEnd(d, 1, 1) == 2
  {
    assert BlockScan.Backslashes(d, 1) == 0 && BlockScan.Backslashes(d, 2) == 0;
    hide BlockScan.Backslashes;
    assert BracketEnd(d, 2, 1) == 2;
  }

  lemma EmptyParentheses()
    ensures "[a]()"[3] == '(' && DestAt("[a]()", 3) == Some("")
  {
    var d := "[a]()";
    assert Skip(d, 4, IsSpace) == 4;
    assert StopAt(d, 4, true) == 4;
    assert DestIn(d, 4, 4) == "";
    hide Skip, StopAt, DestIn;
  }

  /** `[a]()` points to the empty destination. */
  lemma EmptyTarget(uni: Unicode, refs: map<bytes, Reference>, t: LinkType)
    requires !t.DeferredFootnote?
    ensures AimOf(uni, refs, t, "[a]()") == Goes("")
  {
    var d := "[a]()";
    ShortText(d);
    EmptyParentheses();
    assert Skip(d, 3, IsSpace) == 3 && |d| == 5;
    hide BracketEnd, DestAt, Skip;
  }

  /** `[x][id]` points wherever the definition of `id` says, even nowhere. */
  lemma ReferenceTarget(uni: Unicode, refs: map<bytes, Reference>, t: LinkType)
    requires !t.DeferredFootnote? && uni.lower("id") in refs
    ensures AimOf(uni, refs, t, "[x][id]") == Goes(refs[uni.lower("id")].link)
  {
    var d := "[x][id]";
    ShortText(d);
    assert Skip(d, 3, IsSpace) == 3 && |d| == 7;
    SkipUnique(d, 4, BlockScan.Not(']'), 6);
    assert d[4..6] == "id";
    hide BracketEnd, DestAt, Skip;
  }
}
