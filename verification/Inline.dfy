/** The inline parser (src/inline.rs): the loop and the handlers that recurse. */
module Inline {
  import opened Bytes
  import opened Node
  import opened Growth
  import opened MD = Markdown
  import opened InlineTree
  import opened InlineScan
  import opened InlineLeaf
  import opened LinkScan
  import opened LinkAim
  import BlockScan
  import HeadingIds

  // ----- one step below a new node -----

  /** Growth below a node a handler has just made. */
  lemma BelowNew(t0: Tree, t1: Tree, t2: Tree, l0: Books, l1: Books, l2: Books, n: NodeId)
    requires Made(t0, t1, Some(n)) && Entered(t0, t1, l0, l1)
    requires Grown(t1, t2, n) && Fit(t1, t2) && Entered(t1, t2, l1, l2)
    ensures Made(t0, t2, Some(n)) && Entered(t0, t2, l0, l2)
    ensures t2.Kind(n) == t1.Kind(n) && t2.nodes[n].data == t1.nodes[n].data
  {
    GrownBelowNew(t0, t1, t2, n);
    EnteredTrans(t0, t1, t2, l0, l1, l2);
  }

  // ----- the pieces of a run -----

  /** A run of text and what a handler made of the bytes after it. */
  datatype Piece = Piece(beg: nat, at: nat, end: nat, text: NodeId, node: Option<NodeId>)

  function EndOf(ps: seq<Piece>): nat { if ps == [] then 0 else ps[|ps| - 1].end }

  /** Consecutive pieces, each taking at least one byte.  Only a backslash at the very
      end may claim a byte past the data. */
  ghost predicate Chained(data: bytes, ps: seq<Piece>) {
    if ps == [] then true
    else
      var n := |ps| - 1;
      var p := ps[n];
      && Chained(data, ps[..n]) && EndOf(ps[..n]) == p.beg <= p.at < |data| && p.at < p.end
      && (p.end <= |data| || (p.end == |data| + 1 && p.at == |data| - 1 && data[p.at] == '\\'))
  }

  function NodesOf(ps: seq<Piece>): seq<NodeId> {
    if ps == [] then []
    else
      var p := ps[|ps| - 1];
      NodesOf(ps[..|ps| - 1]) + [p.text] + (if p.node.Some? then [p.node.value] else [])
  }

  /** The text nodes hold exactly the bytes between the handled ranges, and a range
      that leaves no node behind held nothing to show. */
  ghost predicate Texts(t: Tree, data: bytes, ps: seq<Piece>) {
    forall k :: 0 <= k < |ps| ==> TextIs(t, data, ps[k].text, ps[k].beg, ps[k].at)
  }

  ghost predicate TextIs(t: Tree, data: bytes, id: NodeId, beg: nat, end: nat) {
    && beg <= end <= |data| && id < |t.nodes|
    && t.Kind(id).Text? && t.nodes[id].data.literal == data[beg..end]
  }

  /** What may be taken and leave nothing behind: a space before a newline, a code span
      of spaces, a lone backslash at the end, and an unclosed tag with a one-letter
      name. */
  predicate Invisible(data: bytes, at: nat, n: nat) {
    at < |data| &&
    match data[at]
    case ' ' => n == 1 && at + 1 < |data| && data[at + 1] == '\n'
    case '`' => SpanAt(data[at..], n, "")
    case '<' => n <= 2
    case '\\' => at == |data| - 1
    case _ => false
  }

  ghost predicate Shown(data: bytes, ps: seq<Piece>) {
    forall k :: 0 <= k < |ps| && ps[k].node == None ==>
      ps[k].at <= ps[k].end && Invisible(data, ps[k].at, ps[k].end - ps[k].at)
  }

  function Min(a: nat, b: nat): nat { if a < b then a else b }

  /** The bytes the pieces cover. */
  function Covered(data: bytes, ps: seq<Piece>): bytes {
    if ps == [] then []
    else
      var p := ps[|ps| - 1];
      Covered(data, ps[..|ps| - 1])
      + (if p.beg <= p.at <= |data| then data[p.beg..p.at] else [])
      + (if p.at <= Min(p.end, |data|) then data[p.at..Min(p.end, |data|)] else [])
  }

  /** Text runs and handled ranges put together are the input, up to where they end. */
  lemma {:induction false} PiecesCover(data: bytes, ps: seq<Piece>)
    requires Chained(data, ps)
    ensures Covered(data, ps) == data[..Min(EndOf(ps), |data|)]
  {
    if ps != [] {
      var n := |ps| - 1;
      PiecesCover(data, ps[..n]);
      var p := ps[n];
      assert data[..p.beg] + data[p.beg..p.at] == data[..p.at];
      assert data[..p.at] + data[p.at..Min(p.end, |data|)] == data[..Min(p.end, |data|)];
    }
  }

  /** Where the last run of text ends: one final newline is dropped. */
  function TailEnd(data: bytes): nat {
    if data != [] && data[|data| - 1] == '\n' then |data| - 1 else |data|
  }

  // ----- the loop -----

  /** Where the loop stands: the pieces so far are the children `e` has gained. */
  ghost predicate Running(m: Markdown, t0: Tree, l0: Books, n0: seq<Reference>, e: NodeId, data: bytes, ps: seq<Piece>)
    reads m, m.arena
  {
    Ran(m.ext.footnotes, m.arena.T(), m.books, m.notes, t0, l0, n0, e, data, ps)
  }

  ghost predicate Ran(footnotes: bool, t: Tree, l: Books, n: seq<Reference>, t0: Tree, l0: Books, n0: seq<Reference>,
                      e: NodeId, data: bytes, ps: seq<Piece>)
  {
    && Grown(t0, t, e) && Fit(t0, t) && Entered(t0, t, l0, l) && n0 <= n
    && (footnotes || (l == l0 && n == n0))
    && Chained(data, ps) && Texts(t, data, ps) && Shown(data, ps)
    && e < |t0.kids| && e < |t.kids| && t.kids[e] == t0.kids[e] + NodesOf(ps)
  }

  lemma TextsKept(t: Tree, u: Tree, data: bytes, ps: seq<Piece>)
    requires Texts(t, data, ps) && |t.nodes| <= |u.nodes|
    requires forall x :: 0 <= x < |t.nodes| ==> u.Kind(x) == t.Kind(x) && u.nodes[x].data == t.nodes[x].data
    ensures Texts(u, data, ps)
  {
    forall k | 0 <= k < |ps| ensures TextIs(u, data, ps[k].text, ps[k].beg, ps[k].at) {
      assert TextIs(t, data, ps[k].text, ps[k].beg, ps[k].at);
    }
  }

  lemma MadeKeeps(t: Tree, u: Tree, node: Option<NodeId>)
    requires Made(t, u, node)
    ensures |t.nodes| <= |u.nodes|
    ensures forall x :: 0 <= x < |t.nodes| ==> u.Kind(x) == t.Kind(x) && u.nodes[x].data == t.nodes[x].data
  {
    forall x | 0 <= x < |t.nodes| ensures u.Kind(x) == t.Kind(x) && u.nodes[x].data == t.nodes[x].data {
      assert Same(t, u, x);
    }
  }

  /** A handler ran and nothing was hung yet. */
  lemma RunningOn(m: Markdown, t: Tree, l: Books, n: seq<Reference>, node: Option<NodeId>, t0: Tree,
                                    l0: Books, n0: seq<Reference>, e: NodeId, data: bytes, ps: seq<Piece>)
    requires Ran(m.ext.footnotes, t, l, n, t0, l0, n0, e, data, ps)
    requires Handled(m, t, l, n, node)
    ensures Running(m, t0, l0, n0, e, data, ps)
    ensures e < |t.nodes| <= |m.arena.nodes| && m.arena.T().Kind(e) == t.Kind(e)
    ensures node.Some? ==> |t0.nodes| <= node.value < |m.arena.nodes| && m.arena.T().Parent(node.value) == None
                           && m.arena.T().Kind(node.value).IsInline()
  {
    HandledInlines(t0, t, m.arena.T(), e, l0, l, m.books, node);
    MadeKeeps(t, m.arena.T(), node);
    TextsKept(t, m.arena.T(), data, ps);
  }

  lemma PieceAdded(data: bytes, ps: seq<Piece>, p: Piece, t: Tree)
    requires Chained(data, ps) && Texts(t, data, ps) && EndOf(ps) == p.beg <= p.at < |data| && p.at < p.end
    requires p.end <= |data| || (p.end == |data| + 1 && p.at == |data| - 1 && data[p.at] == '\\')
    requires TextIs(t, data, p.text, p.beg, p.at) && Shown(data, ps)
    requires p.node == None ==> Invisible(data, p.at, p.end - p.at)
    ensures Chained(data, ps + [p]) && Texts(t, data, ps + [p]) && Shown(data, ps + [p]) && EndOf(ps + [p]) == p.end
    ensures NodesOf(ps + [p]) == NodesOf(ps) + ([p.text] + (if p.node.Some? then [p.node.value] else []))
  {
    assert (ps + [p])[..|ps|] == ps;
    hide TextIs, Invisible, Texts, Shown;
    PieceShown(data, ps, p, t);
    var more := if p.node.Some? then [p.node.value] else [];
    assert (NodesOf(ps) + [p.text]) + more == NodesOf(ps) + ([p.text] + more);
  }

  lemma PieceShown(data: bytes, ps: seq<Piece>, p: Piece, t: Tree)
    requires Texts(t, data, ps) && TextIs(t, data, p.text, p.beg, p.at) && Shown(data, ps)
    requires p.at <= p.end && (p.node == None ==> Invisible(data, p.at, p.end - p.at))
    ensures Texts(t, data, ps + [p]) && Shown(data, ps + [p])
  {
    hide TextIs, Invisible;
  }

  /** The run before a handled range has been hung too. */
  ghost predicate Half(m: Markdown, t0: Tree, l0: Books, n0: seq<Reference>, e: NodeId, data: bytes, ps: seq<Piece>,
                       at: nat, text: NodeId)
    reads m, m.arena
  {
    && Inlined(m, t0, l0, n0, e) && Chained(data, ps) && Texts(m.arena.T(), data, ps) && Shown(data, ps)
    && e < |t0.kids| && e < |m.arena.kids| && m.arena.kids[e] == t0.kids[e] + (NodesOf(ps) + [text])
    && TextIs(m.arena.T(), data, text, EndOf(ps), at)
  }

  /** Hangs the text before a handled range. */
  method HangText(m: Markdown, curr: NodeId, data: bytes, beg: nat, at: nat, node: Option<NodeId>, ghost t0: Tree,
                  ghost l0: Books,
                  ghost n0: seq<Reference>, ghost ps: seq<Piece>) returns (text: NodeId)
    requires Live(m) && Running(m, t0, l0, n0, curr, data, ps) && m.arena.T().Kind(curr).HostsInline()
    requires EndOf(ps) == beg <= at <= |data| && (node.Some? ==> |t0.nodes| <= node.value < |m.arena.nodes|)
    modifies m.arena
    ensures Live(m) && Half(m, t0, l0, n0, curr, data, ps, at, text)
    ensures curr < |m.arena.nodes| && m.arena.T().Kind(curr) == old(m.arena.T()).Kind(curr)
    ensures node.Some? ==>
              && node.value < |m.arena.nodes|
              && m.arena.T().Parent(node.value) == old(m.arena.T()).Parent(node.value)
              && m.arena.T().Kind(node.value) == old(m.arena.T()).Kind(node.value)
  {
    hide NotesFit, Tree.Valid, EdgesOk, Grown, Fit, Entered, Chained, Made, Spread, Shown;
    ghost var t1 := m.arena.T();
    GrownRange(t0, t1, curr);
    text := TextNode(m, data[beg..at]);
    ghost var t2 := m.arena.T();
    RunningOn(m, t1, m.books, m.notes, Some(text), t0, l0, n0, curr, data, ps);
    FreshText(t1, t2, text, node, curr);
    Hang(m, curr, text, t0, l0, n0);
    TextsKept(t2, m.arena.T(), data, ps);
    TailHung(t0.kids[curr], NodesOf(ps), text);
  }

  /** Hangs the text before a handled range, then what the handler made. */
  method HangPiece(m: Markdown, curr: NodeId, data: bytes, beg: nat, at: nat, end: nat, node: Option<NodeId>,
                   ghost t0: Tree, ghost l0: Books, ghost n0: seq<Reference>, ghost ps: seq<Piece>)
    returns (ghost p: Piece)
    requires Live(m) && Running(m, t0, l0, n0, curr, data, ps) && m.arena.T().Kind(curr).HostsInline()
    requires EndOf(ps) == beg <= at < |data| && at < end
    requires end <= |data| || (end == |data| + 1 && at == |data| - 1 && data[at] == '\\')
    requires node.Some? ==> |t0.nodes| <= node.value < |m.arena.nodes| && m.arena.T().Parent(node.value) == None
                            && m.arena.T().Kind(node.value).IsInline()
    requires node == None ==> Invisible(data, at, end - at)
    modifies m.arena
    ensures Live(m) && Running(m, t0, l0, n0, curr, data, ps + [p]) && m.arena.T().Kind(curr).HostsInline()
    ensures p.beg == beg && p.at == at && p.end == end && p.node == node
  {
    hide NotesFit, Markdown.Valid, Tree.Valid, EdgesOk, Grown, Fit, Entered, Chained, Shown, Invisible, TextIs;
    var text := HangText(m, curr, data, beg, at, node, t0, l0, n0, ps);
    ghost var t1 := m.arena.T();
    p := Piece(beg, at, end, text, node);
    if node.Some? {
      Hang(m, curr, node.value, t0, l0, n0);
      TextsKept(t1, m.arena.T(), data, ps);
      TextKept(t1, m.arena.T(), data, text, beg, at);
    }
    PieceAdded(data, ps, p, m.arena.T());
    NodesHung(t0.kids[curr], NodesOf(ps), text, node);
  }

  lemma TextKept(t: Tree, u: Tree, data: bytes, text: NodeId, beg: nat, end: nat)
    requires TextIs(t, data, text, beg, end) && |t.nodes| <= |u.nodes|
    requires forall x :: 0 <= x < |t.nodes| ==> u.Kind(x) == t.Kind(x) && u.nodes[x].data == t.nodes[x].data
    ensures TextIs(u, data, text, beg, end)
  {
  }

  lemma FreshText(t1: Tree, t2: Tree, text: NodeId, node: Option<NodeId>, e: NodeId)
    requires Made(t1, t2, Some(text)) && e < |t1.nodes|
    ensures t2.Parent(text) == None && t2.Kind(e) == t1.Kind(e) && text != e
    ensures node.Some? && node.value < |t1.nodes| ==> t2.Parent(node.value) == t1.Parent(node.value)
                                                      && t2.Kind(node.value) == t1.Kind(node.value)
                                                          && node.value != text
  {
    assert Same(t1, t2, e);
    if node.Some? && node.value < |t1.nodes| { assert Same(t1, t2, node.value); }
  }

  lemma NodesHung(k: seq<NodeId>, s: seq<NodeId>, text: NodeId, node: Option<NodeId>)
    ensures node == None ==> k + (s + [text]) == k + (s + ([text] + []))
    ensures node.Some? ==> (k + (s + [text])) + [node.value] == k + (s + ([text] + [node.value]))
  {
  }

  /** What inlining `data` below `e` leaves: the pieces in order, then the last run. */
  ghost predicate Laid(t0: Tree, t: Tree, e: NodeId, data: bytes, ps: seq<Piece>, tail: Option<NodeId>) {
    && e < |t0.kids| && e < |t.kids| && Chained(data, ps) && Texts(t, data, ps) && Shown(data, ps)
    && (tail.Some? <==> EndOf(ps) < |data|)
    && t.kids[e] == t0.kids[e] + (NodesOf(ps) + (if tail.Some? then [tail.value] else []))
    && (tail.Some? ==> TextIs(t, data, tail.value, EndOf(ps), TailEnd(data)))
  }

  /** Parses `data` as inline content below `curr`.  Past the nesting limit it is
      dropped; otherwise text runs, handled ranges and the last run, less a final
      newline, make up the input. */
  method Inline(m: Markdown, curr: NodeId, data: bytes) returns (ghost ps: seq<Piece>, ghost tail: Option<NodeId>)
    requires Live(m) && curr < |m.arena.nodes| && m.arena.T().Kind(curr).HostsInline()
    modifies m`nesting, m`insideLink, m`notes, m`books, m.arena, m.handles
    ensures Live(m) && m.nesting == old(m.nesting) && m.insideLink == old(m.insideLink)
    ensures Inlined(m, old(m.arena.T()), old(m.books), old(m.notes), curr)
    ensures if old(m.nesting) < m.maxNesting then Laid(old(m.arena.T()), m.arena.T(), curr, data, ps, tail)
            else m.arena.T() == old(m.arena.T()) && m.notes == old(m.notes)
    ensures data == [] ==> m.arena.T() == old(m.arena.T()) && m.books == old(m.books) && m.notes == old(m.notes)
    ensures old(m.nesting) < m.maxNesting && CitesNote(m.ext.footnotes, old(m.insideLink), m.uni, old(m.refs), data) ==>
              |m.notes| > |old(m.notes)|
    decreases m.maxNesting - m.nesting, 0
  {
    ghost var t0, l0, n0 := m.arena.T(), m.books, m.notes;
    hide Running, Laid, NotesFit, Markdown.Valid, Grown, Fit, Entered, CitesNote, Inlined;
    ps, tail := [], None;
    NothingLaid(m, curr, data);
    if m.nesting >= m.maxNesting || data == [] {
      NothingCited(m, data);
      return;
    }
    SetNesting(m, m.nesting + 1);
    var beg: nat;
    beg, ps := Pieces(m, curr, data);
    tail := Last(m, curr, data, beg, t0, l0, n0, ps);
    SetNesting(m, m.nesting - 1);
  }

  lemma NothingCited(m: Markdown, data: bytes)
    ensures data == [] ==> !CitesNote(m.ext.footnotes, m.insideLink, m.uni, m.refs, data)
  {
  }

  /** The loop over the bytes.  A text that starts with a reference to a defined
      footnote queues it. */
  method Pieces(m: Markdown, curr: NodeId, data: bytes) returns (beg: nat, ghost ps: seq<Piece>)
    requires Live(m) && curr < |m.arena.nodes| && m.arena.T().Kind(curr).HostsInline() && data != []
    modifies m`nesting, m`insideLink, m`notes, m`books, m.arena, m.handles
    ensures Live(m) && m.nesting == old(m.nesting) && m.insideLink == old(m.insideLink)
    ensures Running(m, old(m.arena.T()), old(m.books), old(m.notes), curr, data, ps) && EndOf(ps) == beg
    ensures curr < |m.arena.nodes| && m.arena.T().Kind(curr).HostsInline()
    ensures CitesNote(m.ext.footnotes, m.insideLink, m.uni, old(m.refs), data) ==> |m.notes| > |old(m.notes)|
    decreases m.maxNesting - m.nesting, 10
  {
    ghost var t0, l0, n0 := m.arena.T(), m.books, m.notes;
    hide Running, Laid, NotesFit, Markdown.Valid, Grown, Fit, Entered, CitesNote, Inlined;
    NothingLaid(m, curr, data);
    var end: nat := 0;
    beg, ps := 0, [];
    while end < |data|
      invariant Live(m) && m.nesting == old(m.nesting) && m.insideLink == old(m.insideLink)
      invariant Running(m, t0, l0, n0, curr, data, ps) && curr < |m.arena.nodes| && m.arena.T().Kind(curr).HostsInline()
      invariant EndOf(ps) == beg <= end && (beg < |data| ==> end <= |data|)
      invariant n0 <= m.notes
      invariant end > 0 && CitesNote(m.ext.footnotes, m.insideLink, m.uni, m.refs, data) ==> |m.notes| > |n0|
      decreases |data| - end
    {
      beg, end, ps := Step(m, curr, data, beg, end, t0, l0, n0, ps);
    }
  }

  method SetNesting(m: Markdown, n: nat)
    requires Live(m) && n <= m.maxNesting
    modifies m`nesting
    ensures Live(m) && m.nesting == n
  {
    ghost var view := m.View();
    m.nesting := n;
    assert m.View() == view;
  }

  lemma NothingLaid(m: Markdown, curr: NodeId, data: bytes)
    requires Live(m) && curr < |m.arena.nodes|
    ensures Running(m, m.arena.T(), m.books, m.notes, curr, data, [])
    ensures data == [] ==> Laid(m.arena.T(), m.arena.T(), curr, data, [], None)
    ensures Inlined(m, m.arena.T(), m.books, m.notes, curr)
  {
    assert m.arena.kids[curr] + [] == m.arena.kids[curr];
  }

  /** One byte: its handler is asked, and what it takes becomes a piece. */
  method Step(m: Markdown, curr: NodeId, data: bytes, beg: nat, end: nat, ghost t0: Tree, ghost l0: Books,
              ghost n0: seq<Reference>, ghost ps: seq<Piece>) returns (beg': nat, end': nat, ghost ps': seq<Piece>)
    requires Live(m) && Running(m, t0, l0, n0, curr, data, ps) && curr < |m.arena.nodes|
    requires m.arena.T().Kind(curr).HostsInline() && EndOf(ps) == beg <= end < |data|
    modifies m`nesting, m`insideLink, m`notes, m`books, m.arena, m.handles
    ensures Live(m) && m.nesting == old(m.nesting) && m.insideLink == old(m.insideLink)
    ensures Running(m, t0, l0, n0, curr, data, ps') && curr < |m.arena.nodes| && m.arena.T().Kind(curr).HostsInline()
    ensures EndOf(ps') == beg' <= end' && end < end' && (beg' < |data| ==> end' <= |data|)
    ensures old(m.notes) <= m.notes
    ensures end == 0 && CitesNote(m.ext.footnotes, old(m.insideLink), m.uni, old(m.refs), data) ==>
              |m.notes| > |old(m.notes)|
    decreases m.maxNesting - m.nesting, 9
  {
    ghost var t, l, n := m.arena.T(), m.books, m.notes;
    hide Ran, Handled, NotesFit, Markdown.Valid, Invisible, Tree.Valid, HandlerFor, CitesNote;
    var consumed, node := Handle(m, data, end);
    NotesOnly(m, t, l, n, node);
    RunningOn(m, t, l, n, node, t0, l0, n0, curr, data, ps);
    if consumed == 0 {
      beg', end', ps' := beg, end + 1, ps;
    } else {
      ghost var p := HangPiece(m, curr, data, beg, end, end + consumed, node, t0, l0, n0, ps);
      beg', end', ps' := end + consumed, end + consumed, ps + [p];
      assert ps'[..|ps|] == ps;
    }
  }

  lemma NotesOnly(m: Markdown, t: Tree, l: Books, n: seq<Reference>, node: Option<NodeId>)
    requires Handled(m, t, l, n, node)
    ensures n <= m.notes
  {
  }

  lemma RunningParts(m: Markdown, t0: Tree, l0: Books, n0: seq<Reference>, e: NodeId, data: bytes, ps: seq<Piece>)
    requires Running(m, t0, l0, n0, e, data, ps)
    ensures Grown(t0, m.arena.T(), e) && Fit(t0, m.arena.T()) && Entered(t0, m.arena.T(), l0, m.books) && n0 <= m.notes
    ensures m.ext.footnotes || (m.books == l0 && m.notes == n0)
    ensures Chained(data, ps) && Texts(m.arena.T(), data, ps) && Shown(data, ps)
    ensures e < |t0.kids| && e < |m.arena.kids| && m.arena.kids[e] == t0.kids[e] + NodesOf(ps)
    ensures e < |t0.nodes| <= |m.arena.nodes|
  {
  }

  /** The last run of text, without a final newline. */
  method Last(m: Markdown, curr: NodeId, data: bytes, beg: nat, ghost t0: Tree, ghost l0: Books,
              ghost n0: seq<Reference>, ghost ps: seq<Piece>) returns (ghost tail: Option<NodeId>)
    requires Live(m) && Running(m, t0, l0, n0, curr, data, ps) && m.arena.T().Kind(curr).HostsInline()
    requires EndOf(ps) == beg && data != []
    modifies m.arena
    ensures Live(m) && Inlined(m, t0, l0, n0, curr) && Laid(t0, m.arena.T(), curr, data, ps, tail)
  {
    RunningParts(m, t0, l0, n0, curr, data, ps);
    hide NotesFit, Markdown.Valid, Grown, Fit, Entered, Chained, Texts, Shown, TextIs, Tree.Valid;
    tail := None;
    if beg < |data| {
      var end := if data[|data| - 1] == '\n' then |data| - 1 else |data|;
      var text := HangText(m, curr, data, beg, end, None, t0, l0, n0, ps);
      tail := Some(text);
    } else {
      assert NodesOf(ps) + [] == NodesOf(ps);
    }
  }

  lemma TailHung(k: seq<NodeId>, s: seq<NodeId>, text: NodeId)
    ensures (k + s) + [text] == k + (s + [text])
  {
  }

  // ----- where emphasis ends -----

  /** The closing delimiter of a single run, or 0. */
  method ScanEmphasis(noIntra: bool, data: bytes, c: byte) returns (r: nat)
    requires c == '*' || c == '_' || c == '~'
    ensures r > 0 ==> r < |data| && data[r] == c && !IsSpace(data[r - 1])
    ensures r > 0 && noIntra ==> r + 1 == |data| || IsSpace(data[r + 1]) || IsPunct(data[r + 1])
    ensures r > 0 ==> r + 1 == |data| || data[r + 1] != c
    ensures |data| > 1 && data[0] == data[1] == c ==> r == 0
  {
    var i: nat := 0;
    if |data| > 1 && data[0] == c && data[1] == c { i := 1; }
    while i < |data|
      invariant i <= |data| && (|data| > 1 && data[0] == data[1] == c ==> i == 1)
    {
      var length := FindEmphChar(data[i..], c);
      if length == 0 { return 0; }
      assert data[i..][length] == data[i + length];
      i := i + length;
      if i + 1 < |data| && data[i + 1] == c {
        i := i + 1;
        continue;
      }
      if !IsSpace(data[i - 1]) {
        if noIntra && !(i + 1 == |data| || IsSpace(data[i + 1]) || IsPunct(data[i + 1])) { continue; }
        return i;
      }
    }
    return 0;
  }

  /** The closing pair of a double run, or 0. */
  method ScanDouble(data: bytes, c: byte) returns (r: nat)
    requires c == '*' || c == '_' || c == '~'
    ensures r > 0 ==> r + 1 < |data| && data[r] == data[r + 1] == c && !IsSpace(data[r - 1])
    ensures data != [] && data[0] == c ==> r == 0
  {
    var i: nat := 0;
    while i < |data|
      invariant data != [] && data[0] == c ==> i == 0
      decreases |data| - i
    {
      var length := FindEmphChar(data[i..], c);
      if length == 0 { return 0; }
      assert data[i..][length] == data[i + length];
      i := i + length;
      if i + 1 < |data| && data[i + 1] == c && !IsSpace(data[i - 1]) { return i; }
      i := i + 1;
    }
    return 0;
  }

  /** The first delimiter that no space precedes, or 0. */
  method ScanTriple(rest: bytes, c: byte) returns (r: nat)
    requires c == '*' || c == '_' || c == '~'
    ensures r > 0 ==> r < |rest| && rest[r] == c && !IsSpace(rest[r - 1])
  {
    var i: nat := 0;
    while i < |rest|
      decreases |rest| - i
    {
      var length := FindEmphChar(rest[i..], c);
      if length == 0 { return 0; }
      assert rest[i..][length] == rest[i + length];
      i := i + length;
      if !IsSpace(rest[i - 1]) { return i; }
    }
    return 0;
  }

  // ----- emphasis -----

  /** `x` was empty and `data` was laid out below it. */
  ghost predicate Holds(t: Tree, x: NodeId, data: bytes) {
    exists t0: Tree, ps: seq<Piece>, tail: Option<NodeId> ::
      x < |t0.kids| && t0.kids[x] == [] && Laid(t0, t, x, data, ps, tail)
  }

  /** A new node of `kind` holding `text`, inlined. */
  method InlineBelow(m: Markdown, kind: NodeType, d: Data, text: bytes) returns (id: NodeId)
    requires Live(m) && kind.IsInline() && kind.HostsInline() && d.link.noteId == 0
    requires GoesSomewhere(Node(kind, NoLinks, true, d))
    modifies m`nesting, m`insideLink, m`notes, m`books, m.arena, m.handles
    ensures Live(m) && m.nesting == old(m.nesting) && m.insideLink == old(m.insideLink)
    ensures Handled(m, old(m.arena.T()), old(m.books), old(m.notes), Some(id))
    ensures id < |m.arena.nodes| && m.arena.T().Kind(id) == kind && m.arena.nodes[id].data == d
    ensures m.nesting < m.maxNesting ==> Holds(m.arena.T(), id, text)
    decreases m.maxNesting - m.nesting, 1
  {
    hide NotesFit, Markdown.Valid, Grown, Fit, Entered, Made, Laid, Holds;
    ghost var t0, l0, n0 := m.arena.T(), m.books, m.notes;
    id := NewInline(m, kind, d);
    ghost var t1, l1 := m.arena.T(), m.books;
    ghost var ps, tail;
    ps, tail := Inline(m, id, text);
    BelowNew(t0, t1, m.arena.T(), l0, l1, m.books, id);
    MadeRange(t0, m.arena.T(), id);
    if m.nesting < m.maxNesting { NowHolds(t1, m.arena.T(), id, text, ps, tail); }
  }

  lemma NowHolds(t0: Tree, t: Tree, x: NodeId, data: bytes, ps: seq<Piece>, tail: Option<NodeId>)
    requires x < |t0.kids| && t0.kids[x] == [] && Laid(t0, t, x, data, ps, tail)
    ensures Holds(t, x, data)
  {
  }

  lemma MadeRange(t0: Tree, t: Tree, id: NodeId)
    requires Made(t0, t, Some(id))
    ensures id < |t.nodes|
  {
  }

  /** The byte starts, and some later byte of the same kind ends, what was taken. */
  predicate Delimited(data: bytes, n: nat) {
    2 <= n <= |data| && data[n - 1] == data[0]
  }

  /** The node's kind tells the length of the delimiter run, and it holds the bytes
      between the delimiters; three make strong text around emphasised text. */
  ghost predicate Stressed(t: Tree, x: NodeId, data: bytes, n: nat) {
    && x < |t.nodes| && 2 <= n <= |data|
    && if data[1] != data[0] then
         t.Kind(x).Emph? && Holds(t, x, data[1..n - 1])
       else if n >= 4 && data[2] != data[0] then
         t.Kind(x) == (if data[0] == '~' then Del else Strong) && Holds(t, x, data[2..n - 2])
       else
         n >= 6 && t.Kind(x).Strong? && StrongOverEm(t, x, data[3..n - 3])
  }

  ghost predicate StrongOverEm(t: Tree, x: NodeId, text: bytes) {
    && x < |t.kids| && |t.kids[x]| == 1
    && t.kids[x][0] < |t.nodes| && t.Kind(t.kids[x][0]).Emph? && Holds(t, t.kids[x][0], text)
  }

  lemma StressedOnce(t: Tree, x: NodeId, data: bytes, n: nat)
    requires x < |t.nodes| && 2 <= n <= |data| && data[1] != data[0] && t.Kind(x).Emph?
    requires Holds(t, x, data[1..][..n - 2])
    ensures Stressed(t, x, data, n)
  {
    assert data[1..][..n - 2] == data[1..n - 1];
  }

  lemma StressedTwice(t: Tree, x: NodeId, data: bytes, n: nat)
    requires x < |t.nodes| && 4 <= n <= |data| && data[1] == data[0] != data[2]
    requires t.Kind(x) == (if data[0] == '~' then Del else Strong) && Holds(t, x, data[2..][..n - 4])
    ensures Stressed(t, x, data, n)
  {
    assert data[2..][..n - 4] == data[2..n - 2];
  }

  lemma StressedThrice(t: Tree, x: NodeId, data: bytes, n: nat)
    requires x < |t.nodes| && 6 <= n <= |data| && data[1] == data[0] == data[2]
    requires t.Kind(x).Strong? && StrongOverEm(t, x, data[3..][..n - 6])
    ensures Stressed(t, x, data, n)
  {
    assert data[3..][..n - 6] == data[3..n - 3];
  }

  /** One delimiter. */
  method EmphasisOnce(m: Markdown, data: bytes) returns (n: nat, node: Option<NodeId>)
    requires Live(m) && |data| > 2 && data[1] != data[0]
    requires data[0] == '*' || data[0] == '_' || data[0] == '~'
    modifies m`nesting, m`insideLink, m`notes, m`books, m.arena, m.handles
    ensures Live(m) && m.nesting == old(m.nesting) && m.insideLink == old(m.insideLink)
    ensures Handled(m, old(m.arena.T()), old(m.books), old(m.notes), node)
    ensures n <= |data| && node.Some? == (n > 0)
    ensures n > 0 ==> Delimited(data, n) && !(data[0] == '~' || IsSpace(data[1]))
    ensures n > 0 && m.nesting < m.maxNesting ==> Stressed(m.arena.T(), node.value, data, n)
    decreases m.maxNesting - m.nesting, 4, 0
  {
    NothingMade(m);
    hide NotesFit, Markdown.Valid, Done, Holds, StrongOverEm, Stressed;
    if data[0] == '~' || IsSpace(data[1]) { return 0, None; }
    n, node := HelperEmphasis(m, data[1..], data[0]);
    if n == 0 { return 0, None; }
    n := n + 1;
    if m.nesting < m.maxNesting { StressedOnce(m.arena.T(), node.value, data, n); }
  }

  /** Two delimiters. */
  method EmphasisTwice(m: Markdown, data: bytes) returns (n: nat, node: Option<NodeId>)
    requires Live(m) && |data| > 3 && data[1] == data[0] != data[2]
    requires data[0] == '*' || data[0] == '_' || data[0] == '~'
    modifies m`nesting, m`insideLink, m`notes, m`books, m.arena, m.handles
    ensures Live(m) && m.nesting == old(m.nesting) && m.insideLink == old(m.insideLink)
    ensures Handled(m, old(m.arena.T()), old(m.books), old(m.notes), node)
    ensures n <= |data| && node.Some? == (n > 0)
    ensures n > 0 ==> Delimited(data, n) && !(IsSpace(data[2]))
    ensures n > 0 && m.nesting < m.maxNesting ==> Stressed(m.arena.T(), node.value, data, n)
    decreases m.maxNesting - m.nesting, 4, 0
  {
    NothingMade(m);
    hide NotesFit, Markdown.Valid, Done, Holds, StrongOverEm, Stressed;
    if IsSpace(data[2]) { return 0, None; }
    n, node := HelperDouble(m, data[2..], data[0]);
    if n == 0 { return 0, None; }
    n := n + 2;
    if m.nesting < m.maxNesting { StressedTwice(m.arena.T(), node.value, data, n); }
  }

  /** Three delimiters. */
  method EmphasisThrice(m: Markdown, data: bytes) returns (n: nat, node: Option<NodeId>)
    requires Live(m) && |data| > 4 && data[1] == data[0] == data[2] && data[3] != data[0]
    requires data[0] == '*' || data[0] == '_' || data[0] == '~'
    modifies m`nesting, m`insideLink, m`notes, m`books, m.arena, m.handles
    ensures Live(m) && m.nesting == old(m.nesting) && m.insideLink == old(m.insideLink)
    ensures Handled(m, old(m.arena.T()), old(m.books), old(m.notes), node)
    ensures n <= |data| && node.Some? == (n > 0)
    ensures n > 0 ==> Delimited(data, n) && !(data[0] == '~' || IsSpace(data[3]))
    ensures n > 0 && m.nesting < m.maxNesting ==> Stressed(m.arena.T(), node.value, data, n)
    decreases m.maxNesting - m.nesting, 4, 0
  {
    NothingMade(m);
    hide NotesFit, Markdown.Valid, Done, Holds, StrongOverEm, Stressed;
    if data[0] == '~' || IsSpace(data[3]) { return 0, None; }
    n, node := HelperTriple(m, data, 3, data[0]);
    if n == 0 { return 0, None; }
    n := n + 3;
    if m.nesting < m.maxNesting { StressedThrice(m.arena.T(), node.value, data, n); }
  }

  /** `*`, `_` and `~`, in ones, twos or threes. */
  method Emphasis(m: Markdown, data: bytes) returns (n: nat, node: Option<NodeId>)
    requires Live(m) && data != [] && (data[0] == '*' || data[0] == '_' || data[0] == '~')
    modifies m`nesting, m`insideLink, m`notes, m`books, m.arena, m.handles
    ensures Live(m) && m.nesting == old(m.nesting) && m.insideLink == old(m.insideLink)
    ensures Handled(m, old(m.arena.T()), old(m.books), old(m.notes), node)
    ensures n <= |data| && node.Some? == (n > 0) && (n > 0 ==> Delimited(data, n))
    ensures n > 0 && data[1] != data[0] ==> data[0] != '~' && !IsSpace(data[1])
    ensures n > 0 && m.nesting < m.maxNesting ==> Stressed(m.arena.T(), node.value, data, n)
    decreases m.maxNesting - m.nesting, 4, 1
  {
    NothingMade(m);
    hide NotesFit, Markdown.Valid, Done, Stressed;
    var c := data[0];
    if |data| > 2 && data[1] != c {
      n, node := EmphasisOnce(m, data);
    } else if |data| > 3 && data[1] == c && data[2] != c {
      n, node := EmphasisTwice(m, data);
    } else if |data| > 4 && data[1] == c && data[2] == c && data[3] != c {
      n, node := EmphasisThrice(m, data);
    } else {
      return 0, None;
    }
  }

  /** Single emphasis: `data` starts after the opening delimiter.  When two delimiters
      are still to come, as from a triple run, it always declines. */
  method HelperEmphasis(m: Markdown, data: bytes, c: byte) returns (n: nat, node: Option<NodeId>)
    requires Live(m) && (c == '*' || c == '_' || c == '~')
    modifies m`nesting, m`insideLink, m`notes, m`books, m.arena, m.handles
    ensures Live(m) && m.nesting == old(m.nesting) && m.insideLink == old(m.insideLink)
    ensures Handled(m, old(m.arena.T()), old(m.books), old(m.notes), node)
    ensures n <= |data| && node.Some? == (n > 0)
    ensures n > 0 ==> n >= 2 && data[n - 1] == c && !IsSpace(data[n - 2]) && m.arena.T().Kind(node.value).Emph?
    ensures |data| > 1 && data[0] == data[1] == c ==> n == 0
    ensures n > 0 && m.nesting < m.maxNesting ==> Holds(m.arena.T(), node.value, data[..n - 1])
    decreases m.maxNesting - m.nesting, 2
  {
    NothingMade(m);
    hide NotesFit, Markdown.Valid, Made, Entered, Holds;
    var i := ScanEmphasis(m.ext.noIntraEmphasis, data, c);
    if i == 0 { return 0, None; }
    var emph := InlineBelow(m, Emph, NoData, data[..i]);
    return i + 1, Some(emph);
  }

  /** Double emphasis; `~~` strikes through.  On a delimiter it always declines. */
  method HelperDouble(m: Markdown, data: bytes, c: byte) returns (n: nat, node: Option<NodeId>)
    requires Live(m) && (c == '*' || c == '_' || c == '~')
    modifies m`nesting, m`insideLink, m`notes, m`books, m.arena, m.handles
    ensures Live(m) && m.nesting == old(m.nesting) && m.insideLink == old(m.insideLink)
    ensures Handled(m, old(m.arena.T()), old(m.books), old(m.notes), node)
    ensures n <= |data| && node.Some? == (n > 0)
    ensures n > 0 ==> n >= 3 && data[n - 1] == data[n - 2] == c && !IsSpace(data[n - 3])
                      && m.arena.T().Kind(node.value) == (if c == '~' then Del else Strong)
    ensures data != [] && data[0] == c ==> n == 0
    ensures n > 0 && m.nesting < m.maxNesting ==> Holds(m.arena.T(), node.value, data[..n - 2])
    decreases m.maxNesting - m.nesting, 2
  {
    NothingMade(m);
    hide NotesFit, Markdown.Valid, Made, Entered, Holds;
    var i := ScanDouble(data, c);
    if i == 0 { return 0, None; }
    var id := InlineBelow(m, if c == '~' then Del else Strong, NoData, data[..i]);
    return i + 2, Some(id);
  }

  /** Triple emphasis.  The fallbacks to the shorter forms hand them a text that starts
      with a delimiter, so they always decline. */
  method HelperTriple(m: Markdown, data: bytes, offset: nat, c: byte) returns (n: nat, node: Option<NodeId>)
    requires Live(m) && (c == '*' || c == '_' || c == '~') && offset == 3 < |data|
    requires data[0] == data[1] == data[2] == c && data[3] != c
    modifies m`nesting, m`insideLink, m`notes, m`books, m.arena, m.handles
    ensures Live(m) && m.nesting == old(m.nesting) && m.insideLink == old(m.insideLink)
    ensures Handled(m, old(m.arena.T()), old(m.books), old(m.notes), node)
    ensures offset + n <= |data| && node.Some? == (n > 0)
    ensures n > 0 ==> n >= 4 && data[offset + n - 1] == data[offset + n - 2] == data[offset + n - 3] == c
                      && m.arena.T().Kind(node.value).Strong?
    ensures n > 0 && m.nesting < m.maxNesting ==> StrongOverEm(m.arena.T(), node.value, data[offset..][..n - 3])
    decreases m.maxNesting - m.nesting, 3
  {
    NothingMade(m);
    hide NotesFit, Markdown.Valid, Made, Entered, Holds, StrongOverEm;
    var rest := data[offset..];
    var i := ScanTriple(rest, c);
    if i == 0 { return 0, None; }
    if i + 2 < |rest| && rest[i + 1] == c && rest[i + 2] == c {
      var strong := StrongEm(m, rest[..i]);
      return i + 3, Some(strong);
    } else if i + 1 < |rest| && rest[i + 1] == c {
      n, node := HelperEmphasis(m, data[offset - 2..], c);
      return;
    } else {
      n, node := HelperDouble(m, data[offset - 1..], c);
      return;
    }
  }

  /** `<strong><em>`. */
  method StrongEm(m: Markdown, text: bytes) returns (strong: NodeId)
    requires Live(m)
    modifies m`nesting, m`insideLink, m`notes, m`books, m.arena, m.handles
    ensures Live(m) && m.nesting == old(m.nesting) && m.insideLink == old(m.insideLink)
    ensures Handled(m, old(m.arena.T()), old(m.books), old(m.notes), Some(strong))
    ensures strong < |m.arena.nodes| && m.arena.T().Kind(strong).Strong?
    ensures m.nesting < m.maxNesting ==> StrongOverEm(m.arena.T(), strong, text)
    decreases m.maxNesting - m.nesting, 1
  {
    hide NotesFit, Markdown.Valid, Grown, Fit, Entered, Made, Laid, Holds;
    ghost var t0, l0 := m.arena.T(), m.books;
    var em;
    strong, em := StrongShell(m);
    ghost var t1, l1 := m.arena.T(), m.books;
    ghost var ps, tail;
    ps, tail := Inline(m, em, text);
    ShellBelow(t0, t1, m.arena.T(), l0, l1, m.books, strong, em);
    if m.nesting < m.maxNesting { NowHolds(t1, m.arena.T(), em, text, ps, tail); }
  }

  lemma ShellBelow(t0: Tree, t1: Tree, t2: Tree, l0: Books, l1: Books, l2: Books, strong: NodeId, em: NodeId)
    requires Made(t0, t1, Some(strong)) && Entered(t0, t1, l0, l1) && |t0.nodes| <= em < |t1.nodes|
    requires Grown(t1, t2, em) && Fit(t1, t2) && Entered(t1, t2, l1, l2)
    ensures Made(t0, t2, Some(strong)) && Entered(t0, t2, l0, l2)
    ensures strong < |t2.nodes| && t2.Kind(strong) == t1.Kind(strong)
    ensures em < |t2.nodes| && t2.Kind(em) == t1.Kind(em)
    ensures strong != em ==> strong < |t2.kids| && strong < |t1.kids| && t2.kids[strong] == t1.kids[strong]
  {
    assert Same(t1, t2, strong) && Same(t1, t2, em);
    GrownBelowNew(t0, t1, t2, em);
    EnteredTrans(t0, t1, t2, l0, l1, l2);
  }

  method StrongShell(m: Markdown) returns (strong: NodeId, em: NodeId)
    requires Live(m)
    modifies m.arena
    ensures Live(m) && Handled(m, old(m.arena.T()), m.books, m.notes, Some(strong))
    ensures |old(m.arena.nodes)| <= em < |m.arena.nodes| && m.arena.T().Kind(em).Emph?
    ensures strong < |m.arena.nodes| && m.arena.T().Kind(strong).Strong? && m.arena.T().Parent(em) == Some(strong)
    ensures strong != em && strong < |m.arena.kids| && em < |m.arena.kids|
            && m.arena.kids[strong] == [em] && m.arena.kids[em] == []
  {
    hide NotesFit, Tree.Valid, EdgesOk, Made, Entered, Tree.Appended, Tree.Unlinked, Tree.Under, WithOne;
    ghost var t0 := m.arena.T();
    strong := NewInline(m, Strong, NoData);
    em := NewInline(m, Emph, NoData);
    ShellHung(t0, m.doc, m.books, m.notes, m.View());
    m.arena.AppendChild(strong, em);
  }

  lemma ShellHung(t0: Tree, doc: NodeId, links: Books, notes: seq<Reference>, view: seq<(nat, Option<NodeId>)>)
    requires t0.Valid() && EdgesOk(t0) && doc < |t0.nodes| && NotesFit(t0, links, notes, view)
    ensures var t2 := WithOne(WithOne(t0, Strong, NoData), Emph, NoData);
            var strong, em := |t0.nodes|, |t0.nodes| + 1;
            && t2.Valid() && |t2.nodes| == em + 1 && !t2.Under(strong, em) && t2.Unlinked(em) == t2
            && var u := t2.Appended(strong, em);
               && u.Valid() && EdgesOk(u) && Made(t0, u, Some(strong)) && Entered(t0, u, links, links)
               && |u.nodes| == em + 1 && NotesFit(u, links, notes, view) && u.Kind(doc) == t0.Kind(doc)
               && u.Kind(strong).Strong? && u.Kind(em).Emph? && u.Parent(em) == Some(strong)
               && |u.kids| == em + 1 && u.kids[strong] == [em] && u.kids[em] == []
  {
    var t1 := WithOne(t0, Strong, NoData);
    var t2 := WithOne(t1, Emph, NoData);
    var strong, em := |t0.nodes|, |t0.nodes| + 1;
    OneSpreads(t0, Strong, NoData);
    OneSpreads(t1, Emph, NoData);
    SpreadTrans(t0, t1, t2);
    HungBelowNew(t0, t2, strong, em);
    var u := t2.Appended(strong, em);
    NotesKept(t0, u, links, notes, view);
    assert Same(t0, u, doc);
    hide Tree.Appended, Tree.Unlinked, Tree.Valid, EdgesOk, WithOne, NotesFit, Tree.Under;
  }

  // ----- links, images and footnotes -----

  function LinkOf(dest: bytes, title: Option<bytes>, noteId: nat, item: Option<NodeId>): Data {
    NoData.(link := LinkData(dest, title, noteId, item))
  }

  method SetInside(m: Markdown, b: bool)
    requires Live(m)
    modifies m`insideLink
    ensures Live(m) && m.insideLink == b
  {
    ghost var view := m.View();
    m.insideLink := b;
    assert m.View() == view;
  }

  /** A link around inlined text; links do not nest, so the flag is up meanwhile. */
  method LinkBelow(m: Markdown, d: Data, text: bytes) returns (id: NodeId)
    requires Live(m) && d.link.noteId == 0 && d.link.destination != []
    modifies m`nesting, m`insideLink, m`notes, m`books, m.arena, m.handles
    ensures Live(m) && m.nesting == old(m.nesting) && m.insideLink == old(m.insideLink)
    ensures Handled(m, old(m.arena.T()), old(m.books), old(m.notes), Some(id))
    ensures id < |m.arena.nodes| && m.arena.T().Kind(id).Link? && m.arena.nodes[id].data == d
    ensures m.nesting < m.maxNesting ==> Holds(m.arena.T(), id, text)
    decreases m.maxNesting - m.nesting, 2
  {
    hide NotesFit, Markdown.Valid, Done, Holds;
    var inside := m.insideLink;
    SetInside(m, true);
    id := InlineBelow(m, NodeType.Link, d, text);
    SetInside(m, inside);
  }

  /** Since `t0` one item was made. */
  ghost predicate NewItemOn(t0: Tree, t: Tree, item: NodeId) {
    t0.Valid() && item == |t0.nodes| && t == WithNode(t0, NodeType.Item)
  }

  /** A detached item for a footnote. */
  method NewItem(m: Markdown) returns (id: NodeId)
    requires Live(m)
    modifies m.arena
    ensures Live(m) && NewItemOn(old(m.arena.T()), m.arena.T(), id) && Astray(old(m.arena.T()), m.books.lost)
    ensures Handled(m, old(m.arena.T()), m.books, m.notes, None)
  {
    ghost var t := m.arena.T();
    WithNodeGrows(t, NodeType.Item);
    ItemSpreads(t, m.books);
    NotesKept(t, WithNode(t, NodeType.Item), m.books, m.notes, m.View());
    hide NotesFit, EdgesOk, Tree.Valid, Spread, Fit, Made, Entered;
    id := m.arena.NewNode(NodeType.Item);
  }

  lemma ItemSpreads(t: Tree, links: Books)
    requires t.Valid() && Astray(t, links.lost)
    ensures Made(t, WithNode(t, NodeType.Item), None) && Entered(t, WithNode(t, NodeType.Item), links, links)
  {
    WithNodeGrows(t, NodeType.Item);
  }

  /** Writes the next number and the new item through the handle, queues it, and makes
      the link that refers to it.  Everyone holding the handle sees the change. */
  method QueueNote(m: Markdown, handle: Reference, item: NodeId, dest: bytes, title: bytes, ghost t0: Tree)
    returns (id: NodeId)
    requires Live(m) && m.ext.footnotes && handle.WellFormed() && NewItemOn(t0, m.arena.T(), item)
             && Astray(t0, m.books.lost)
    modifies m`notes, m`books, m.arena, handle
    ensures Live(m) && m.notes == old(m.notes) + [handle]
    ensures m.books == old(m.books).(links := old(m.books).links + [id])
    ensures handle.noteId == |m.notes| && handle.footnote == Some(item)
    ensures Handled(m, t0, old(m.books), old(m.notes), Some(id))
    ensures id < |m.arena.nodes| && m.arena.T().Kind(id).Link?
    ensures m.arena.nodes[id].data == LinkOf(dest, Some(title), |m.notes|, Some(item))
  {
    ghost var t, books, notes, view := m.arena.T(), m.books, m.notes, m.View();
    var noteId := |m.notes| + 1;
    var d := LinkOf(dest, Some(title), noteId, Some(item));
    OneSpreads(t, NodeType.Link, d);
    OneKeeps(t, NodeType.Link, d, m.doc);
    OneKeeps(t, NodeType.Link, d, item);
    NotesKept(t, WithOne(t, NodeType.Link, d), books, notes, view);
    NextNumber(t0, d, books, item);
    hide NotesFit, EdgesOk, Tree.Valid, Spread, Fit, Made, Entered;
    handle.noteId := noteId;
    handle.footnote := Some(item);
    m.notes := m.notes + [handle];
    id := m.arena.NewNode(NodeType.Link);
    m.arena.SetData(id, d);
    m.books := books.(links := books.links + [id]);
    NotesGrow(m.arena.T(), books, notes, view, handle, item, id, m.View());
  }

  lemma NextNumber(t0: Tree, d: Data, books: Books, item: NodeId)
    requires t0.Valid() && d.link.noteId == |books.links| + 1 && Astray(t0, books.lost)
    requires item == |t0.nodes| && d.link.footnote == Some(item)
    ensures var t := WithNode(t0, NodeType.Item);
            var u := WithOne(t, NodeType.Link, d);
            Made(t0, u, Some(item + 1)) && Entered(t0, u, books, books.(links := books.links + [item + 1]))
  {
    var t := WithNode(t0, NodeType.Item);
    WithNodeGrows(t0, NodeType.Item);
    OneSpreads(t, NodeType.Link, d);
    SpreadTrans(t0, t, WithOne(t, NodeType.Link, d));
    assert GoesSomewhere(Node(NodeType.Link, NoLinks, true, d));
  }

  /** What a bracket resolved to: where it ends, where it goes, and a fixed text. */
  datatype Found = Found(end: nat, dest: bytes, title: Option<bytes>, alt: bytes)

  /** What a bracket with aim `aim` leads to.  A node that goes nowhere is made exactly
      for a footnote mark with an empty target, and it is listed. */
  ghost predicate Answers(t: LinkType, aim: Aim, nodes: seq<Node>, node: Option<NodeId>, lost: seq<NodeId>,
                          lost': seq<NodeId>) {
    && (aim == Nothing ==> node == None)
    && (node.Some? ==> node.value < |nodes|
                       && (GoesSomewhere(nodes[node.value]) <==> !(IsNote(t) && aim == Goes([]))))
    && (IsNote(t) && aim.Goes? ==> node.Some? && MarkedLink(nodes[node.value], aim.dest))
    && (IsNote(t) ==> lost' == if aim == Goes([]) then lost + [node.value] else lost)
  }

  lemma NoAnswer(t: LinkType, nodes: seq<Node>, lost: seq<NodeId>)
    ensures Answers(t, Nothing, nodes, None, lost, lost)
  {
  }

  /** The link a footnote mark before an explicit target makes: it has no number. */
  predicate MarkedLink(n: Node, dest: bytes) {
    n.kind.Link? && n.data.link.destination == dest && n.data.link.noteId == 0
  }

  /** The link for a footnote mark before an explicit target. */
  method MarkLink(m: Markdown, dest: bytes, title: Option<bytes>) returns (id: NodeId)
    requires Live(m) && m.ext.footnotes
    modifies m.arena, m`books
    ensures Live(m) && Handled(m, old(m.arena.T()), old(m.books), m.notes, Some(id))
    ensures id < |m.arena.nodes| && m.arena.nodes[id].kind.Link?
            && m.arena.nodes[id].data == LinkOf(dest, title, 0, None)
    ensures m.books.lost == if dest == [] then old(m.books.lost) + [id] else old(m.books.lost)
  {
    ghost var t, books := m.arena.T(), m.books;
    var d := LinkOf(dest, title, 0, None);
    OneSpreads(t, NodeType.Link, d);
    OneKeeps(t, NodeType.Link, d, m.doc);
    NotesKept(t, WithOne(t, NodeType.Link, d), books, m.notes, m.View());
    MarkEntered(t, d, books, m.notes, m.View());
    hide NotesFit, EdgesOk, Tree.Valid, Spread, Fit, Made, Entered;
    id := m.arena.NewNode(NodeType.Link);
    m.arena.SetData(id, d);
    ghost var view := m.View();
    if dest == [] { m.books := books.(lost := books.lost + [id]); }
    assert m.View() == view;
  }

  lemma MarkEntered(t: Tree, d: Data, books: Books, notes: seq<Reference>, view: seq<(nat, Option<NodeId>)>)
    requires d.link.noteId == 0 && NotesFit(t, books, notes, view)
             && NotesFit(WithOne(t, NodeType.Link, d), books, notes, view)
    ensures var u := WithOne(t, NodeType.Link, d);
            var books' := if d.link.destination == [] then books.(lost := books.lost + [|t.nodes|]) else books;
            Entered(t, u, books, books') && NotesFit(u, books', notes, view)
  {
    var u := WithOne(t, NodeType.Link, d);
    forall k | 0 <= k < |notes| ensures NoteFits(u, books.links, notes, view, k) {}
  }

  /** What stands below a link or an image: an image's text is kept as it is, a link's
      is inlined unless a fixed text replaces it. */
  ghost predicate Labelled(t: Tree, x: NodeId, kind: LinkType, text: bytes, alt: bytes) {
    if kind.Img? then HoldsText(t, x, text) else if alt != [] then HoldsText(t, x, alt) else Holds(t, x, text)
  }

  /** The ordinary link or image, with its label. */
  method Label(m: Markdown, t: LinkType, data: Data, text: bytes, alt: bytes) returns (id: NodeId)
    requires Live(m) && data.link.noteId == 0 && data.link.destination != []
    modifies m`nesting, m`insideLink, m`notes, m`books, m.arena, m.handles
    ensures Live(m) && m.nesting == old(m.nesting) && m.insideLink == old(m.insideLink)
    ensures Handled(m, old(m.arena.T()), old(m.books), old(m.notes), Some(id))
    ensures id < |m.arena.nodes| && m.arena.T().Kind(id) == (if t.Img? then Image else NodeType.Link)
    ensures m.arena.nodes[id].data == data
    ensures m.nesting < m.maxNesting ==> Labelled(m.arena.T(), id, t, text, alt)
    decreases m.maxNesting - m.nesting, 3, 0
  {
    hide NotesFit, Markdown.Valid, Done, Holds, HoldsText;
    if t.Img? {
      id := WithText(m, Image, data, text);
    } else if alt != [] {
      id := WithText(m, NodeType.Link, data, alt);
    } else {
      id := LinkBelow(m, data, text);
    }
  }

  /** The node for a bracket whose target is known.  An ordinary link or image needs
      somewhere to go; a footnote mark takes even an empty target. */
  method Finish(m: Markdown, t: LinkType, d: bytes, txtE: nat, f: Found) returns (n: nat, node: Option<NodeId>)
    requires Live(m) && 0 < txtE < f.end <= |d| && (IsNote(t) ==> m.ext.footnotes)
    modifies m`nesting, m`insideLink, m`notes, m`books, m.arena, m.handles
    ensures Live(m) && m.nesting == old(m.nesting) && m.insideLink == old(m.insideLink)
    ensures Handled(m, old(m.arena.T()), old(m.books), old(m.notes), node)
    ensures n == 0 || n == f.end + (if HasMark(t) then 1 else 0)
    ensures node.Some? == (n > 0)
    ensures node.Some? ==> node.value < |m.arena.nodes|
                           && m.arena.T().Kind(node.value) == (if t.Img? then Image else NodeType.Link)
                           && m.arena.nodes[node.value].data == LinkOf(if IsNote(t) then f.dest else Unescaped(f.dest),
                               f.title, 0, None)
    ensures !IsNote(t) ==> (n > 0 <==> Unescaped(f.dest) != [] && (t.Normal? ==> txtE > 1))
    ensures Answers(t, Goes(f.dest), m.arena.nodes, node, old(m.books.lost), m.books.lost)
    ensures !IsNote(t) && n > 0 && m.nesting < m.maxNesting ==> Labelled(m.arena.T(), node.value, t, d[1..txtE], f.alt)
    decreases m.maxNesting - m.nesting, 3
  {
    NothingMade(m);
    hide NotesFit, Markdown.Valid, Done, Unescaped, Labelled;
    if !IsNote(t) {
      var link := UnescapeText(f.dest);
      if link == [] || (t.Normal? && txtE <= 1) { return 0, None; }
      var id := Label(m, t, LinkOf(link, f.title, 0, None), d[1..txtE], f.alt);
      return if t.Img? then f.end + 1 else f.end, Some(id);
    }
    var id := MarkLink(m, f.dest, f.title);
    return if t.InlineFootnote? then f.end + 1 else f.end, Some(id);
  }

  /** `[…]`, `![…]` and `^[…]`. */
  method Link(m: Markdown, data: bytes, offset: nat) returns (n: nat, node: Option<NodeId>)
    requires Live(m) && OpensBracket(data, offset)
    modifies m`nesting, m`insideLink, m`notes, m`books, m.arena, m.handles
    ensures Live(m) && m.nesting == old(m.nesting) && m.insideLink == old(m.insideLink)
    ensures Handled(m, old(m.arena.T()), old(m.books), old(m.notes), node)
    ensures offset + n <= |data| && node.Some? == (n > 0)
    ensures Nested(old(m.insideLink), data, offset) ==> node == None && m.books == old(m.books)
    ensures var t := KindOf(m.ext.footnotes, data, offset);
            !Nested(old(m.insideLink), data, offset) ==>
              Answers(t, AimOf(m.uni, old(m.refs), t, BracketText(m.ext.footnotes, data, offset)), m.arena.nodes, node,
                      old(m.books.lost), m.books.lost)
    ensures offset == 0 && CitesNote(m.ext.footnotes, old(m.insideLink), m.uni, old(m.refs), data) ==>
              |m.notes| > |old(m.notes)|
    decreases m.maxNesting - m.nesting, 6
  {
    hide NotesFit, Markdown.Valid, Made, Entered, AimOf, Answers, NamesNote;
    CitedBracket(m.ext.footnotes, data);
    hide BracketText, KindOf;
    NothingMade(m);
    if Nested(m.insideLink, data, offset) { return 0, None; }
    var t := KindOf(m.ext.footnotes, data, offset);
    KindNeedsFootnotes(m.ext.footnotes, data, offset);
    var d := BracketText(m.ext.footnotes, data, offset);
    n, node := Bracketed(m, t, d);
  }

  lemma CitedBracket(footnotes: bool, data: bytes)
    ensures footnotes && |data| >= 2 && data[0] == '[' && data[1] == '^' ==>
              KindOf(footnotes, data, 0) == DeferredFootnote && BracketText(footnotes, data, 0) == data
  {
  }

  lemma KindNeedsFootnotes(footnotes: bool, data: bytes, offset: nat)
    requires OpensBracket(data, offset)
    ensures IsNote(KindOf(footnotes, data, offset)) ==> footnotes
    ensures var d := BracketText(footnotes, data, offset);
            TextStart(KindOf(footnotes, data, offset)) <= |d|
            && offset + |d| + (if HasMark(KindOf(footnotes, data, offset)) then 1 else 0) == |data|
  {
  }

  /** The end of the bracket, and where what follows it starts. */
  method ScanBracket(uni: Unicode, ghost refs: map<bytes, Reference>, t: LinkType, d: bytes)
    returns (end: nat, newline: bool, i: nat)
    requires TextStart(t) <= |d|
    ensures TextStart(t) <= end <= |d| && (end < |d| ==> end < i <= |d|)
    ensures AimOf(uni, refs, t, d) == if end >= |d| then Nothing else AimAt(uni, refs, t, d, end, newline, i)
    ensures end == BracketEnd(d, TextStart(t), 1) && (end < |d| ==> newline == ('\n' in d[TextStart(t)..end]))
  {
    hide BracketEnd, Skip, AimAt;
    end, newline := MatchBracket(d, TextStart(t));
    i := end;
    if end < |d| { i := SkipSpaces(d, end + 1); }
  }

  /** A bracket, from the bracket on. */
  method Bracketed(m: Markdown, t: LinkType, d: bytes) returns (n: nat, node: Option<NodeId>)
    requires Live(m) && TextStart(t) <= |d| && (IsNote(t) ==> m.ext.footnotes)
    modifies m`nesting, m`insideLink, m`notes, m`books, m.arena, m.handles
    ensures Live(m) && m.nesting == old(m.nesting) && m.insideLink == old(m.insideLink)
    ensures Handled(m, old(m.arena.T()), old(m.books), old(m.notes), node)
    ensures n <= |d| + (if HasMark(t) then 1 else 0) && node.Some? == (n > 0)
    ensures Answers(t, AimOf(m.uni, old(m.refs), t, d), m.arena.nodes, node, old(m.books.lost), m.books.lost)
    ensures t.DeferredFootnote? && NamesNote(m.uni, old(m.refs), d) ==> |m.notes| > |old(m.notes)|
    decreases m.maxNesting - m.nesting, 5, 2
  {
    NothingMade(m);
    hide NotesFit, Markdown.Valid, AimOf, AimAt, Answers, Handled, NoteId, BracketEnd;
    NoAnswer(t, m.arena.nodes, m.books.lost);
    var end, newline, i := ScanBracket(m.uni, m.refs, t, d);
    if end >= |d| { return 0, None; }
    n, node := AfterBracket(m, t, d, end, newline, i);
  }

  /** What follows the bracket decides. */
  method AfterBracket(m: Markdown, t: LinkType, d: bytes, end: nat, newline: bool, i: nat)
    returns (n: nat, node: Option<NodeId>)
    requires Live(m) && TextStart(t) <= end < i <= |d| && (IsNote(t) ==> m.ext.footnotes)
    modifies m`nesting, m`insideLink, m`notes, m`books, m.arena, m.handles
    ensures Live(m) && m.nesting == old(m.nesting) && m.insideLink == old(m.insideLink)
    ensures Handled(m, old(m.arena.T()), old(m.books), old(m.notes), node)
    ensures n <= |d| + (if HasMark(t) then 1 else 0) && node.Some? == (n > 0)
    ensures Answers(t, AimAt(m.uni, old(m.refs), t, d, end, newline, i), m.arena.nodes, node, old(m.books.lost),
            m.books.lost)
    ensures (t.DeferredFootnote? && AimAt(m.uni, old(m.refs), t, d, end, newline, i) == Own
             && m.uni.lower(NoteId(d, end, newline)) in old(m.refs)) ==> |m.notes| > |old(m.notes)|
    decreases m.maxNesting - m.nesting, 5, 1
  {
    hide NotesFit, Markdown.Valid, DestAt, Handled, Answers, IdOf, Lookup, NoteId;
    if i < |d| && d[i] == '(' {
      n, node := Explicit(m, t, d, end, i);
    } else if !t.DeferredFootnote? && i + 1 < |d| && d[i] == '[' && d[i + 1] != '^' {
      n, node := ByReference(m, t, d, end, newline, i);
    } else {
      n, node := Shortcut(m, t, d, end, newline);
    }
  }

  /** No links inside links, and no footnotes there either. */
  predicate Nested(inside: bool, data: bytes, offset: nat)
    requires offset < |data|
  {
    inside && ((offset > 0 && data[offset - 1] == '[') || (offset + 1 < |data| && data[offset + 1] == '^'))
  }

  lemma TargetInRange(d: bytes, i: nat)
    requires i < |d| && d[i] == '('
    ensures TargetAt(d, i).Some? ==> i + 1 < TargetAt(d, i).value.end <= |d|
  {
  }

  /** `[text](target)`. */
  method Explicit(m: Markdown, t: LinkType, d: bytes, txtE: nat, i: nat) returns (n: nat, node: Option<NodeId>)
    requires Live(m) && 0 < txtE < i < |d| && d[i] == '(' && (IsNote(t) ==> m.ext.footnotes)
    modifies m`nesting, m`insideLink, m`notes, m`books, m.arena, m.handles
    ensures Live(m) && m.nesting == old(m.nesting) && m.insideLink == old(m.insideLink)
    ensures Handled(m, old(m.arena.T()), old(m.books), old(m.notes), node)
    ensures n <= |d| + (if HasMark(t) then 1 else 0) && node.Some? == (n > 0)
    ensures Answers(t, match DestAt(d, i) case Some(x) => Goes(x) case None => Nothing, m.arena.nodes, node,
                    old(m.books.lost), m.books.lost)
    decreases m.maxNesting - m.nesting, 4
  {
    NothingMade(m);
    hide NotesFit, Markdown.Valid, Handled, Answers, Unescaped, TargetAt;
    NoAnswer(t, m.arena.nodes, m.books.lost);
    TargetInRange(d, i);
    var r := ScanTarget(d, i);
    if r == None { return 0, None; }
    n, node := Finish(m, t, d, txtE, Found(r.value.end, r.value.dest, r.value.title, []));
  }

  /** `[text][id]`; an empty id is the text itself. */
  method ByReference(m: Markdown, t: LinkType, d: bytes, txtE: nat, newline: bool, at: nat)
    returns (n: nat, node: Option<NodeId>)
    requires Live(m) && 0 < txtE < at && at + 1 < |d| && d[at] == '[' && (IsNote(t) ==> m.ext.footnotes)
    modifies m`nesting, m`insideLink, m`notes, m`books, m.arena, m.handles
    ensures Live(m) && m.nesting == old(m.nesting) && m.insideLink == old(m.insideLink)
    ensures Handled(m, old(m.arena.T()), old(m.books), old(m.notes), node)
    ensures n <= |d| + (if HasMark(t) then 1 else 0) && node.Some? == (n > 0)
    ensures Answers(t, Lookup(m.uni, old(m.refs), IdOf(d, txtE, newline, at)), m.arena.nodes, node, old(m.books.lost),
            m.books.lost)
    decreases m.maxNesting - m.nesting, 4
  {
    NothingMade(m);
    hide NotesFit, Markdown.Valid, Handled, Answers, IdOf;
    NoAnswer(t, m.arena.nodes, m.books.lost);
    var id, end, alt := ScanId(d, txtE, newline, at);
    if id == None { return 0, None; }
    var key := m.uni.lower(id.value);
    if key !in m.refs { return 0, None; }
    var r := m.refs[key];
    n, node := Finish(m, t, d, txtE, Found(end + 1, r.link, Some(r.title), if alt then r.text else []));
  }

  /** The id in a second bracket; `alt` says that it is the text of the first. */
  method ScanId(d: bytes, txtE: nat, newline: bool, at: nat) returns (id: Option<bytes>, end: nat, alt: bool)
    requires 0 < txtE < at < |d|
    ensures id == IdOf(d, txtE, newline, at) && (id.Some? ==> at < end < |d|)
  {
    hide Skip, Collapsed;
    alt := false;
    end := BlockScan.SkipUntilChar(d, at + 1, ']');
    if end >= |d| { return None, end, false; }
    id := Some(d[at + 1..end]);
    if at + 1 == end {
      if newline {
        var text := CollapseNewlines(d, txtE, 1);
        id := Some(text);
      } else {
        id, alt := Some(d[1..txtE]), true;
      }
    }
  }

  /** A bracket alone: a shortcut reference, or a footnote. */
  method Shortcut(m: Markdown, t: LinkType, d: bytes, txtE: nat, newline: bool) returns (n: nat, node: Option<NodeId>)
    requires Live(m) && 0 < txtE < |d| && (t.DeferredFootnote? ==> txtE >= 2) && (IsNote(t) ==> m.ext.footnotes)
    modifies m`nesting, m`insideLink, m`notes, m`books, m.arena, m.handles
    ensures Live(m) && m.nesting == old(m.nesting) && m.insideLink == old(m.insideLink)
    ensures Handled(m, old(m.arena.T()), old(m.books), old(m.notes), node)
    ensures n <= |d| + (if HasMark(t) then 1 else 0) && node.Some? == (n > 0)
    ensures Answers(t, Own, m.arena.nodes, node, old(m.books.lost), m.books.lost)
    ensures t.DeferredFootnote? && m.uni.lower(NoteId(d, txtE, newline)) in old(m.refs) ==> |m.notes| > |old(m.notes)|
    decreases m.maxNesting - m.nesting, 5, 0
  {
    hide NotesFit, Markdown.Valid, Done, Collapsed, GoesSomewhere;
    var id := ShortcutId(t, d, txtE, newline);
    ghost var t0, l0, n0 := m.arena.T(), m.books, m.notes;
    var item := NewItem(m);
    ghost var t1 := m.arena.T();
    if t.InlineFootnote? {
      node := InlineNote(m, id, item, t0);
      n := txtE + 2;
    } else if t.DeferredFootnote? {
      node := DeferredNote(m, id, item, t0);
      n := if node == None then 0 else txtE + 1;
    } else {
      n, node := ShortcutLink(m, t, d, txtE, id);
      TwoSteps(m, t0, t1, l0, l0, n0, n0, node);
    }
  }

  method ShortcutId(t: LinkType, d: bytes, txtE: nat, newline: bool) returns (id: bytes)
    requires TextStart(t) <= txtE < |d|
    ensures id == if newline then Collapsed(d, 1, txtE) else d[TextStart(t)..txtE]
  {
    id := d[if t.DeferredFootnote? then 2 else 1..txtE];
    if newline { id := CollapseNewlines(d, txtE, 1); }
  }

  /** A footnote written where it is used: a fresh reference, queued once. */
  method InlineNote(m: Markdown, id: bytes, item: NodeId, ghost t0: Tree) returns (node: Option<NodeId>)
    requires Live(m) && m.ext.footnotes && NewItemOn(t0, m.arena.T(), item) && Astray(t0, m.books.lost)
    requires Handled(m, t0, m.books, m.notes, None)
    modifies m`notes, m`books, m.arena
    ensures Live(m) && m.nesting == old(m.nesting) && m.insideLink == old(m.insideLink)
    ensures Handled(m, t0, old(m.books), old(m.notes), node)
    ensures node.Some? && |m.notes| == |old(m.notes)| + 1
    ensures node.value < |m.arena.nodes| && GoesSomewhere(m.arena.nodes[node.value])
            && m.books.lost == old(m.books.lost)
    ensures fresh(m.notes[|m.notes| - 1]) && m.notes[|m.notes| - 1].title == id && !m.notes[|m.notes| - 1].hasBlock
  {
    hide NotesFit, Markdown.Valid, Made, Entered;
    var noteId := |m.notes| + 1;
    var r := new Reference(Fragment(id, "footnote-" + HeadingIds.Decimal(noteId)), id, noteId, false, Some(item));
    var link := QueueNote(m, r, item, r.link, r.title, t0);
    node := Some(link);
  }

  /** A reference to a footnote defined elsewhere: its handle is queued again. */
  method DeferredNote(m: Markdown, id: bytes, item: NodeId, ghost t0: Tree) returns (node: Option<NodeId>)
    requires Live(m) && m.ext.footnotes && NewItemOn(t0, m.arena.T(), item) && Astray(t0, m.books.lost)
    requires Handled(m, t0, m.books, m.notes, None)
    modifies m`notes, m`books, m.arena, m.handles
    ensures Live(m) && m.nesting == old(m.nesting) && m.insideLink == old(m.insideLink)
    ensures Handled(m, t0, old(m.books), old(m.notes), node)
    ensures node.Some? <==> m.uni.lower(id) in m.refs
    ensures node.Some? ==> node.value < |m.arena.nodes| && GoesSomewhere(m.arena.nodes[node.value])
    ensures m.books.lost == old(m.books.lost)
    ensures m.notes == if node.Some? then old(m.notes) + [m.refs[m.uni.lower(id)]] else old(m.notes)
  {
    hide NotesFit, Made, Entered, EdgesOk, Tree.Valid;
    var key := m.uni.lower(id);
    if key !in m.refs { return None; }
    var r := m.refs[key];
    var link := QueueNote(m, r, item, r.link, r.title, t0);
    node := Some(link);
  }

  /** `[text]` alone, as a reference by its own text. */
  method ShortcutLink(m: Markdown, t: LinkType, d: bytes, txtE: nat, id: bytes) returns (n: nat, node: Option<NodeId>)
    requires Live(m) && 0 < txtE < |d| && (t.Normal? || t.Img?)
    modifies m`nesting, m`insideLink, m`notes, m`books, m.arena, m.handles
    ensures Live(m) && m.nesting == old(m.nesting) && m.insideLink == old(m.insideLink)
    ensures Handled(m, old(m.arena.T()), old(m.books), old(m.notes), node)
    ensures n <= |d| + (if HasMark(t) then 1 else 0) && node.Some? == (n > 0)
    ensures node.Some? ==> node.value < |m.arena.nodes| && GoesSomewhere(m.arena.nodes[node.value])
    decreases m.maxNesting - m.nesting, 4
  {
    NothingMade(m);
    hide NotesFit, Markdown.Valid, Made, Entered;
    var key := m.uni.lower(id);
    if key !in m.refs { return 0, None; }
    var r := m.refs[key];
    n, node := Finish(m, t, d, txtE, Found(txtE + 1, r.link, Some(r.title), []));
  }

  /** A handler's work in two steps. */
  lemma TwoSteps(m: Markdown, t0: Tree, t1: Tree, l0: Books, l1: Books, n0: seq<Reference>,
                                   n1: seq<Reference>, node: Option<NodeId>)
    requires Done(m.ext.footnotes, t0, t1, l0, l1, n0, n1, None)
    requires Handled(m, t1, l1, n1, node)
    ensures Handled(m, t0, l0, n0, node)
    ensures node.Some? ==> node.value < |m.arena.nodes|
  {
    SpreadTrans(t0, t1, m.arena.T());
    EnteredTrans(t0, t1, m.arena.T(), l0, l1, m.books);
  }

  // ----- dispatch -----

  datatype Handler = LineEndSpace | Stress | Tick | Newline | Bracket | Angle | Backslash | Ampersand | Mark | Letter

  /** The handler registered for a byte. */
  function HandlerFor(ext: Extensions, c: byte): Option<Handler> {
    match c
    case ' ' => Some(LineEndSpace)
    case '*' => Some(Stress)
    case '_' => Some(Stress)
    case '~' => if ext.strikethrough then Some(Stress) else None
    case '`' => Some(Tick)
    case '\n' => Some(Newline)
    case '[' => Some(Bracket)
    case '<' => Some(Angle)
    case '\\' => Some(Backslash)
    case '&' => Some(Ampersand)
    case '!' => Some(Mark)
    case '^' => Some(Mark)
    case _ =>
      if ext.autolink
          && (c == 'h' || c == 'm' || c == 'f' || c == 'H' || c == 'M' || c == 'F') then Some(Letter) else None
  }

  predicate Suits(h: Handler, c: byte) {
    match h
    case LineEndSpace => c == ' '
    case Stress => c == '*' || c == '_' || c == '~'
    case Tick => c == '`'
    case Newline => c == '\n'
    case Bracket => c == '['
    case Angle => c == '<'
    case Backslash => c == '\\'
    case Ampersand => c == '&'
    case Mark => c == '!' || c == '^'
    case Letter => IsLetter(c)
  }

  lemma HandlerSuits(ext: Extensions, c: byte)
    ensures HandlerFor(ext, c).Some? ==> Suits(HandlerFor(ext, c).value, c)
  {
  }

  lemma TailAt(data: bytes, at: nat)
    requires at < |data|
    ensures data[at..] != [] && data[at..][0] == data[at] && |data[at..]| == |data| - at
  {
  }

  /** Runs the handler registered for the byte, if there is one.  What it takes lies
      within the data, except that a backslash at the very end takes two bytes. */
  method Handle(m: Markdown, data: bytes, at: nat) returns (n: nat, node: Option<NodeId>)
    requires Live(m) && at < |data|
    modifies m`nesting, m`insideLink, m`notes, m`books, m.arena, m.handles
    ensures Live(m) && m.nesting == old(m.nesting) && m.insideLink == old(m.insideLink)
    ensures Handled(m, old(m.arena.T()), old(m.books), old(m.notes), node)
    ensures at + n <= |data| || (n == 2 && at == |data| - 1 && data[at] == '\\')
    ensures n > 0 && node == None ==> Invisible(data, at, n)
    ensures n > 0 ==> HandlerFor(m.ext, data[at]).Some?
    ensures at == 0 && CitesNote(m.ext.footnotes, old(m.insideLink), m.uni, old(m.refs), data) ==>
              |m.notes| > |old(m.notes)|
    decreases m.maxNesting - m.nesting, 8
  {
    NothingMade(m);
    HandlerSuits(m.ext, data[at]);
    TailAt(data, at);
    BracketHandled(m.ext);
    hide NotesFit, Markdown.Valid, Made, Entered, HandlerFor, AimOf, Answers, BracketText, EntitySize, SpanAt, Skip,
         NamesNote;
    var h := HandlerFor(m.ext, data[at]);
    if h == None { return 0, None; }
    match h.value
    case LineEndSpace => n, node := MaybeLineBreak(m, data, at);
    case Stress => n, node := Emphasis(m, data[at..]);
    case Tick => n, node := CodeSpan(m, data[at..]);
    case Newline => n, node := LineBreak(m);
    case Bracket => n, node := Link(m, data, at);
    case Angle => n, node := LeftAngle(m, data[at..]);
    case Backslash => n, node := InlineLeaf.Escape(m, data[at..]);
    case Ampersand => n, node := Entity(m, data[at..]);
    case Mark => n, node := Marked(m, data, at);
    case Letter => n, node := MaybeAutoLink(m, data, at);
  }

  lemma BracketHandled(ext: Extensions)
    ensures HandlerFor(ext, '[') == Some(Bracket)
  {
  }

  /** `!` and `^` count only before a bracket. */
  method Marked(m: Markdown, data: bytes, at: nat) returns (n: nat, node: Option<NodeId>)
    requires Live(m) && at < |data| && (data[at] == '!' || data[at] == '^')
    modifies m`nesting, m`insideLink, m`notes, m`books, m.arena, m.handles
    ensures Live(m) && m.nesting == old(m.nesting) && m.insideLink == old(m.insideLink)
    ensures Handled(m, old(m.arena.T()), old(m.books), old(m.notes), node)
    ensures at + n <= |data| && node.Some? == (n > 0)
    decreases m.maxNesting - m.nesting, 7
  {
    NothingMade(m);
    hide NotesFit, Markdown.Valid, Made, Entered, AimOf, Answers, BracketText;
    n, node := 0, None;
    if at + 1 < |data| && data[at + 1] == '[' { n, node := Link(m, data, at); }
  }

  // ----- two marks that go nowhere -----

  /** `^[a]()` makes a link without a number and without a destination. */
  method MarkWithEmptyParentheses(m: Markdown) returns (node: NodeId)
    requires Live(m) && m.ext.footnotes && !m.insideLink
    modifies m`nesting, m`insideLink, m`notes, m`books, m.arena, m.handles
    ensures node < |m.arena.nodes| && MarkedLink(m.arena.nodes[node], "") && !GoesSomewhere(m.arena.nodes[node])
    ensures m.books.lost == old(m.books.lost) + [node]
  {
    assert "^[a]()"[1..] == "[a]()";
    LinkAim.EmptyTarget(m.uni, m.refs, InlineFootnote);
    hide AimOf, Handled, Live;
    var n, id := Link(m, "^[a]()", 0);
    node := id.value;
  }

  /** `^[x][id]` does the same when the definition of `id` has an empty link. */
  method MarkWithEmptyReference(m: Markdown) returns (node: NodeId)
    requires Live(m) && m.ext.footnotes && !m.insideLink
    requires m.uni.lower("id") in m.refs && m.refs[m.uni.lower("id")].link == ""
    modifies m`nesting, m`insideLink, m`notes, m`books, m.arena, m.handles
    ensures node < |m.arena.nodes| && MarkedLink(m.arena.nodes[node], "") && !GoesSomewhere(m.arena.nodes[node])
    ensures m.books.lost == old(m.books.lost) + [node]
  {
    hide AimOf, Handled, Live, Markdown.Valid, NamesNote;
    assert "^[x][id]"[1..] == "[x][id]";
    LinkAim.ReferenceTarget(m.uni, m.refs, InlineFootnote);
    var n, id := Link(m, "^[x][id]", 0);
    node := id.value;
  }
}
