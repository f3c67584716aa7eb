/** Inline handlers that do not recurse (src/inline.rs). */
module InlineLeaf {
  import opened Bytes
  import opened Node
  import opened Growth
  import opened MD = Markdown
  import opened InlineTree
  import opened InlineScan
  import HtmlBlock
  import Shape

  function LiteralOf(s: bytes): Data { NoData.(literal := s) }

  method TextNode(m: Markdown, s: bytes) returns (id: NodeId)
    requires Live(m)
    modifies m.arena
    ensures Live(m) && id == |old(m.arena.nodes)| && |m.arena.nodes| == id + 1
    ensures m.arena.T() == WithOne(old(m.arena.T()), NodeType.Text, LiteralOf(s))
    ensures Handled(m, old(m.arena.T()), m.books, m.notes, Some(id))
    ensures m.arena.nodes[id].data == LiteralOf(s) && m.arena.T().Kind(id).Text?
  {
    id := NewInline(m, NodeType.Text, LiteralOf(s));
  }

  /** The handler found nothing and changed nothing. */
  lemma NothingMade(m: Markdown)
    requires Live(m)
    ensures Handled(m, m.arena.T(), m.books, m.notes, None)
  {
    SpreadRefl(m.arena.T());
  }

  // ----- code spans -----

  function Ticks(data: bytes): nat { Skip(data, 0, IsTick()) }

  function IsTick(): byte -> bool { c => c == '`' }

  /** End of the closing run: the first `n` ticks in a row at or after `end`, `run` of
      which have been passed; the end of the data if there is none. */
  function ClosingRun(data: bytes, end: nat, run: nat, n: nat): (r: (nat, nat))
    requires run <= end <= |data| && run <= n
    ensures end <= r.0 <= |data| && r.1 <= n && r.1 <= r.0
    decreases |data| - end
  {
    if end < |data| && run < n then ClosingRun(data, end + 1, if data[end] == '`' then run + 1 else 0, n)
    else (end, run)
  }

  /** A complete run: `n` ticks, all after the opening ones. */
  lemma {:induction false} RunIsTicks(data: bytes, end: nat, run: nat, n: nat)
    requires run <= end <= |data| && run <= n && forall k :: end - run <= k < end ==> data[k] == '`'
    ensures var (e, r) := ClosingRun(data, end, run, n);
            (forall k :: e - r <= k < e ==> data[k] == '`') && e - r >= end - run && (r < n ==> e == |data|)
    decreases |data| - end
  {
    if end < |data| && run < n {
      RunIsTicks(data, end + 1, if data[end] == '`' then run + 1 else 0, n);
    }
  }

  /** A run of `t` ticks that ends at `e`. */
  predicate TicksAt(data: bytes, e: nat, t: nat) {
    t <= e <= |data| && forall k :: e - t <= k < e ==> data[k] == '`'
  }

  /** The closing run is the first one of `n` ticks after the opening ones. */
  lemma {:induction false} FirstRun(data: bytes, beg: nat, end: nat, run: nat, n: nat)
    requires beg + run <= end <= |data| && run <= n && forall k :: end - run <= k < end ==> data[k] == '`'
    requires run < n ==> beg + run == end || data[end - run - 1] != '`'
    requires forall e :: beg + n <= e < end ==> !TicksAt(data, e, n)
    ensures var (last, r) := ClosingRun(data, end, run, n);
            forall e :: beg + n <= e <= last && (e < last || r < n) ==> !TicksAt(data, e, n)
    decreases |data| - end
  {
    if run < n {
      NotYet(data, beg, end, run, n);
      if end < |data| { FirstRun(data, beg, end + 1, if data[end] == '`' then run + 1 else 0, n); }
    }
  }

  lemma NotYet(data: bytes, beg: nat, end: nat, run: nat, n: nat)
    requires beg + run <= end <= |data| && run < n
    requires beg + run == end || data[end - run - 1] != '`'
    ensures beg + n <= end ==> !TicksAt(data, end, n)
  {
  }

  /** A code span: the opening run of ticks, the text, and the first run after it that is
      as long; the text loses its outer spaces. */
  predicate SpanAt(data: bytes, n: nat, literal: bytes) {
    var t := Ticks(data);
    && 0 < t && 2 * t <= n <= |data|
    && (forall k :: n - t <= k < n ==> data[k] == '`')
    && (forall e :: 2 * t <= e < n ==> !TicksAt(data, e, t))
    && (exists a, b :: t <= a <= b <= n && literal == data[a..b]
          && (forall k :: t <= k < a ==> data[k] == ' ')
          && (forall k :: b <= k < n ==> data[k] == ' ' || (k >= n - t && data[k] == '`'))
          && (a < b ==> data[a] != ' ' && data[b - 1] != ' '))
  }

  method ScanTicks(data: bytes) returns (nb: nat, end: nat, run: nat)
    ensures nb == Ticks(data) && (end, run) == ClosingRun(data, nb, 0, nb)
  {
    nb := 0;
    while nb < |data| && data[nb] == '`'
      invariant nb <= |data| && Skip(data, nb, IsTick()) == Ticks(data)
    {
      nb := nb + 1;
    }
    end, run := nb, 0;
    while end < |data| && run < nb
      invariant nb <= end <= |data| && run <= nb && run <= end
          && ClosingRun(data, end, run, nb) == ClosingRun(data, nb, 0, nb)
    {
      if data[end] == '`' { run := run + 1; } else { run := 0; }
      end := end + 1;
    }
  }

  method CodeSpan(m: Markdown, data: bytes) returns (n: nat, node: Option<NodeId>)
    requires Live(m) && data != [] && data[0] == '`'
    modifies m.arena
    ensures Live(m) && Handled(m, old(m.arena.T()), m.books, m.notes, node)
    ensures n <= |data| && (n == 0 ==> node == None)
    ensures n == 0 <==> forall e :: 2 * Ticks(data) <= e <= |data| ==> !TicksAt(data, e, Ticks(data))
    ensures n > 0 && node.Some? ==>
              m.arena.T().Kind(node.value).Code? && SpanAt(data, n, m.arena.nodes[node.value].data.literal)
    ensures n > 0 && node == None ==> SpanAt(data, n, "")
  {
    NothingMade(m);
    var nb, end, run := ScanTicks(data);
    RunIsTicks(data, nb, 0, nb);
    FirstRun(data, nb, nb, 0, nb);
    assert run == nb ==> TicksAt(data, end, nb);
    if run < nb && end >= |data| { return 0, None; }
    var a, b := ScanTrim(data, nb, end - nb, end);
    SpanOf(data, nb, end, a, b);
    n, node := end, None;
    if a != b {
      var code := NewInline(m, NodeType.Code, LiteralOf(data[a..b]));
      node := Some(code);
    }
  }

  /** The text between the runs without its outer spaces.  The closing run stops the
      first scan. */
  method ScanTrim(data: bytes, beg: nat, last: nat, end: nat) returns (a: nat, b: nat)
    requires beg <= last < end <= |data| && data[last] == '`'
    ensures beg <= a <= b <= last
    ensures (forall k :: beg <= k < a ==> data[k] == ' ') && (forall k :: b <= k < last ==> data[k] == ' ')
    ensures a < b ==> data[a] != ' ' && data[b - 1] != ' '
  {
    a, b := beg, last;
    while a < end && data[a] == ' '
      invariant beg <= a <= last && forall k :: beg <= k < a ==> data[k] == ' '
    {
      a := a + 1;
    }
    while b > a && data[b - 1] == ' '
      invariant a <= b <= last && forall k :: b <= k < last ==> data[k] == ' '
    {
      b := b - 1;
    }
  }

  lemma SpanOf(data: bytes, nb: nat, end: nat, a: nat, b: nat)
    requires 0 < nb == Ticks(data) && 2 * nb <= end <= |data| && nb <= a <= b <= end - nb
    requires forall k :: end - nb <= k < end ==> data[k] == '`'
    requires (forall k :: nb <= k < a ==> data[k] == ' ') && (forall k :: b <= k < end - nb ==> data[k] == ' ')
    requires a < b ==> data[a] != ' ' && data[b - 1] != ' '
    requires forall e :: 2 * nb <= e < end ==> !TicksAt(data, e, nb)
    ensures SpanAt(data, end, data[a..b])
    ensures a == b ==> data[a..b] == ""
  {
  }

  // ----- line breaks -----

  function IsSpaceChar(): byte -> bool { c => c == ' ' }

  /** Two spaces before a newline are a break; a single one just disappears. */
  method MaybeLineBreak(m: Markdown, data: bytes, offset: nat) returns (n: nat, node: Option<NodeId>)
    requires Live(m) && offset < |data| && data[offset] == ' '
    modifies m.arena
    ensures Live(m) && Handled(m, old(m.arena.T()), m.books, m.notes, node)
    ensures var spaces := Skip(data, offset, IsSpaceChar()) - offset;
            if offset + spaces == |data| || data[offset + spaces] != '\n' then n == 0 && node == None
            else if spaces >= 2 then n == spaces + 1 && node.Some? && m.arena.T().Kind(node.value).Hardbreak?
            else n == 1 && node == None
    ensures offset + n <= |data|
  {
    NothingMade(m);
    var end := offset;
    while end < |data| && data[end] == ' '
      invariant offset <= end <= |data| && Skip(data, end, IsSpaceChar()) == Skip(data, offset, IsSpaceChar())
    {
      end := end + 1;
    }
    n, node := 0, None;
    if end < |data| && data[end] == '\n' {
      n := end - offset;
      if n >= 2 {
        var br := NewInline(m, Hardbreak, NoData);
        n, node := n + 1, Some(br);
      }
    }
  }

  method LineBreak(m: Markdown) returns (n: nat, node: Option<NodeId>)
    requires Live(m)
    modifies m.arena
    ensures Live(m) && Handled(m, old(m.arena.T()), m.books, m.notes, node)
    ensures if m.ext.hardLineBreak then n == 1 && node.Some? && m.arena.T().Kind(node.value).Hardbreak?
            else n == 0 && node == None
  {
    NothingMade(m);
    n, node := 0, None;
    if m.ext.hardLineBreak {
      var br := NewInline(m, Hardbreak, NoData);
      n, node := 1, Some(br);
    }
  }

  // ----- escapes and entities -----

  /** A backslash escape.  A lone backslash at the end reports a byte that is not
      there. */
  method Escape(m: Markdown, data: bytes) returns (n: nat, node: Option<NodeId>)
    requires Live(m) && data != [] && data[0] == '\\'
    modifies m.arena
    ensures Live(m) && Handled(m, old(m.arena.T()), m.books, m.notes, node)
    ensures |data| == 1 ==> n == 2 && node == None
    ensures |data| > 1 ==> n == 0 || n == 2
    ensures n == 0 ==> node == None
    ensures |data| > 1 && n == 2 ==>
              node.Some?
              && (if m.ext.backslashLineBreak && data[1] == '\n' then m.arena.T().Kind(node.value).Hardbreak?
                  else data[1] in Punctuation && m.arena.T().Kind(node.value).Text?
                       && m.arena.nodes[node.value].data.literal == [data[1]])
  {
    NothingMade(m);
    if |data| > 1 {
      if m.ext.backslashLineBreak && data[1] == '\n' {
        var br := NewInline(m, Hardbreak, NoData);
        return 2, Some(br);
      }
      if data[1] !in Punctuation { return 0, None; }
      var t := TextNode(m, data[1..2]);
      return 2, Some(t);
    }
    return 2, None;
  }

  /** A character reference: `&`, an optional `#`, letters and digits, a semicolon. */
  function EntitySize(data: bytes): (n: nat)
    requires data != []
    ensures n <= |data| && (n > 0 ==> n >= 2 && data[n - 1] == ';')
  {
    var beg := if |data| > 1 && data[1] == '#' then 2 else 1;
    var end := Skip(data, beg, IsAlnum);
    if end < |data| && data[end] == ';' then end + 1 else 0
  }

  /** Kept as written, but for `&amp;`, which becomes a bare ampersand. */
  method Entity(m: Markdown, data: bytes) returns (n: nat, node: Option<NodeId>)
    requires Live(m) && data != [] && data[0] == '&'
    modifies m.arena
    ensures Live(m) && Handled(m, old(m.arena.T()), m.books, m.notes, node)
    ensures n == EntitySize(data) && node.Some? == (n > 0)
    ensures n > 0 ==> m.arena.T().Kind(node.value).Text?
                      && m.arena.nodes[node.value].data.literal == if data[..n] == "&amp;" then "&" else data[..n]
  {
    NothingMade(m);
    var end := 1;
    if end < |data| && data[end] == '#' { end := end + 1; }
    ghost var beg := end;
    while end < |data| && IsAlnum(data[end])
      invariant beg <= end <= |data| && Skip(data, end, IsAlnum) == Skip(data, beg, IsAlnum)
    {
      end := end + 1;
    }
    if end < |data| && data[end] == ';' {
      end := end + 1;
    } else {
      return 0, None;
    }
    var t := TextNode(m, if data[..end] == "&amp;" then "&" else data[..end]);
    return end, Some(t);
  }

  // ----- tags and autolinks -----

  /** One piece of text is all a node holds. */
  ghost predicate HoldsText(t: Tree, id: NodeId, text: bytes) {
    && id < |t.kids| && |t.kids[id]| == 1 && t.kids[id][0] < |t.nodes|
    && t.Kind(t.kids[id][0]).Text? && t.nodes[t.kids[id][0]].data.literal == text
  }

  /** A link node with one piece of text in it. */
  method LinkWithText(m: Markdown, d: Data, text: bytes) returns (id: NodeId)
    requires Live(m) && d.link.destination != [] && d.link.noteId == 0
    modifies m.arena
    ensures Live(m) && Handled(m, old(m.arena.T()), m.books, m.notes, Some(id))
    ensures m.arena.T().Kind(id).Link? && m.arena.nodes[id].data == d
    ensures HoldsText(m.arena.T(), id, text)
  {
    id := WithText(m, NodeType.Link, d, text);
  }

  /** A node of a kind that holds text, with one piece of it. */
  method WithText(m: Markdown, kind: NodeType, d: Data, text: bytes) returns (id: NodeId)
    requires Live(m) && (kind.Link? || kind.Image?) && d.link.destination != [] && d.link.noteId == 0
    modifies m.arena
    ensures Live(m) && Handled(m, old(m.arena.T()), m.books, m.notes, Some(id))
    ensures id < |m.arena.nodes| && m.arena.T().Kind(id) == kind && m.arena.nodes[id].data == d
    ensures HoldsText(m.arena.T(), id, text)
  {
    hide NotesFit, Tree.Valid, EdgesOk, Made, Entered, Spread, Fit, WithOne, Tree.Appended, Tree.Unlinked, Tree.Under;
    ghost var t0 := m.arena.T();
    id := NewInline(m, kind, d);
    ghost var t1 := m.arena.T();
    var t := TextNode(m, text);
    ghost var t2 := m.arena.T();
    TextHung(t0, kind, d, text, m.doc, m.books, m.notes, m.View());
    m.arena.AppendChild(id, t);
  }

  /** The value-level story of `WithText`. */
  lemma TextHung(t0: Tree, kind: NodeType, d: Data, text: bytes, doc: NodeId, links: Books,
                                   notes: seq<Reference>, view: seq<(nat, Option<NodeId>)>)
    requires t0.Valid() && EdgesOk(t0) && (kind.Link? || kind.Image?) && d.link.destination != [] && d.link.noteId == 0
    requires doc < |t0.nodes| && NotesFit(t0, links, notes, view)
    ensures var t2 := WithOne(WithOne(t0, kind, d), NodeType.Text, LiteralOf(text));
            var id, t := |t0.nodes|, |t0.nodes| + 1;
            && t2.Valid() && |t2.nodes| == t + 1 && !t2.Under(id, t) && t2.Unlinked(t) == t2
            && var u := t2.Appended(id, t);
               && u.Valid() && EdgesOk(u) && Made(t0, u, Some(id)) && Entered(t0, u, links, links) && |u.nodes| == t + 1
               && NotesFit(u, links, notes, view) && u.Kind(doc) == t0.Kind(doc) && u.kids[id] == [t]
               && u.Kind(id) == kind && u.nodes[id].data == d && u.Kind(t).Text? && u.nodes[t].data == LiteralOf(text)
  {
    var t1 := WithOne(t0, kind, d);
    var t2 := WithOne(t1, NodeType.Text, LiteralOf(text));
    var id, t := |t0.nodes|, |t0.nodes| + 1;
    OneSpreads(t0, kind, d);
    OneSpreads(t1, NodeType.Text, LiteralOf(text));
    SpreadTrans(t0, t1, t2);
    TextFacts(t0, kind, d, text);
    HungBelowNew(t0, t2, id, t);
    var u := t2.Appended(id, t);
    NotesKept(t0, u, links, notes, view);
    assert Same(t0, u, doc);
    hide Tree.Appended, Tree.Unlinked, Tree.Valid, EdgesOk, WithOne, NotesFit, Tree.Under;
  }

  lemma TextFacts(t0: Tree, kind: NodeType, d: Data, text: bytes)
    requires t0.Valid()
    ensures var t2 := WithOne(WithOne(t0, kind, d), NodeType.Text, LiteralOf(text));
            var id, t := |t0.nodes|, |t0.nodes| + 1;
            && |t2.nodes| == t + 1 && t2.Kind(id) == kind && t2.nodes[id].data == d && t2.Parent(id) == None
            && t2.kids == t0.kids + [[], []] && |t0.kids| == |t0.nodes|
  {
  }

  /** `<`: an autolink, a tag, a comment, or two bytes that vanish. */
  method LeftAngle(m: Markdown, data: bytes) returns (n: nat, node: Option<NodeId>)
    requires Live(m) && data != [] && data[0] == '<'
    modifies m.arena
    ensures Live(m) && Handled(m, old(m.arena.T()), m.books, m.notes, node)
    ensures n <= |data| && (n == 0 ==> node == None)
    ensures node == None ==> n <= 2
    ensures node.Some? ==> n >= 3 && (m.arena.T().Kind(node.value).HTMLSpan? || m.arena.T().Kind(node.value).Link?)
    ensures node.Some? && m.arena.T().Kind(node.value).HTMLSpan? ==> m.arena.nodes[node.value].data.literal == data[..n]
    ensures node.Some? && m.arena.T().Kind(node.value).Link? ==>
              var link := Unescaped(data[1..n - 1]);
              HoldsText(m.arena.T(), node.value, StripMailto(link))
              && (m.arena.nodes[node.value].data.link.destination == link
                  || m.arena.nodes[node.value].data.link.destination == "mailto:" + link)
  {
    NothingMade(m);
    var kind, end := TagLength(data);
    var size := HtmlBlock.InlineHtmlComment(data);
    if size > 0 {
      assert data[..4][1] == data[1];
      end := size;
    }
    if end > 2 {
      if kind != NotAutolink {
        var link := UnescapeText(data[1..end - 1]);
        UnescapedEmpty(data[1..end - 1]);
        assert data[1..end - 1][0] == data[1];
        node := Autolink(m, kind, link);
        return end, node;
      } else {
        var tag := NewInline(m, HTMLSpan, LiteralOf(data[..end]));
        return end, Some(tag);
      }
    }
    return end, None;
  }

  /** The text of an autolink is never empty: it starts with a letter, a digit or a
      slash. */
  method Autolink(m: Markdown, kind: AutolinkType, link: bytes) returns (node: Option<NodeId>)
    requires Live(m) && kind != NotAutolink && link != []
    modifies m.arena
    ensures Live(m) && Handled(m, old(m.arena.T()), m.books, m.notes, node) && node.Some?
    ensures m.arena.T().Kind(node.value).Link? && HoldsText(m.arena.T(), node.value, StripMailto(link))
    ensures m.arena.nodes[node.value].data.link.destination == if kind == EmailAutolink then "mailto:" + link else link
  {
    var dest := if kind == EmailAutolink then "mailto:" + link else link;
    var id := LinkWithText(m, NoData.(link := NoData.link.(destination := dest)), StripMailto(link));
    node := Some(id);
  }

  // ----- bare URLs -----

  /** A bare URL, when a protocol name starts here and no link is open. */
  method MaybeAutoLink(m: Markdown, data: bytes, offset: nat) returns (n: nat, node: Option<NodeId>)
    requires Live(m) && offset < |data| && IsLetter(data[offset])
    modifies m.arena
    ensures Live(m) && Handled(m, old(m.arena.T()), m.books, m.notes, node)
    ensures offset + n <= |data| && node.Some? == (n > 0)
    ensures n > 0 ==> !m.insideLink
  {
    NothingMade(m);
    if m.insideLink || |data| < offset + 6 { return 0, None; }
    if !StartsUrl(data[offset..]) { return 0, None; }
    n, node := AutoLink(m, data, offset);
  }

  /** Where the nearest `<` at or before `offset` stands, or 0. */
  method AnchorStart(data: bytes, offset: nat) returns (start: nat)
    requires offset < |data|
    ensures start <= offset && (forall k :: start < k <= offset ==> data[k] != '<')
  {
    start := offset;
    while start > 0 && data[start] != '<'
      invariant start <= offset && forall k :: start < k <= offset ==> data[k] != '<'
    {
      start := start - 1;
    }
  }

  /** How many letters, at most 8, stand just before `offset`. */
  method Rewind(data: bytes, offset: nat) returns (rewind: nat)
    requires offset < |data|
    ensures rewind <= offset && rewind <= 8 && forall k :: offset - rewind <= k < offset ==> IsLetter(data[k])
  {
    rewind := 0;
    while offset - rewind > 0 && rewind <= 7 && IsLetter(data[offset - rewind - 1])
      invariant rewind <= offset && rewind <= 8 && forall k :: offset - rewind <= k < offset ==> IsLetter(data[k])
    {
      rewind := rewind + 1;
    }
  }

  /** Extends a bare URL, or passes the rest of an anchor element through. */
  method AutoLink(m: Markdown, data: bytes, offset: nat) returns (n: nat, node: Option<NodeId>)
    requires Live(m) && offset < |data| && IsLetter(data[offset]) && StartsUrl(data[offset..])
    modifies m.arena
    ensures Live(m) && Handled(m, old(m.arena.T()), m.books, m.notes, node)
    ensures offset + n <= |data| && node.Some? == (n > 0)
    ensures node.Some? ==> BareNode(m.arena.T(), data, offset, n, node.value)
  {
    hide NotesFit, Markdown.Valid, Made, Entered, AnchorLen, Shape.IsSafeLink, StartsUrl, Skip, Unescaped, Trimmed;
    NothingMade(m);
    var start := AnchorStart(data, offset);
    var anchor := AnchorLen(data[start..]);
    if anchor.Some? {
      AnchorReachesBeyond(data, start, offset);
      n, node := AnchorRest(m, data, start, offset, anchor.value);
      return;
    }
    var rewind := Rewind(data, offset);
    if rewind > 6 { return 0, None; }
    if !Shape.IsSafeLink(data[offset - rewind..]) { return 0, None; }
    RewindIsZero(data, offset, rewind);
    n, node := BareLink(m, data, offset);
  }

  /** What a bare URL becomes: inside an anchor element the rest of that element as it
      stands, and otherwise a link to the URL less its tail, with itself as its text. */
  ghost predicate BareNode(t: Tree, data: bytes, offset: nat, n: nat, id: NodeId) {
    && offset + n <= |data| && id < |t.nodes|
    && if t.Kind(id).HTMLSpan? then t.nodes[id].data.literal == data[offset..offset + n]
       else
         var run := LinkRun(data[offset..], 0);
         && 7 <= run && n == Trimmed(data, offset, run) && t.Kind(id).Link?
         && t.nodes[id].data.link.destination == Unescaped(data[offset..offset + n])
         && HoldsText(t, id, Unescaped(data[offset..offset + n]))
  }

  /** The rest of an anchor element that began before, passed through. */
  method AnchorRest(m: Markdown, data: bytes, start: nat, offset: nat, len: nat) returns (n: nat, node: Option<NodeId>)
    requires Live(m) && start <= offset < start + len <= |data|
    modifies m.arena
    ensures Live(m) && Handled(m, old(m.arena.T()), m.books, m.notes, node)
    ensures n == start + len - offset && node.Some?
    ensures node.value < |m.arena.nodes| && m.arena.T().Kind(node.value).HTMLSpan?
    ensures m.arena.nodes[node.value].data.literal == data[offset..offset + n]
  {
    var anchor := data[start..start + len];
    n := len - (offset - start);
    var close := NewInline(m, HTMLSpan, LiteralOf(anchor[offset - start..]));
    node := Some(close);
  }

  method BareLink(m: Markdown, data: bytes, offset: nat) returns (n: nat, node: Option<NodeId>)
    requires Live(m) && offset < |data| && IsLetter(data[offset]) && Shape.IsSafeLink(data[offset..])
    modifies m.arena
    ensures Live(m) && Handled(m, old(m.arena.T()), m.books, m.notes, node)
    ensures 0 < n <= |data| - offset && node.Some? && m.arena.T().Kind(node.value).Link?
    ensures forall k :: offset <= k < offset + n ==> !IsEndOfLink(data[k])
    ensures BareNode(m.arena.T(), data, offset, n, node.value)
  {
    n := LinkEnd(data, offset);
    var link := UnescapeText(data[offset..offset + n]);
    assert data[offset..offset + n][0] == data[offset];
    UnescapedEmpty(data[offset..offset + n]);
    var id := LinkWithText(m, NoData.(link := NoData.link.(destination := link)), link);
    node := Some(id);
  }
}
