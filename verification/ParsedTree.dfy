/** What every tree the parser builds satisfies, and the shape it gives the renderer. */
module ParsedTree {
  import opened Bytes
  import opened Node
  import opened Growth
  import opened MD = Markdown
  import opened InlineTree
  import opened InlinePass
  import Shape
  import Contents

  /** A numbered link is the one the books name, a link that goes nowhere is listed,
      a footnote's item is a plain one, and a heading has a level or is a title. */
  ghost predicate SoundNode(t: Tree, x: NodeId, books: Books)
    requires x < |t.nodes|
  {
    var n := t.nodes[x];
    && (n.kind.Link? && n.data.link.noteId != 0 ==>
          n.data.link.noteId <= |books.links| && books.links[n.data.link.noteId - 1] == x
          && n.data.link.footnote.Some? && n.data.link.footnote.value < |t.nodes|)
    && (GoesSomewhere(n) <==> x !in books.lost)
    && PlainNode(n)
  }

  predicate PlainNode(n: Node) {
    && (n.kind.Item? && n.data.list.refLink.Some? ==> !n.data.list.flags.term && !n.data.list.flags.definition)
    && (n.kind.Heading? ==> if n.data.heading.isTitleblock then n.data.heading.id == [] else n.data.heading.level >= 1)
  }

  ghost predicate Sound(t: Tree, books: Books) {
    forall x :: 0 <= x < |t.nodes| ==> SoundNode(t, x, books)
  }

  /** The renderer's demands on the shape of a parsed tree and on its headings always
      hold. */
  lemma SoundIsShaped(t: Tree, books: Books)
    requires t.Valid() && EdgesOk(t) && Sound(t, books)
    ensures Contents.HeadingsShaped(t) && Shape.ParserShaped(t)
  {
    forall x | 0 <= x < |t.nodes| ensures PlainNode(t.nodes[x]) { assert SoundNode(t, x, books); }
  }

  /** All demands together hold exactly when no link goes nowhere, or the flags skip such
      links: all links, or all unsafe ones. */
  lemma SoundIsRenderable(p: Shape.Params, t: Tree, books: Books)
    requires t.Valid() && EdgesOk(t) && Sound(t, books) && Astray(t, books.lost)
    ensures Shape.Renderable(p, t) <==> books.lost == [] || p.flags.skipLinks || p.flags.safelink
  {
    SoundIsShaped(t, books);
    forall x | 0 <= x < |t.nodes| ensures GoesSomewhere(t.nodes[x]) <==> x !in books.lost {
      assert SoundNode(t, x, books);
    }
    EmptyIsSkipped(p.flags);
    hide Sound, Shape.NeedSkipLink, Shape.ParserShaped;
    if books.lost != [] {
      var x := books.lost[0];
      assert !GoesSomewhere(t.nodes[x]);
      assert Shape.Followable(p.flags, t.nodes[x]) <==> p.flags.skipLinks || p.flags.safelink;
    }
  }

  /** The empty destination is not a safe one. */
  lemma EmptyIsSkipped(f: Shape.HtmlFlags)
    ensures Shape.NeedSkipLink(f, []) <==> f.skipLinks || f.safelink
  {
  }

  /** The footnote links of a sound tree are numbered 1 to n, each number once. */
  lemma NumbersAreExact(t: Tree, books: Books, notes: seq<Reference>, view: seq<(nat, Option<NodeId>)>, x: NodeId)
    requires Sound(t, books) && NotesFit(t, books, notes, view) && x < |t.nodes|
    ensures t.Kind(x).Link? && t.nodes[x].data.link.noteId != 0 <==> x in books.links
    ensures x in books.links ==>
              1 <= t.nodes[x].data.link.noteId <= |notes| && books.links[t.nodes[x].data.link.noteId - 1] == x
  {
    assert SoundNode(t, x, books);
    if x in books.links {
      var k :| 0 <= k < |books.links| && books.links[k] == x;
      assert t.nodes[books.links[k]].data.link.noteId == k + 1;
    }
  }

  // ----- what keeps a tree sound -----

  lemma SoundBlock(t: Tree, u: Tree, e: NodeId, b: nat, books: Books)
    requires BlockGrown(t, u, e, b) && Sound(t, books) && Astray(t, books.lost)
    ensures Sound(u, books)
  {
    forall x | 0 <= x < |u.nodes| ensures SoundNode(u, x, books) {
      if x < |t.nodes| { assert Same(t, u, x) && SoundNode(t, x, books); }
    }
  }

  lemma SoundInline(t: Tree, u: Tree, e: NodeId, b: Books, b': Books)
    requires Grown(t, u, e) && Fit(t, u) && Entered(t, u, b, b') && Sound(t, b)
    ensures Sound(u, b')
  {
    forall x | 0 <= x < |u.nodes| ensures SoundNode(u, x, b') {
      if x < |t.nodes| {
        assert Same(t, u, x) && SoundNode(t, x, b);
        EarlierLost(t, u, b, b', x);
      } else {
        assert EnteredNode(u.nodes[x], x, |t.nodes|, |u.nodes|, b, b') && FitNode(u.nodes[x]);
      }
    }
  }

  lemma SoundWalked(t: Tree, u: Tree, done: seq<NodeId>, b: Books, b': Books)
    requires Walked(t, u, done) && Entered(t, u, b, b') && Sound(t, b)
    ensures Sound(u, b')
  {
    forall x | 0 <= x < |u.nodes| ensures SoundNode(u, x, b') {
      if x < |t.nodes| {
        assert OldNode(t, u, x, x in done) && SoundNode(t, x, b);
        EarlierLost(t, u, b, b', x);
      } else {
        assert EnteredNode(u.nodes[x], x, |t.nodes|, |u.nodes|, b, b') && FitNode(u.nodes[x]);
      }
    }
  }

  lemma SoundSame(t: Tree, u: Tree, books: Books)
    requires Sound(t, books) && |u.nodes| == |t.nodes|
    requires forall x :: 0 <= x < |t.nodes| ==> u.nodes[x].data == t.nodes[x].data && u.Kind(x) == t.Kind(x)
    ensures Sound(u, books)
  {
    forall x | 0 <= x < |u.nodes| ensures SoundNode(u, x, books) { assert SoundNode(t, x, books); }
  }

  lemma SoundData(t: Tree, id: NodeId, d: Data, books: Books)
    requires Sound(t, books) && id < |t.nodes| && !t.Kind(id).Link? && PlainNode(t.nodes[id].(data := d))
    ensures Sound(WithData(t, id, d), books)
  {
    var u := WithData(t, id, d);
    forall x | 0 <= x < |u.nodes| ensures SoundNode(u, x, books) { assert SoundNode(t, x, books); }
  }
}
