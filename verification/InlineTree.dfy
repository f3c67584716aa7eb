/** What the inline parser may do to the tree, and the books it keeps of footnotes. */
module InlineTree {
  import opened Bytes
  import opened Node
  import opened Growth
  import opened MD = Markdown

  /** New nodes only: every node that existed keeps its payload, parent and children. */
  ghost predicate Spread(t0: Tree, t1: Tree) {
    && t0.Valid() && t1.Valid() && |t0.nodes| <= |t1.nodes|
    && (forall x :: 0 <= x < |t0.nodes| ==> Same(t0, t1, x))
    && (forall x :: 0 <= x < |t0.nodes| ==> t0.kids[x] == t1.kids[x])
  }

  /** What inline parsing makes: inline nodes and detached footnote items. */
  ghost predicate Fit(t0: Tree, t1: Tree) {
    forall x :: |t0.nodes| <= x < |t1.nodes| ==> FitNode(t1.nodes[x])
  }

  predicate FitNode(n: Node) {
    n.kind.IsInline() || (n.kind.Item? && n.data == NoData && n.links.parent == None)
  }

  lemma SpreadRefl(t: Tree)
    requires t.Valid()
    ensures Spread(t, t) && Fit(t, t)
  {
  }

  lemma SpreadTrans(t0: Tree, t1: Tree, t2: Tree)
    requires Spread(t0, t1) && Spread(t1, t2) && Fit(t0, t1) && Fit(t1, t2)
    ensures Spread(t0, t2) && Fit(t0, t2)
  {
    forall x | 0 <= x < |t0.nodes| ensures Same(t0, t2, x) { assert Same(t0, t1, x) && Same(t1, t2, x); }
    FitTrans(t0, t1, t2);
  }

  lemma FitTrans(t0: Tree, t1: Tree, t2: Tree)
    requires |t0.nodes| <= |t1.nodes| <= |t2.nodes| && |t1.level| == |t1.nodes| && |t2.level| == |t2.nodes|
    requires forall x :: 0 <= x < |t1.nodes| ==> Same(t1, t2, x)
    requires Fit(t0, t1) && Fit(t1, t2)
    ensures Fit(t0, t2)
  {
    forall x | |t0.nodes| <= x < |t2.nodes| ensures FitNode(t2.nodes[x]) {
      if x < |t1.nodes| { assert Same(t1, t2, x) && FitNode(t1.nodes[x]); }
    }
  }

  lemma SpreadIsGrown(t0: Tree, t1: Tree, e: NodeId)
    requires Spread(t0, t1) && e < |t0.nodes|
    ensures Grown(t0, t1, e)
  {
  }

  /** Growth below a node that is itself new. */
  lemma GrownBelowNew(t0: Tree, t1: Tree, t2: Tree, n: NodeId)
    requires Spread(t0, t1) && Grown(t1, t2, n) && n >= |t0.nodes| && Fit(t0, t1) && Fit(t1, t2)
    ensures Spread(t0, t2) && Fit(t0, t2) && t2.Parent(n) == t1.Parent(n) && t2.Kind(n) == t1.Kind(n)
    ensures t2.nodes[n].data == t1.nodes[n].data
  {
    forall x | 0 <= x < |t0.nodes| ensures Same(t0, t2, x) { assert Same(t0, t1, x) && Same(t1, t2, x); }
    assert Same(t1, t2, n);
    FitTrans(t0, t1, t2);
  }

  /** A detached inline node made by a handler. */
  ghost predicate Made(t0: Tree, t1: Tree, node: Option<NodeId>) {
    && Spread(t0, t1) && Fit(t0, t1)
    && (node.Some? ==>
          |t0.nodes| <= node.value < |t1.nodes| && t1.Parent(node.value) == None && t1.Kind(node.value).IsInline())
  }

  /** One node with its data. */
  function WithOne(t: Tree, kind: NodeType, d: Data): Tree {
    WithData(WithNode(t, kind), |t.nodes|, d)
  }

  lemma OneSpreads(t: Tree, kind: NodeType, d: Data)
    requires t.Valid()
    ensures var u := WithOne(t, kind, d);
            Spread(t, u) && u.Parent(|t.nodes|) == None && u.Kind(|t.nodes|) == kind && u.nodes[|t.nodes|].data == d
            && |u.nodes| == |t.nodes| + 1 && (EdgesOk(t) ==> EdgesOk(u)) && u.kids == t.kids + [[]]
    ensures kind.IsInline() ==> Fit(t, WithOne(t, kind, d)) && Made(t, WithOne(t, kind, d), Some(|t.nodes|))
  {
    var v, n := WithNode(t, kind), |t.nodes|;
    WithNodeGrows(t, kind);
    SameLinksValid(v, WithData(v, n, d));
  }

  lemma OneKeeps(t: Tree, kind: NodeType, d: Data, x: NodeId)
    requires x < |t.nodes|
    ensures WithOne(t, kind, d).Kind(x) == t.Kind(x)
  {
  }

  /** Hanging a detached new node below another new node. */
  lemma HungBelowNew(t0: Tree, t: Tree, p: NodeId, c: NodeId)
    requires Spread(t0, t) && Fit(t0, t) && EdgesOk(t) && p >= |t0.nodes| && c >= |t0.nodes| && p != c
    requires p < |t.nodes| && c < |t.nodes| && t.Parent(p) == None && t.Parent(c) == None
             && EdgeOk(t.Kind(p), t.Kind(c))
    requires t.Kind(c).IsInline()
    ensures !t.Under(p, c) && t.Unlinked(c) == t
    ensures var u := t.Appended(p, c);
            u.Valid() && EdgesOk(u) && Spread(t0, u) && Fit(t0, u) && |u.nodes| == |t.nodes| && u.Parent(p) == None
            && u.Parent(c) == Some(p) && u.kids == t.kids[p := t.kids[p] + [c]]
            && (forall x :: 0 <= x < |t.nodes| ==> u.Kind(x) == t.Kind(x) && u.nodes[x].data == t.nodes[x].data)
  {
    assert !t.Under(p, c);
    t.UnlinkRoot(c);
    t.AppendKeeps(p, c);
    EdgesAfterAppend(t, p, c);
    HungSpread(t0, t, p, c);
  }

  lemma HungSpread(t0: Tree, t: Tree, p: NodeId, c: NodeId)
    requires Spread(t0, t) && Fit(t0, t) && p >= |t0.nodes| && c >= |t0.nodes| && p != c
    requires p < |t.nodes| && c < |t.nodes| && t.Parent(p) == None && t.Parent(c) == None && !t.Under(p, c)
             && t.Kind(c).IsInline()
    ensures var u := t.Appended(p, c);
            |u.nodes| == |t.nodes| && (u.Valid() ==> Spread(t0, u)) && Fit(t0, u)
            && (forall x :: 0 <= x < |t.nodes| ==> u.Kind(x) == t.Kind(x) && u.nodes[x].data == t.nodes[x].data)
            && u.Parent(p) == None && u.Parent(c) == Some(p) && u.kids == t.kids[p := t.kids[p] + [c]]
  {
    t.AppendKeeps(p, c);
    var u := t.Appended(p, c);
    forall x | 0 <= x < |t.nodes| ensures u.Kind(x) == t.Kind(x) && u.nodes[x].data == t.nodes[x].data {
      assert SamePayload(t.nodes[x], u.nodes[x]);
    }
    if t0.nodes != [] { SpreadIsGrown(t0, t, 0); }
    forall x | 0 <= x < |t0.nodes| ensures Same(t0, u, x) {
      assert Same(t0, t, x);
      OldNotUnderNew(t0, t, 0, x, c);
    }
    forall x | |t0.nodes| <= x < |u.nodes| ensures FitNode(u.nodes[x]) {
      assert FitNode(t.nodes[x]) && u.Parent(x) == if x == c then Some(p) else t.Parent(x);
    }
  }

  // ----- footnotes -----

  /** The k-th footnote link carries the number k + 1. */
  ghost predicate Numbered(t: Tree, links: seq<NodeId>) {
    forall k :: 0 <= k < |links| ==>
      links[k] < |t.nodes| && t.Kind(links[k]).Link? && t.nodes[links[k]].data.link.noteId == k + 1
  }

  ghost predicate Astray(t: Tree, lost: seq<NodeId>) {
    forall k :: 0 <= k < |lost| ==> lost[k] < |t.nodes| && !GoesSomewhere(t.nodes[lost[k]])
  }

  /** The books account for the new nodes: the numbered links among them are exactly
      the new footnote links, each with a new item, and the ones that go nowhere are
      exactly those newly listed. */
  ghost predicate Entered(t0: Tree, t1: Tree, b0: Books, b1: Books) {
    && b0.links <= b1.links && b0.lost <= b1.lost
    && (forall x :: |t0.nodes| <= x < |t1.nodes| ==> EnteredNode(t1.nodes[x], x, |t0.nodes|, |t1.nodes|, b0, b1))
    && (forall k :: |b0.lost| <= k < |b1.lost| ==> |t0.nodes| <= b1.lost[k] < |t1.nodes|)
  }

  ghost predicate EnteredNode(n: Node, x: NodeId, base: nat, top: nat, b0: Books, b1: Books) {
    && (n.kind.Link? && n.data.link.noteId != 0 ==>
          |b0.links| < n.data.link.noteId <= |b1.links| && b1.links[n.data.link.noteId - 1] == x
          && n.data.link.footnote.Some? && base <= n.data.link.footnote.value < top)
    && (GoesSomewhere(n) <==> x !in b1.lost)
  }

  /** The books: as many links as queued handles, and every handle shows the number
      and the item of its latest reference, whichever entry it is read through. */
  ghost predicate NotesFit(t: Tree, books: Books, notes: seq<Reference>, view: seq<(nat, Option<NodeId>)>) {
    && |books.links| == |notes| == |view| && Numbered(t, books.links) && Astray(t, books.lost)
    && (forall k :: 0 <= k < |notes| ==> NoteFits(t, books.links, notes, view, k))
  }

  ghost predicate NoteFits(t: Tree, links: seq<NodeId>, notes: seq<Reference>, view: seq<(nat, Option<NodeId>)>, k: nat)
    requires k < |notes| == |view| == |links|
  {
    var (id, item) := view[k];
    && k < id <= |notes| && notes[id - 1] == notes[k] && (forall j :: id <= j < |notes| ==> notes[j] != notes[k])
    && links[id - 1] < |t.nodes| && item == t.nodes[links[id - 1]].data.link.footnote
    && item.Some? && item.value < |t.nodes| && t.Kind(item.value).Item?
  }

  lemma EnteredTrans(t0: Tree, t1: Tree, t2: Tree, l0: Books, l1: Books, l2: Books)
    requires |t0.nodes| <= |t1.nodes| <= |t2.nodes| && |t1.level| == |t1.nodes| && |t2.level| == |t2.nodes|
    requires forall x :: 0 <= x < |t1.nodes| ==> Same(t1, t2, x)
    requires Entered(t0, t1, l0, l1) && Entered(t1, t2, l1, l2)
    ensures Entered(t0, t2, l0, l2)
  {
    forall x | |t0.nodes| <= x < |t2.nodes| ensures EnteredNode(t2.nodes[x], x, |t0.nodes|, |t2.nodes|, l0, l2) {
      if x < |t1.nodes| {
        assert EnteredNode(t1.nodes[x], x, |t0.nodes|, |t1.nodes|, l0, l1) && Same(t1, t2, x);
        EarlierLost(t1, t2, l1, l2, x);
      } else {
        assert EnteredNode(t2.nodes[x], x, |t1.nodes|, |t2.nodes|, l1, l2);
      }
    }
    forall k | |l0.lost| <= k < |l2.lost| ensures |t0.nodes| <= l2.lost[k] < |t2.nodes| {
      if k < |l1.lost| { assert l2.lost[k] == l1.lost[k]; }
    }
  }

  lemma EarlierLost(t1: Tree, t2: Tree, l1: Books, l2: Books, x: NodeId)
    requires Entered(t1, t2, l1, l2) && x < |t1.nodes|
    ensures x in l2.lost <==> x in l1.lost
  {
    if x in l2.lost {
      var k :| 0 <= k < |l2.lost| && l2.lost[k] == x;
      assert k < |l1.lost| && l1.lost[k] == x;
    }
  }

  lemma NotesKept(t0: Tree, t1: Tree, links: Books, notes: seq<Reference>, view: seq<(nat, Option<NodeId>)>)
    requires NotesFit(t0, links, notes, view)
    requires |t0.nodes| <= |t1.nodes| && |t0.level| == |t0.nodes| && |t1.level| == |t1.nodes|
    requires forall x :: 0 <= x < |t0.nodes| ==> Same(t0, t1, x)
    ensures NotesFit(t1, links, notes, view)
  {
    forall k | 0 <= k < |links.links|
      ensures links.links[k] < |t1.nodes| && t1.Kind(links.links[k]).Link?
              && t1.nodes[links.links[k]].data.link.noteId == k + 1
    {
      assert Same(t0, t1, links.links[k]);
    }
    forall k | 0 <= k < |links.lost| ensures links.lost[k] < |t1.nodes| && !GoesSomewhere(t1.nodes[links.lost[k]]) {
      assert Same(t0, t1, links.lost[k]);
    }
    forall k | 0 <= k < |notes| ensures NoteFits(t1, links.links, notes, view, k) {
      assert NoteFits(t0, links.links, notes, view, k);
      assert Same(t0, t1, links.links[view[k].0 - 1]) && Same(t0, t1, view[k].1.value);
    }
  }

  /** Queueing a handle once more: every entry that holds it now shows the new number
      and item, the others what they showed. */
  lemma NotesGrow(t: Tree, links: Books, notes: seq<Reference>, view: seq<(nat, Option<NodeId>)>,
                                    handle: Reference, item: NodeId, link: NodeId, view': seq<(nat, Option<NodeId>)>)
    requires NotesFit(t, links, notes, view) && |view'| == |notes| + 1
    requires item < |t.nodes| && t.Kind(item).Item? && link < |t.nodes| && t.Kind(link).Link?
    requires t.nodes[link].data.link.noteId == |notes| + 1 && t.nodes[link].data.link.footnote == Some(item)
    requires forall k :: 0 <= k < |view'| ==>
               view'[k] == if (notes + [handle])[k] == handle then (|notes| + 1, Some(item)) else view[k]
    ensures NotesFit(t, links.(links := links.links + [link]), notes + [handle], view')
  {
    var notes', links' := notes + [handle], links.links + [link];
    forall k | 0 <= k < |notes'| ensures NoteFits(t, links', notes', view', k) {
      if notes'[k] != handle {
        assert NoteFits(t, links.links, notes, view, k);
        var id := view[k].0;
        forall j | id <= j < |notes'| ensures notes'[j] != notes'[k] {}
      }
    }
  }

  /** The state every inline method keeps. */
  ghost predicate Live(m: Markdown)
    reads m, m.arena, m.notes
  {
    && m.Valid() && m.nesting <= m.maxNesting && NotesFit(m.arena.T(), m.books, m.notes, m.View())
  }

  /** What a handler leaves behind, from the tree, links and queue it found. */
  ghost predicate Handled(m: Markdown, t0: Tree, l0: Books, n0: seq<Reference>, node: Option<NodeId>)
    reads m, m.arena
  {
    Done(m.ext.footnotes, t0, m.arena.T(), l0, m.books, n0, m.notes, node)
  }

  ghost predicate Done(footnotes: bool, t0: Tree, t: Tree, l0: Books, l: Books, n0: seq<Reference>, n: seq<Reference>,
                       node: Option<NodeId>)
  {
    && Made(t0, t, node) && Entered(t0, t, l0, l) && n0 <= n && (footnotes || (l == l0 && n == n0))
  }

  /** Makes one inline node that is not a footnote link. */
  method NewInline(m: Markdown, kind: NodeType, d: Data) returns (id: NodeId)
    requires Live(m) && kind.IsInline() && d.link.noteId == 0
    requires GoesSomewhere(Node(kind, NoLinks, true, d))
    modifies m.arena
    ensures Live(m) && id == |old(m.arena.nodes)| && m.arena.T() == WithOne(old(m.arena.T()), kind, d)
    ensures Handled(m, old(m.arena.T()), m.books, m.notes, Some(id))
    ensures |m.arena.nodes| == id + 1 && m.arena.nodes[id].data == d && m.arena.T().Kind(id) == kind
    ensures id < |m.arena.kids| && m.arena.kids[id] == []
  {
    ghost var t := m.arena.T();
    OneSpreads(t, kind, d);
    OneKeeps(t, kind, d, m.doc);
    NotesKept(t, WithOne(t, kind, d), m.books, m.notes, m.View());
    NoNumbers(t, kind, d, m.books);
    hide NotesFit, EdgesOk, Tree.Valid, Spread, Fit, Made, Entered;
    id := m.arena.NewNode(kind);
    m.arena.SetData(id, d);
  }

  lemma NoNumbers(t: Tree, kind: NodeType, d: Data, links: Books)
    requires d.link.noteId == 0 && Astray(t, links.lost) && GoesSomewhere(Node(kind, NoLinks, true, d))
    ensures Entered(t, WithOne(t, kind, d), links, links)
  {
  }

  // ----- hanging what was made below the node being inlined -----

  /** `u` is `t` with the detached node `c` as the last child of `e`. */
  ghost predicate Hung(t: Tree, u: Tree, e: NodeId, c: NodeId) {
    && |u.nodes| == |t.nodes| && e < |t.kids| && c < |t.nodes| && u.kids == t.kids[e := t.kids[e] + [c]]
    && (forall x :: 0 <= x < |t.nodes| ==> u.Kind(x) == t.Kind(x) && u.nodes[x].data == t.nodes[x].data)
    && (forall x :: 0 <= x < |t.nodes| && x != c ==> u.Parent(x) == t.Parent(x)) && u.Parent(c) == Some(e)
  }

  lemma HungBelow(t0: Tree, t: Tree, e: NodeId, c: NodeId)
    requires Grown(t0, t, e) && Fit(t0, t) && EdgesOk(t) && |t0.nodes| <= c < |t.nodes| && t.Parent(c) == None
    requires EdgeOk(t.Kind(e), t.Kind(c)) && t.Kind(c).IsInline()
    ensures !t.Under(e, c) && t.Unlinked(c) == t
    ensures var u := t.Appended(e, c);
            u.Valid() && EdgesOk(u) && Grown(t0, u, e) && Fit(t0, u) && Hung(t, u, e, c)
  {
    AppendGrows(t0, t, e, e, c);
    t.UnlinkRoot(c);
    t.AppendKeeps(e, c);
    EdgesAfterAppend(t, e, c);
    PayloadHung(t0, t, e, c);
  }

  lemma PayloadHung(t0: Tree, t: Tree, e: NodeId, c: NodeId)
    requires Grown(t0, t, e) && Fit(t0, t) && |t0.nodes| <= c < |t.nodes| && t.Parent(c) == None && !t.Under(e, c)
    requires t.Kind(c).IsInline()
    requires t.Appended(e, c).kids == t.kids[e := t.kids[e] + [c]]
    ensures Hung(t, t.Appended(e, c), e, c) && Fit(t0, t.Appended(e, c))
  {
    t.AppendKeeps(e, c);
    var u := t.Appended(e, c);
    forall x | 0 <= x < |t.nodes| ensures u.Kind(x) == t.Kind(x) && u.nodes[x].data == t.nodes[x].data {
      assert SamePayload(t.nodes[x], u.nodes[x]);
    }
    forall x | |t0.nodes| <= x < |u.nodes| ensures FitNode(u.nodes[x]) {
      assert FitNode(t.nodes[x]) && u.Parent(x) == if x == c then Some(e) else t.Parent(x);
    }
  }

  lemma HungNumbers(t0: Tree, t: Tree, u: Tree, e: NodeId, c: NodeId, l0: Books, links: Books,
                                      notes: seq<Reference>, view: seq<(nat, Option<NodeId>)>)
    requires Hung(t, u, e, c) && Entered(t0, t, l0, links) && NotesFit(t, links, notes, view)
    ensures Entered(t0, u, l0, links) && NotesFit(u, links, notes, view)
  {
    forall x | |t0.nodes| <= x < |u.nodes| ensures EnteredNode(u.nodes[x], x, |t0.nodes|, |u.nodes|, l0, links) {
      assert EnteredNode(t.nodes[x], x, |t0.nodes|, |t.nodes|, l0, links);
    }
    forall k | 0 <= k < |notes| ensures NoteFits(u, links.links, notes, view, k) { assert NoteFits(t, links.links,
        notes, view, k); }
  }

  /** The tree, the links and the queue have only grown since `t0`, `l0` and `n0`, and
      of the old nodes only `e` has gained children. */
  ghost predicate Inlined(m: Markdown, t0: Tree, l0: Books, n0: seq<Reference>, e: NodeId)
    reads m, m.arena
  {
    && Grown(t0, m.arena.T(), e) && Fit(t0, m.arena.T()) && Entered(t0, m.arena.T(), l0, m.books) && n0 <= m.notes
    && (m.ext.footnotes || (m.books == l0 && m.notes == n0))
  }

  method Hang(m: Markdown, e: NodeId, c: NodeId, ghost t0: Tree, ghost l0: Books, ghost n0: seq<Reference>)
    requires Live(m) && Inlined(m, t0, l0, n0, e) && |t0.nodes| <= c < |m.arena.nodes| && m.arena.T().Parent(c) == None
    requires m.arena.T().Kind(e).HostsInline() && m.arena.T().Kind(c).IsInline()
    modifies m.arena
    ensures Live(m) && Inlined(m, t0, l0, n0, e) && Hung(old(m.arena.T()), m.arena.T(), e, c)
  {
    hide NotesFit, Tree.Valid, EdgesOk, Grown, Fit, Entered;
    ghost var t := m.arena.T();
    GrownRange(t0, t, e);
    HungBelow(t0, t, e, c);
    HungNumbers(t0, t, t.Appended(e, c), e, c, l0, m.books, m.notes, m.View());
    m.arena.AppendChild(e, c);
  }

  lemma GrownRange(t0: Tree, t: Tree, e: NodeId)
    requires Grown(t0, t, e)
    ensures t0.Valid() && t.Valid() && e < |t0.nodes| <= |t.nodes| && |t.kids| == |t.nodes|
  {
  }

  /** A handler's work, seen from the node being inlined. */
  lemma HandledInlines(t0: Tree, t: Tree, u: Tree, e: NodeId, l0: Books, l: Books, l': Books, node: Option<NodeId>)
    requires Grown(t0, t, e) && Fit(t0, t) && Entered(t0, t, l0, l)
    requires Made(t, u, node) && Entered(t, u, l, l')
    ensures Grown(t0, u, e) && Fit(t0, u) && Entered(t0, u, l0, l') && u.kids[e] == t.kids[e]
    ensures node.Some? ==> |t0.nodes| <= node.value < |u.nodes|
  {
    SpreadIsGrown(t, u, e);
    GrownTrans(t0, t, u, e, e);
    FitTrans(t0, t, u);
    EnteredTrans(t0, t, u, l0, l, l');
  }
}
