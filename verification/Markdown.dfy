/** The parser state and its open insertion point (src/markdown.rs). */
module Markdown {
  import opened Bytes
  import opened Node
  import opened Growth
  import A = Arena
  import U = Unescape

  datatype Extensions = Extensions(
    noIntraEmphasis: bool, tables: bool, fencedCode: bool, autolink: bool, strikethrough: bool,
    laxHtmlBlocks: bool, spaceHeadings: bool, hardLineBreak: bool, tabSizeEight: bool, footnotes: bool,
    noEmptyLineBeforeBlock: bool, headingIds: bool, titleblock: bool, autoHeadingIds: bool,
    backslashLineBreak: bool, definitionLists: bool)

  /** What the parser takes from Unicode tables: the width of a leading or trailing
      white-space character (0 if there is none), lower-casing, and heading slugs. */
  datatype Unicode = Unicode(headSpace: bytes -> nat, tailSpace: bytes -> nat,
                             lower: bytes -> bytes, anchor: bytes -> bytes)

  const MaxNesting: nat := 16

  /** A shared reference record, seen by every handle to one id.  Resolving a
      footnote writes its number and its item; the rest is fixed when it is made.
      For a footnote, `link` is its id and `title` its text. */
  class Reference {
    const link: bytes
    const title: bytes
    const hasBlock: bool
    const text: bytes
    var noteId: nat
    var footnote: Option<NodeId>

    /** Block-level notes can be fed to the block parser. */
    predicate WellFormed() { hasBlock ==> Terminated(title) }

    constructor (link: bytes, title: bytes, noteId: nat, hasBlock: bool, footnote: Option<NodeId>)
      ensures this.link == link && this.title == title && this.noteId == noteId
      ensures this.hasBlock == hasBlock && this.footnote == footnote && this.text == ""
    {
      this.link, this.title, this.noteId := link, title, noteId;
      this.hasBlock, this.footnote, this.text := hasBlock, footnote, "";
    }
  }

  /** What the inline parser has made so far: the link node for each queued footnote,
      and the links that go nowhere. */
  datatype Books = Books(links: seq<NodeId>, lost: seq<NodeId>)

  const NoBooks := Books([], [])

  // ----- the path from the insertion point -----

  /** Node types that can take neither a block nor a list item. */
  predicate Sealed(k: NodeType) {
    !k.Document? && !k.BlockQuote? && !k.List? && !k.Item?
  }

  /** `x` is `e`, or below it with only sealed nodes in between (no list, no item,
      no quote): the next block construct climbs from `x` to exactly `e`. */
  ghost predicate TipBelow(t: Tree, x: NodeId, e: NodeId)
    requires t.Valid() && x < |t.nodes|
    decreases t.level[x]
  {
    x == e ||
    (Sealed(t.Kind(x)) && t.Parent(x).Some? && (assert t.UpOk(x); TipBelow(t, t.Parent(x).value, e)))
  }

  /** `e` is the first node at or above `x` that can contain a `kind`. */
  ghost predicate ClimbsTo(t: Tree, x: NodeId, kind: NodeType, e: NodeId)
    requires t.Valid() && x < |t.nodes|
    decreases t.level[x]
  {
    if t.Kind(x).CanContain(kind) then x == e
    else t.Parent(x).Some? && (assert t.UpOk(x); ClimbsTo(t, t.Parent(x).value, kind, e))
  }

  /** Block types that are neither items nor parts of a table. */
  predicate Freestanding(k: NodeType) {
    !k.Item? && !k.TableHead? && !k.TableBody? && !k.TableRow? && !k.TableCell?
  }

  predicate HostsBlocks(k: NodeType) { k.Document? || k.BlockQuote? || k.Item? }

  lemma {:induction false} BlockClimbs(t: Tree, x: NodeId, kind: NodeType, e: NodeId)
    requires t.Valid() && x < |t.nodes| && e < |t.nodes| && TipBelow(t, x, e)
    requires Freestanding(kind) && HostsBlocks(t.Kind(e))
    ensures ClimbsTo(t, x, kind, e)
    decreases t.level[x]
  {
    if x != e {
      assert t.UpOk(x);
      BlockClimbs(t, t.Parent(x).value, kind, e);
    }
  }

  /** Below an item, the next item climbs to the item's list. */
  lemma {:induction false} ItemClimbs(t: Tree, x: NodeId, item: NodeId, list: NodeId)
    requires t.Valid() && x < |t.nodes| && item < |t.nodes| && TipBelow(t, x, item)
    requires t.Kind(item).Item? && t.Parent(item) == Some(list) && list < |t.nodes| && t.Kind(list).List?
    ensures ClimbsTo(t, x, NodeType.Item, list)
    decreases t.level[x]
  {
    if x != item {
      assert t.UpOk(x);
      ItemClimbs(t, t.Parent(x).value, item, list);
    }
  }

  lemma {:induction false} TipIsUnder(t: Tree, x: NodeId, e: NodeId)
    requires t.Valid() && x < |t.nodes| && TipBelow(t, x, e)
    ensures t.Under(x, e)
    decreases t.level[x]
  {
    if x != e {
      assert t.UpOk(x);
      TipIsUnder(t, t.Parent(x).value, e);
    }
  }

  /** Paths that existed before a growth step are still there. */
  lemma {:induction false} TipBelowGrown(t0: Tree, t: Tree, g: NodeId, x: NodeId, e: NodeId)
    requires Grown(t0, t, g) && x < |t0.nodes| && TipBelow(t0, x, e)
    ensures TipBelow(t, x, e)
    decreases t0.level[x]
  {
    assert Same(t0, t, x);
    if x != e {
      assert t0.UpOk(x) && t.UpOk(x);
      TipBelowGrown(t0, t, g, t0.Parent(x).value, e);
    }
  }

  // ----- what a block construct may do to the tree -----

  /** Growth below `e` by block nodes, every one at most `b` levels deep; only a table
      that was given up hangs nowhere. */
  ghost predicate BlockGrown(t0: Tree, t1: Tree, e: NodeId, b: nat) {
    && Grown(t0, t1, e)
    && (forall x :: |t0.nodes| <= x < |t1.nodes| ==>
         t1.level[x] <= b && BlockNode(t1.nodes[x]) && (t1.Parent(x) == None ==> t1.Kind(x).Table?))
  }

  /** What the block parser makes: no inline nodes, items without a footnote anchor,
      headings with a level, title blocks without an id. */
  predicate BlockNode(n: Node) {
    && !n.kind.IsInline()
    && (n.kind.Item? ==> n.data.list.refLink == None)
    && (n.kind.Heading? ==> if n.data.heading.isTitleblock then n.data.heading.id == [] else n.data.heading.level >= 1)
  }

  /** Every node the block parser makes lies below a child that `e` gained, or below a
      table that was given up. */
  lemma {:induction false} NewNodesHang(t0: Tree, t1: Tree, e: NodeId, b: nat, x: NodeId) returns (top: NodeId)
    requires BlockGrown(t0, t1, e, b) && |t0.nodes| <= x < |t1.nodes|
    ensures |t0.nodes| <= top < |t1.nodes| && t1.Under(x, top)
    ensures match t1.Parent(top)
            case Some(p) => p == e && top in t1.kids[e][|t0.kids[e]|..]
            case None => t1.Kind(top).Table?
    decreases t1.level[x]
  {
    match t1.Parent(x)
    case None => top := x;
    case Some(p) =>
      NewParents(t0, t1, e, x);
      assert t1.UpOk(x);
      if p == e {
        top := x;
        GainedKid(t0, t1, e, x);
      } else {
        top := NewNodesHang(t0, t1, e, b, p);
      }
  }

  lemma GainedKid(t0: Tree, t1: Tree, e: NodeId, x: NodeId)
    requires Grown(t0, t1, e) && |t0.nodes| <= x < |t1.nodes| && t1.Parent(x) == Some(e)
    ensures x in t1.kids[e][|t0.kids[e]|..]
  {
    t1.ParentOf(x);
    var k := IndexOf(t1.kids[e], x);
    if k < |t0.kids[e]| { t0.KidOf(e, t0.kids[e][k]); }
    assert t1.kids[e][|t0.kids[e]|..][k - |t0.kids[e]|] == x;
  }

  lemma BlockGrownTrans(t0: Tree, t1: Tree, t2: Tree, e: NodeId, f: NodeId, b: nat, c: nat)
    requires BlockGrown(t0, t1, e, b) && BlockGrown(t1, t2, f, c) && c <= b
    requires f == e || f >= |t0.nodes|
    ensures BlockGrown(t0, t2, e, b)
  {
    GrownTrans(t0, t1, t2, e, f);
    forall x | |t0.nodes| <= x < |t2.nodes|
      ensures t2.level[x] <= b && BlockNode(t2.nodes[x]) && (t2.Parent(x) == None ==> t2.Kind(x).Table?)
    {
      if x < |t1.nodes| { assert Same(t1, t2, x); }
    }
  }

  lemma BoundWeakens(t: Tree, u: Tree, e: NodeId, b: nat, c: nat)
    requires BlockGrown(t, u, e, b) && b <= c
    ensures BlockGrown(t, u, e, c)
  {
  }

  class Markdown {
    const arena: A.Arena
    const ext: Extensions
    const uni: Unicode
    const names: U.Names
    const maxNesting: nat
    const doc: NodeId
    var refs: map<bytes, Reference>
    var notes: seq<Reference>
    /** Every record that was ever registered. */
    ghost var handles: set<Reference>
    ghost var books: Books
    var nesting: nat
    var insideLink: bool
    var tip: NodeId
    var oldTip: NodeId
    var lastMatchedContainer: NodeId
    var allClosed: bool

    ghost predicate Valid()
      reads this, arena
    {
      && arena.Valid() && EdgesOk(arena.T())
      && doc < |arena.nodes| && arena.T().Kind(doc).Document?
      && tip < |arena.nodes| && oldTip < |arena.nodes| && lastMatchedContainer < |arena.nodes|
      && allClosed
      && (forall k :: k in refs ==> refs[k].WellFormed() && refs[k] in handles)
      && (forall k :: 0 <= k < |notes| ==> notes[k].WellFormed())
    }

    /** The parser state apart from the tree, the tip and the reference table. */
    ghost function Frame(): (nat, bool, seq<Reference>, Books)
      reads this
    {
      (nesting, insideLink, notes, books)
    }

    /** What the queued handles hold now: the number and the item, per entry. */
    ghost function View(): (v: seq<(nat, Option<NodeId>)>)
      reads this, notes
      ensures |v| == |notes| && forall k :: 0 <= k < |notes| ==> v[k] == (notes[k].noteId, notes[k].footnote)
    {
      seq(|notes|, k requires 0 <= k < |notes| reads this, notes => (notes[k].noteId, notes[k].footnote))
    }

    constructor (ext: Extensions, uni: Unicode, names: U.Names)
      ensures Valid() && fresh(arena) && maxNesting == MaxNesting
      ensures this.ext == ext && this.uni == uni && this.names == names
      ensures |arena.nodes| == 1 && doc == tip == 0 && nesting == 0 && !insideLink
      ensures arena.T().level == [0] && arena.T().kids == [[]]
      ensures refs == map[] && notes == [] && books == NoBooks && handles == {}
    {
      this.ext, this.uni, this.names, maxNesting := ext, uni, names, MaxNesting;
      var a := new A.Arena();
      var d := a.NewNode(Document);
      arena, doc, tip, oldTip, lastMatchedContainer := a, d, d, d, d;
      refs, handles, notes, books, nesting, insideLink, allClosed := map[], {}, [], NoBooks, 0, false, true;
    }

    /** Closes `block`, moving the insertion point to its parent if it has one. */
    method Finalize(block: NodeId)
      requires arena.Valid() && EdgesOk(arena.T()) && block < |arena.nodes|
      modifies this`tip, arena
      ensures arena.T() == Closed(old(arena.T()), block)
      ensures arena.Valid() && EdgesOk(arena.T())
      ensures match old(arena.T()).Parent(block) case Some(p) => tip == p case None => tip == old(tip)
    {
      ClosedGrows(arena.T(), block);
      var above := arena.nodes[block].links.parent;
      arena.Close(block);
      if above.Some? { tip := above.value; }
    }

    /** Closes every block between the last match and the old insertion point. The
        parser never clears `allClosed`, so in a parse this does nothing. */
    method CloseUnmatchedBlocks()
      requires arena.Valid() && EdgesOk(arena.T())
      requires tip < |arena.nodes| && oldTip < |arena.nodes|
      modifies this`tip, this`oldTip, this`allClosed, arena
      ensures arena.Valid() && EdgesOk(arena.T()) && SameLinks(old(arena.T()), arena.T()) && allClosed
      ensures tip < |arena.nodes| && oldTip < |arena.nodes|
      ensures old(allClosed) ==> arena.T() == old(arena.T()) && tip == old(tip) && oldTip == old(oldTip)
    {
      if !allClosed {
        ghost var t := arena.T();
        while oldTip != lastMatchedContainer
          invariant arena.Valid() && EdgesOk(arena.T()) && SameLinks(t, arena.T())
          invariant tip < |arena.nodes| && oldTip < |arena.nodes|
          decreases t.level[oldTip]
        {
          assert arena.T().UpOk(oldTip);
          var parent := arena.nodes[oldTip].links.parent;
          ClosedGrows(arena.T(), oldTip);
          Finalize(oldTip);
          if parent == None { break; }
          oldTip := parent.value;
        }
        allClosed := true;
      }
    }

    /** The climbing loop: closes blocks that cannot contain a `kind`.  It always
        stops, and at the node the path predicate names. */
    method Climb(kind: NodeType, ghost e: NodeId)
      requires Valid() && ClimbsTo(arena.T(), tip, kind, e)
      modifies this`tip, arena
      ensures Valid() && tip == e && arena.T().Kind(e).CanContain(kind)
      ensures SameLinks(old(arena.T()), arena.T())
      ensures forall x :: 0 <= x < |arena.nodes| ==> arena.nodes[x].data == old(arena.nodes)[x].data
    {
      ghost var t := arena.T();
      while !arena.nodes[tip].kind.CanContain(kind)
        invariant Valid() && SameLinks(t, arena.T()) && ClimbsTo(t, tip, kind, e)
        invariant forall x :: 0 <= x < |arena.nodes| ==> arena.nodes[x].data == t.nodes[x].data
        decreases t.level[tip]
      {
        assert t.UpOk(tip);
        ClosedGrows(arena.T(), tip);
        Finalize(tip);
      }
    }

    /** `t` is `t0` with `node` moved to the end of the children of `e`. */
    static ghost predicate MovedToEnd(t0: Tree, t: Tree, e: NodeId, node: NodeId) {
      && t0.Valid() && t.Valid() && EdgesOk(t) && |t.nodes| == |t0.nodes| && e < |t0.nodes| && node < |t0.nodes|
      && t.kids == MoveKid(t0.kids, t0.Parent(node), e, node)
      && (forall x :: 0 <= x < |t.nodes| ==>
            t.nodes[x].data == t0.nodes[x].data && t.Kind(x) == t0.Kind(x)
            && t.Parent(x) == if x == node then Some(e) else t0.Parent(x))
    }

    /** Child sequences after `node`, a child of `from` if it has a parent, goes to the
        end of the children of `e`. */
    static function MoveKid(k: seq<seq<NodeId>>, from: Option<NodeId>, e: NodeId, node: NodeId): seq<seq<NodeId>> {
      var k' := if from.Some? && from.value < |k| then k[from.value := Without(k[from.value], node)] else k;
      if e < |k'| then k'[e := k'[e] + [node]] else k'
    }

    /** Appends an existing node at the insertion point. */
    method AddExistingChild(node: NodeId, ghost e: NodeId)
      requires Valid() && node < |arena.nodes| && !arena.T().Kind(node).IsInline()
      requires ClimbsTo(arena.T(), tip, arena.T().Kind(node), e)
      requires e < |arena.nodes| && !arena.T().Under(e, node)
      modifies this`tip, arena
      ensures Valid() && tip == node && |arena.nodes| == |old(arena.nodes)|
      ensures MovedToEnd(old(arena.T()), arena.T(), e, node)
    {
      hide MovedToEnd, Tree.Under, Tree.Valid, EdgesOk;
      ghost var t0 := arena.T();
      Climb(arena.nodes[node].kind, e);
      ghost var t := arena.T();
      SameLinksUnder(t0, t, e, node);
      MovingKeeps(t0, t, e, node, doc);
      arena.AppendChild(tip, node);
      tip := node;
    }

    static lemma MovingKeeps(t0: Tree, t: Tree, e: NodeId, node: NodeId, doc: NodeId)
      requires t0.Valid() && t.Valid() && EdgesOk(t) && SameLinks(t0, t) && e < |t.nodes| && node < |t.nodes|
               && doc < |t.nodes|
      requires !t.Under(e, node) && t.Kind(e).CanContain(t.Kind(node)) && !t.Kind(node).IsInline()
      requires forall x :: 0 <= x < |t.nodes| ==> t.nodes[x].data == t0.nodes[x].data
      ensures t.Unlinked(node).Valid()
      ensures MovedToEnd(t0, t.Unlinked(node).Appended(e, node), e, node)
      ensures t.Unlinked(node).Appended(e, node).Valid() && EdgesOk(t.Unlinked(node).Appended(e, node))
      ensures t.Unlinked(node).Appended(e, node).Kind(doc) == t.Kind(doc)
    {
      var u := t.Unlinked(node);
      t.UnlinkKeeps(node);
      t.UnderAfterUnlink(node, e);
      EdgesAfterUnlink(t, node);
      assert SamePayload(t.nodes[node], u.nodes[node]) && SamePayload(t.nodes[e], u.nodes[e]);
      var v := u.Appended(e, node);
      EdgesAfterAppend(u, e, node);
      u.AppendKeeps(e, node);
      t.LinksInRange(node);
      hide Tree.Under, Tree.Relevel, UnlinkNodes, AppendNodes, EdgesOk;
      forall x | 0 <= x < |t.nodes|
        ensures v.nodes[x].data == t0.nodes[x].data && v.Kind(x) == t0.Kind(x)
        ensures v.Parent(x) == if x == node then Some(e) else t0.Parent(x)
      {
        assert SamePayload(t.nodes[x], u.nodes[x]) && SamePayload(u.nodes[x], v.nodes[x]);
      }
    }

    static lemma {:induction false} SameLinksUnder(t: Tree, u: Tree, x: NodeId, a: NodeId)
      requires t.Valid() && u.Valid() && SameLinks(t, u) && x < |t.nodes|
      ensures t.Under(x, a) <==> u.Under(x, a)
      decreases t.level[x]
    {
      if x != a && t.Parent(x).Some? {
        assert t.UpOk(x);
        SameLinksUnder(t, u, t.Parent(x).value, a);
      }
    }

    /** What adding a new child below `e` does to the tree. */
    static ghost predicate Added(t0: Tree, t: Tree, e: NodeId, node: NodeId, kind: NodeType) {
      && t0.Valid() && t.Valid() && e < |t0.nodes|
      && node == |t0.nodes| && |t.nodes| == node + 1
      && Grown(t0, t, e)
      && t.kids == t0.kids[e := t0.kids[e] + [node]] + [[]]
      && t.Kind(node) == kind && t.Parent(node) == Some(e) && t.level[node] == t0.level[e] + 1
    }

    method AddChild(kind: NodeType, ghost e: NodeId) returns (node: NodeId)
      requires Valid() && !kind.IsInline() && ClimbsTo(arena.T(), tip, kind, e)
      modifies this`tip, arena
      ensures Valid() && tip == node && e < |old(arena.nodes)|
      ensures Added(old(arena.T()), arena.T(), e, node, kind)
      ensures arena.nodes[node].data == NoData
    {
      hide Tree.Under, ClimbsTo, Added, Tree.Valid, Tree.Appended, Tree.Unlinked, EdgesOk;
      ghost var t0 := arena.T();
      node := arena.NewNode(kind);
      ghost var t1 := arena.T();
      WithNodeGrows(t0, kind);
      ClimbGrown(t0, t1, tip, kind, e);
      Climb(kind, e);
      ghost var t2 := arena.T();
      AppendingNew(t0, t2, e, node, kind);
      arena.AppendChild(tip, node);
      tip := node;
    }

    /** Appending a node that was just made, after the climb closed some blocks. */
    static lemma AppendingNew(t0: Tree, t2: Tree, e: NodeId, node: NodeId, kind: NodeType)
      requires t0.Valid() && e < |t0.nodes| && node == |t0.nodes| && t2.Valid() && EdgesOk(t2)
      requires SameLinks(WithNode(t0, kind), t2) && EdgeOk(t2.Kind(e), kind)
      requires forall x :: 0 <= x < |t2.nodes| ==> t2.nodes[x].data == WithNode(t0, kind).nodes[x].data
      ensures !t2.Under(e, node) && t2.Unlinked(node) == t2
      ensures var t := t2.Appended(e, node);
              t.Valid() && EdgesOk(t) && Added(t0, t, e, node, kind) && t.nodes[node].data == NoData
              && |t.nodes| == node + 1 && (forall x :: 0 <= x < |t0.nodes| ==> t.Kind(x) == t0.Kind(x))
    {
      hide Tree.Under;
      var t1 := WithNode(t0, kind);
      WithNodeGrows(t0, kind);
      SameLinksGrown(t1, t2, e);
      GrownTrans(t0, t1, t2, e, e);
      t2.UnlinkRoot(node);
      AppendGrows(t0, t2, e, e, node);
      EdgesAfterAppend(t2, e, node);
      t2.AppendKeeps(e, node);
      var t := t2.Appended(e, node);
      assert SamePayload(t2.nodes[node], t.nodes[node]);
      assert Same(t0, t, e) && t.UpOk(node);
      forall x | 0 <= x < |t0.nodes| ensures t.Kind(x) == t0.Kind(x) { assert Same(t0, t, x); }
    }

    static lemma SameLinksGrown(t: Tree, u: Tree, e: NodeId)
      requires t.Valid() && u.Valid() && SameLinks(t, u) && e < |t.nodes|
      requires forall x :: 0 <= x < |t.nodes| ==> t.nodes[x].data == u.nodes[x].data
      ensures Grown(t, u, e)
    {
      forall x | 0 <= x < |t.nodes| ensures Same(t, u, x) {}
    }

    static lemma {:induction false} ClimbGrown(t0: Tree, t: Tree, x: NodeId, kind: NodeType, e: NodeId)
      requires t0.Valid() && e < |t0.nodes| ==> Grown(t0, t, e)
      requires t0.Valid() && t.Valid() && x < |t0.nodes| <= |t.nodes| && ClimbsTo(t0, x, kind, e)
      requires forall y :: 0 <= y < |t0.nodes| ==> Same(t0, t, y)
      ensures ClimbsTo(t, x, kind, e) && e < |t0.nodes|
      decreases t0.level[x]
    {
      assert Same(t0, t, x);
      if !t0.Kind(x).CanContain(kind) {
        assert t0.UpOk(x) && t.UpOk(x);
        ClimbGrown(t0, t, t0.Parent(x).value, kind, e);
      }
    }

    /** Appends a block of `kind` holding `content`. */
    method AddBlock(kind: NodeType, content: bytes, ghost e: NodeId) returns (node: NodeId)
      requires Valid() && !kind.IsInline() && ClimbsTo(arena.T(), tip, kind, e)
      modifies this`tip, this`oldTip, this`allClosed, arena
      ensures Valid() && tip == node && e < |old(arena.nodes)|
      ensures Added(old(arena.T()), arena.T(), e, node, kind)
      ensures arena.nodes[node].data == NoData.(content := content)
    {
      ghost var t0 := arena.T();
      CloseUnmatchedBlocks();
      node := AddChild(kind, e);
      DataGrows(t0, arena.T(), e, node, NoData.(content := content));
      arena.SetData(node, NoData.(content := content));
    }
  }
}
