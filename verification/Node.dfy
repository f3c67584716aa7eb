/** The syntax-tree node and the link surgery of src/node.rs, on values. */
module Node {
  import opened Bytes

  type NodeId = nat

  datatype NodeType =
    | Document | BlockQuote | List | Item | Paragraph | Heading | HorizontalRule
    | Emph | Strong | Del | Link | Image | Text | HTMLBlock | CodeBlock
    | Softbreak | Hardbreak | Code | HTMLSpan
    | Table | TableCell | TableHead | TableBody | TableRow
  {
    predicate IsContainer() {
      match this
      case Document => true case BlockQuote => true case List => true case Item => true
      case Paragraph => true case Heading => true case Emph => true case Strong => true
      case Del => true case Link => true case Image => true case Table => true
      case TableHead => true case TableBody => true case TableRow => true case TableCell => true
      case _ => false
    }

    predicate CanContain(t: NodeType) {
      match this
      case List => t.Item?
      case Document => !t.Item?
      case BlockQuote => !t.Item?
      case Item => !t.Item?
      case Table => t.TableHead? || t.TableBody?
      case TableHead => t.TableRow?
      case TableBody => t.TableRow?
      case TableRow => t.TableCell?
      case _ => false
    }

    /** Node types made by the inline parser. */
    predicate IsInline() {
      Emph? || Strong? || Del? || Link? || Image? || Text? || Softbreak? || Hardbreak? || Code? || HTMLSpan?
    }

    /** Node types under which the inline parser puts what it finds. */
    predicate HostsInline() {
      Paragraph? || Heading? || TableCell? || Emph? || Strong? || Del? || Link? || Item?
    }
  }

  datatype ListType = ListType(ordered: bool, definition: bool, term: bool,
                               containsBlock: bool, beginningOfList: bool, endOfList: bool)

  const NoListType := ListType(false, false, false, false, false, false)

  datatype CellAlign = CellAlign(left: bool, right: bool)

  datatype HeadingData = HeadingData(level: nat, id: bytes, isTitleblock: bool)
  datatype ListData = ListData(flags: ListType, tight: bool, bulletChar: byte, delimiter: byte,
                               refLink: Option<bytes>, isFootnotesList: bool)
  datatype LinkData = LinkData(destination: bytes, title: Option<bytes>, noteId: nat, footnote: Option<NodeId>)
  datatype CodeBlockData = CodeBlockData(isFenced: bool, info: bytes, fenceLength: nat)
  datatype TableCellData = TableCellData(isHeader: bool, align: CellAlign)

  /** The payload of a node; only the part its type calls for is populated. */
  datatype Data = Data(literal: bytes, content: bytes, heading: HeadingData, list: ListData,
                       link: LinkData, codeBlock: CodeBlockData, cell: TableCellData)

  const NoData: Data :=
    Data("", "", HeadingData(0, "", false),
         ListData(NoListType, false, 0 as char, 0 as char, None, false),
         LinkData("", None, 0, None), CodeBlockData(false, "", 0),
         TableCellData(false, CellAlign(false, false)))

  datatype Links = Links(parent: Option<NodeId>, firstChild: Option<NodeId>, lastChild: Option<NodeId>,
                         prev: Option<NodeId>, next: Option<NodeId>)

  const NoLinks := Links(None, None, None, None, None)

  datatype Node = Node(kind: NodeType, links: Links, open: bool, data: Data)

  /** An ordinary link has a destination: the renderer looks at its first byte. */
  predicate GoesSomewhere(n: Node) {
    n.kind.Link? && n.data.link.noteId == 0 ==> n.data.link.destination != []
  }

  function SetParent(ns: seq<Node>, i: NodeId, v: Option<NodeId>): seq<Node>
    requires i < |ns|
  {
    ns[i := ns[i].(links := ns[i].links.(parent := v))]
  }

  function SetFirst(ns: seq<Node>, i: NodeId, v: Option<NodeId>): seq<Node>
    requires i < |ns|
  {
    ns[i := ns[i].(links := ns[i].links.(firstChild := v))]
  }

  function SetLast(ns: seq<Node>, i: NodeId, v: Option<NodeId>): seq<Node>
    requires i < |ns|
  {
    ns[i := ns[i].(links := ns[i].links.(lastChild := v))]
  }

  function SetPrev(ns: seq<Node>, i: NodeId, v: Option<NodeId>): seq<Node>
    requires i < |ns|
  {
    ns[i := ns[i].(links := ns[i].links.(prev := v))]
  }

  function SetNext(ns: seq<Node>, i: NodeId, v: Option<NodeId>): seq<Node>
    requires i < |ns|
  {
    ns[i := ns[i].(links := ns[i].links.(next := v))]
  }

  // ----- child sequences -----

  ghost predicate NoDup(s: seq<NodeId>) {
    forall i, j :: 0 <= i < j < |s| ==> s[i] != s[j]
  }

  function IndexOf(s: seq<NodeId>, x: NodeId): (i: nat)
    requires x in s
    ensures i < |s| && s[i] == x
  {
    if s[0] == x then 0 else 1 + IndexOf(s[1..], x)
  }

  function RemoveAt(s: seq<NodeId>, i: nat): seq<NodeId>
    requires i < |s|
  {
    s[..i] + s[i + 1..]
  }

  function Without(s: seq<NodeId>, x: NodeId): seq<NodeId> {
    if x in s then RemoveAt(s, IndexOf(s, x)) else s
  }

  /** `x` placed immediately before `y`. */
  function Spliced(s: seq<NodeId>, x: NodeId, y: NodeId): seq<NodeId>
    requires y in s
  {
    s[..IndexOf(s, y)] + [x] + s[IndexOf(s, y)..]
  }

  function At(s: seq<NodeId>, i: int): Option<NodeId> {
    if 0 <= i < |s| then Some(s[i]) else None
  }

  lemma RemoveIndex(s: seq<NodeId>, i: nat)
    requires i < |s|
    ensures |RemoveAt(s, i)| == |s| - 1
    ensures forall k :: 0 <= k < |s| - 1 ==> RemoveAt(s, i)[k] == if k < i then s[k] else s[k + 1]
  {
  }

  lemma WithoutProps(s: seq<NodeId>, x: NodeId)
    requires NoDup(s)
    ensures NoDup(Without(s, x)) && x !in Without(s, x)
    ensures forall y :: y != x ==> (y in Without(s, x) <==> y in s)
  {
    if x in s {
      RemoveIndex(s, IndexOf(s, x));
      hide RemoveAt;
      var i, w := IndexOf(s, x), Without(s, x);
      forall y | y != x && y in s ensures y in w {
        var j :| 0 <= j < |s| && s[j] == y;
        assert w[if j < i then j else j - 1] == y;
      }
    }
  }

  lemma RemoveStep(s: seq<NodeId>, i: nat, k: int)
    requires i < |s| && -1 <= k
    ensures At(RemoveAt(s, i), k) == if k < i then At(s, k) else At(s, k + 1)
  {
    RemoveIndex(s, i);
    hide RemoveAt;
  }

  /** Neighbours after one element is taken out. */
  lemma {:induction false} WithoutAt(s: seq<NodeId>, x: NodeId, k: nat)
    requires NoDup(s) && x in s && k < |Without(s, x)|
    ensures var i := IndexOf(s, x);
            var j := if k < i then k else k + 1;
            j < |s| && s[j] != x && Without(s, x)[k] == s[j]
            && At(Without(s, x), k - 1) == (if j == i + 1 then At(s, i - 1) else At(s, j - 1))
            && At(Without(s, x), k + 1) == (if j + 1 == i then At(s, i + 1) else At(s, j + 1))
  {
    hide NoDup, At, IndexOf, RemoveAt;
    OtherPlace(s, IndexOf(s, x), if k < IndexOf(s, x) then k else k + 1);
    RemoveAround(s, IndexOf(s, x), k);
  }

  lemma RemoveAround(s: seq<NodeId>, i: nat, k: nat)
    requires i < |s| && k < |RemoveAt(s, i)|
    ensures var j := if k < i then k else k + 1;
            j < |s| && RemoveAt(s, i)[k] == s[j]
            && At(RemoveAt(s, i), k - 1) == (if j == i + 1 then At(s, i - 1) else At(s, j - 1))
            && At(RemoveAt(s, i), k + 1) == (if j + 1 == i then At(s, i + 1) else At(s, j + 1))
  {
    RemoveIndex(s, i);
    assert RemoveAt(s, i)[k] == s[if k < i then k else k + 1];
    hide At, RemoveAt;
    RemoveStep(s, i, k - 1);
    RemoveStep(s, i, k + 1);
  }

  lemma OtherPlace(s: seq<NodeId>, i: nat, j: nat)
    requires NoDup(s) && i < |s| && i != j
    ensures j < |s| ==> s[j] != s[i]
  {
  }

  lemma RemoveEnds(s: seq<NodeId>, i: nat)
    requires i < |s|
    ensures var w := RemoveAt(s, i);
            At(w, 0) == (if i == 0 then At(s, 1) else At(s, 0)) &&
            At(w, |w| - 1) == (if i == |s| - 1 then At(s, i - 1) else At(s, |s| - 1))
  {
    RemoveIndex(s, i);
    RemoveStep(s, i, 0);
    RemoveStep(s, i, |s| - 2);
    hide RemoveAt;
  }

  lemma WithoutEnds(s: seq<NodeId>, x: NodeId)
    ensures x !in s ==> Without(s, x) == s
    ensures x in s ==>
      var i, w := IndexOf(s, x), Without(s, x);
      At(w, 0) == (if i == 0 then At(s, 1) else At(s, 0)) &&
      At(w, |w| - 1) == (if i == |s| - 1 then At(s, i - 1) else At(s, |s| - 1))
  {
    if x in s { RemoveEnds(s, IndexOf(s, x)); }
    hide RemoveAt, At, IndexOf;
  }

  // ----- the five-link invariant -----

  /** Nodes with, in ghost terms, what their links mean: the child sequence of
      every node and its depth below the root of its own tree. */
  datatype Tree = Tree(nodes: seq<Node>, kids: seq<seq<NodeId>>, level: seq<nat>) {

    ghost predicate Valid() {
      && |kids| == |nodes| && |level| == |nodes|
      && (forall p :: 0 <= p < |nodes| ==> KidsOk(p))
      && (forall c :: 0 <= c < |nodes| ==> UpOk(c))
    }

    /** The children of `p`, in order, are a chain that is inverse both ways,
        starts and ends where `p` says, and points back to `p`. */
    ghost predicate KidsOk(p: NodeId)
      requires |kids| == |nodes| && p < |nodes|
    {
      && NoDup(kids[p])
      && nodes[p].links.firstChild == At(kids[p], 0)
      && nodes[p].links.lastChild == At(kids[p], |kids[p]| - 1)
      && (forall k :: 0 <= k < |kids[p]| ==> KidOk(p, k))
    }

    ghost predicate KidOk(p: NodeId, k: nat)
      requires |kids| == |nodes| && p < |nodes| && k < |kids[p]|
    {
      var c := kids[p][k];
      && c < |nodes|
      && nodes[c].links.parent == Some(p)
      && nodes[c].links.prev == At(kids[p], k - 1)
      && nodes[c].links.next == At(kids[p], k + 1)
    }

    /** A child is one level below its parent, so no chain of parents is a cycle. */
    ghost predicate UpOk(c: NodeId)
      requires |kids| == |nodes| && |level| == |nodes| && c < |nodes|
    {
      match nodes[c].links.parent
      case None => nodes[c].links.prev == None && nodes[c].links.next == None && level[c] == 0
      case Some(p) => p < |nodes| && c in kids[p] && level[c] == level[p] + 1
    }

    function Parent(x: NodeId): Option<NodeId>
      requires x < |nodes|
    {
      nodes[x].links.parent
    }

    function Kind(x: NodeId): NodeType
      requires x < |nodes|
    {
      nodes[x].kind
    }

    /** `x` is `a` or one of its descendants. */
    ghost predicate Under(x: NodeId, a: NodeId)
      requires Valid() && x < |nodes|
      decreases level[x]
    {
      x == a || (Parent(x).Some? && (assert UpOk(x); Under(Parent(x).value, a)))
    }

    /** Depths after the subtree at `c` is given depth `base`. */
    ghost function Relevel(c: NodeId, base: nat): (l: seq<nat>)
      requires Valid() && c < |nodes|
      ensures |l| == |nodes|
    {
      seq(|nodes|, x requires 0 <= x < |nodes| => NewLevel(x, c, base))
    }

    ghost function NewLevel(x: NodeId, c: NodeId, base: nat): nat
      requires Valid() && c < |nodes| && x < |nodes|
    {
      if Under(x, c) then (UnderIsDeeper(x, c); base + (level[x] - level[c])) else level[x]
    }

    lemma {:induction false} UnderIsDeeper(x: NodeId, a: NodeId)
      requires Valid() && x < |nodes| && a < |nodes| && Under(x, a)
      ensures level[a] <= level[x] && (x != a ==> level[a] < level[x])
      decreases level[x]
    {
      if x != a {
        assert UpOk(x);
        UnderIsDeeper(Parent(x).value, a);
      }
    }

    lemma KidOf(p: NodeId, c: NodeId)
      requires Valid() && p < |nodes| && c in kids[p]
      ensures c < |nodes| && Parent(c) == Some(p) && level[c] == level[p] + 1
      ensures var k := IndexOf(kids[p], c);
              nodes[c].links.prev == At(kids[p], k - 1) && nodes[c].links.next == At(kids[p], k + 1)
    {
      assert KidsOk(p);
      assert KidOk(p, IndexOf(kids[p], c));
      assert UpOk(c);
    }

    lemma ParentOf(c: NodeId)
      requires Valid() && c < |nodes| && Parent(c).Some?
      ensures Parent(c).value < |nodes| && c in kids[Parent(c).value]
    {
      assert UpOk(c);
    }

    // ----- unlink -----

    ghost function Unlinked(id: NodeId): (u: Tree)
      requires Valid() && id < |nodes|
      ensures |u.nodes| == |nodes| && |u.kids| == |nodes| && |u.level| == |nodes|
    {
      LinksInRange(id);
      Tree(UnlinkNodes(nodes, id),
           match Parent(id)
             case None => kids
             case Some(p) => kids[p := Without(kids[p], id)],
           Relevel(id, 0))
    }

    lemma LinksInRange(id: NodeId)
      requires Valid() && id < |nodes|
      ensures InRange(nodes, id)
      ensures nodes[id].links.prev.Some? ==> Parent(id).Some? && nodes[id].links.prev.value in kids[Parent(id).value]
      ensures nodes[id].links.next.Some? ==> Parent(id).Some? && nodes[id].links.next.value in kids[Parent(id).value]
    {
      assert UpOk(id) && KidsOk(id);
      if kids[id] != [] { assert KidOk(id, |kids[id]| - 1); }
      if Parent(id).Some? {
        var p := Parent(id).value;
        KidOf(p, id);
        assert KidsOk(p);
        var i := IndexOf(kids[p], id);
        if i > 0 { assert KidOk(p, i - 1); }
        if i + 1 < |kids[p]| { assert KidOk(p, i + 1); }
      }
    }

    lemma UnlinkKids(id: NodeId, p: NodeId)
      requires Valid() && id < |nodes| && p < |nodes|
      ensures Unlinked(id).KidsOk(p)
    {
      var u := Unlinked(id);
      UnlinkEnds(id, p);
      forall k: nat | k < |u.kids[p]| ensures u.KidOk(p, k) {
        UnlinkKid(id, p, k);
      }
    }

    /** What unlinking does to the links of one node. */
    lemma UnlinkEffect(id: NodeId, x: NodeId)
      requires Valid() && id < |nodes| && x < |nodes|
      ensures var l, a, b := nodes[id].links, nodes[x].links, Unlinked(id).nodes[x].links;
              b == Links(if x == id then None else a.parent,
                         if l.parent == Some(x) && l.prev == None then l.next else a.firstChild,
                         if l.parent == Some(x) && l.next == None then l.prev else a.lastChild,
                         if x == id then None else if l.next == Some(x) then l.prev else a.prev,
                         if x == id then None else if l.prev == Some(x) then l.next else a.next)
    {
      LinksInRange(id);
    }

    /** Where the siblings of `id` sit. */
    lemma Siblings(id: NodeId, p: NodeId, k: nat)
      requires Valid() && id < |nodes| && p < |nodes| && k < |kids[p]|
      ensures kids[p][k] < |nodes| && Parent(kids[p][k]) == Some(p)
      ensures var c, l := kids[p][k], nodes[id].links;
              (l.prev == Some(c) <==> k + 1 < |kids[p]| && kids[p][k + 1] == id) &&
              (l.next == Some(c) <==> k > 0 && kids[p][k - 1] == id)
    {
      assert KidsOk(p) && KidOk(p, k) && UpOk(id);
      if Parent(id) == Some(p) {
        KidOf(p, id);
        var i := IndexOf(kids[p], id);
        assert forall j :: 0 <= j < |kids[p]| && kids[p][j] == id ==> j == i;
      } else {
        if Parent(id).Some? { SiblingElsewhere(id, Parent(id).value); }
        if k > 0 { assert KidOk(p, k - 1); }
        if k + 1 < |kids[p]| { assert KidOk(p, k + 1); }
      }
    }

    lemma SiblingElsewhere(id: NodeId, q: NodeId)
      requires Valid() && id < |nodes| && Parent(id) == Some(q)
      ensures q < |nodes|
      ensures nodes[id].links.prev.Some? ==>
                nodes[id].links.prev.value < |nodes| && Parent(nodes[id].links.prev.value) == Some(q)
      ensures nodes[id].links.next.Some? ==>
                nodes[id].links.next.value < |nodes| && Parent(nodes[id].links.next.value) == Some(q)
    {
      assert UpOk(id);
      KidOf(q, id);
      var i := IndexOf(kids[q], id);
      assert KidsOk(q);
      if i > 0 { assert KidOk(q, i - 1); }
      if i + 1 < |kids[q]| { assert KidOk(q, i + 1); }
    }

    lemma UnlinkEnds(id: NodeId, p: NodeId)
      requires Valid() && id < |nodes| && p < |nodes|
      ensures var u := Unlinked(id);
              NoDup(u.kids[p])
              && u.nodes[p].links.firstChild == At(u.kids[p], 0)
              && u.nodes[p].links.lastChild == At(u.kids[p], |u.kids[p]| - 1)
    {
      hide Relevel, Under, Without, IndexOf;
      UnlinkEffect(id, p);
      assert KidsOk(p) && UpOk(id);
      WithoutProps(kids[p], id);
      WithoutEnds(kids[p], id);
      if Parent(id) == Some(p) { KidOf(p, id); }
    }

    lemma UnlinkKid(id: NodeId, p: NodeId, k: nat)
      requires Valid() && id < |nodes| && p < |nodes| && k < |Unlinked(id).kids[p]|
      ensures Unlinked(id).KidOk(p, k)
    {
      hide Relevel, Under, UnlinkNodes, InRange;
      assert KidsOk(p) && UpOk(id);
      if Parent(id) == Some(p) {
        KidOf(p, id);
        UnlinkSibling(id, p, k);
      } else {
        assert KidOk(p, k);
        Siblings(id, p, k);
        assert id !in kids[p] by { if id in kids[p] { KidOf(p, id); } }
        UnlinkEffect(id, kids[p][k]);
      }
    }

    lemma UnlinkSibling(id: NodeId, p: NodeId, k: nat)
      requires Valid() && id < |nodes| && p < |nodes| && Parent(id) == Some(p) && id in kids[p]
      requires k < |Unlinked(id).kids[p]|
      ensures Unlinked(id).KidOk(p, k)
    {
      hide Relevel, Under, UnlinkNodes, InRange, Without, IndexOf;
      assert KidsOk(p);
      KidOf(p, id);
      WithoutAt(kids[p], id, k);
      var i := IndexOf(kids[p], id);
      var j := if k < i then k else k + 1;
      assert KidOk(p, j);
      Siblings(id, p, j);
      UnlinkEffect(id, kids[p][j]);
    }

    lemma UnlinkUp(id: NodeId, c: NodeId)
      requires Valid() && id < |nodes| && c < |nodes|
      ensures Unlinked(id).UpOk(c)
    {
      var u := Unlinked(id);
      UnlinkEffect(id, c);
      assert UpOk(c) && UpOk(id) && Under(id, id);
      if c != id {
        match Parent(c)
        case Some(p) =>
          assert KidsOk(p);
          WithoutProps(kids[p], id);
          assert Under(c, id) <==> Under(p, id);
        case None =>
          if Parent(id).Some? { SiblingElsewhere(id, Parent(id).value); }
      }
    }

    /** `unlink` removes one child and changes nothing else. */
    lemma UnlinkKeeps(id: NodeId)
      requires Valid() && id < |nodes|
      ensures Unlinked(id).Valid()
      ensures Unlinked(id).Parent(id) == None
      ensures forall x :: 0 <= x < |nodes| && x != id ==> Unlinked(id).Parent(x) == Parent(x)
      ensures forall x :: 0 <= x < |nodes| ==> SamePayload(nodes[x], Unlinked(id).nodes[x])
    {
      hide Unlinked, KidsOk, UpOk, SamePayload;
      var u := Unlinked(id);
      forall x | 0 <= x < |nodes|
        ensures SamePayload(nodes[x], u.nodes[x])
        ensures u.Parent(x) == if x == id then None else Parent(x)
        ensures u.KidsOk(x) && u.UpOk(x)
      {
        UnlinkPayload(id, x);
        UnlinkKids(id, x);
        UnlinkUp(id, x);
      }
    }

    lemma UnlinkPayload(id: NodeId, x: NodeId)
      requires Valid() && id < |nodes| && x < |nodes|
      ensures SamePayload(nodes[x], Unlinked(id).nodes[x])
      ensures Unlinked(id).Parent(x) == if x == id then None else Parent(x)
    {
      UnlinkEffect(id, x);
      LinksInRange(id);
    }

    /** A root is already unlinked. */
    lemma UnlinkRoot(id: NodeId)
      requires Valid() && id < |nodes| && Parent(id) == None
      ensures Unlinked(id) == this
    {
      assert UpOk(id);
      var u := Unlinked(id);
      forall x | 0 <= x < |nodes| ensures u.level[x] == level[x] {}
      assert u.level == level;
      assert u.nodes == nodes;
    }

    lemma {:induction false} UnderAfterUnlink(id: NodeId, x: NodeId)
      requires Valid() && id < |nodes| && x < |nodes| && Unlinked(id).Valid()
      ensures Unlinked(id).Under(x, id) <==> Under(x, id)
      decreases level[x]
    {
      UnlinkKeeps(id);
      assert UpOk(x);
      if x != id && Parent(x).Some? { UnderAfterUnlink(id, Parent(x).value); }
    }

    // ----- append and insert: linking a root below `p` -----

    /** `c` becomes a child of `p` at the place `to` says. */
    ghost function Relinked(ns: seq<Node>, p: NodeId, c: NodeId, to: seq<NodeId>): (u: Tree)
      requires Valid() && p < |nodes| && c < |nodes|
      ensures u.nodes == ns && |u.kids| == |nodes| && |u.level| == |nodes|
    {
      Tree(ns, kids[p := to], Relevel(c, level[p] + 1))
    }

    /** Depths and parents after linking, whatever the sibling order. */
    lemma RelinkUp(ns: seq<Node>, p: NodeId, c: NodeId, to: seq<NodeId>, x: NodeId)
      requires Valid() && p < |nodes| && c < |nodes| && x < |nodes|
      requires Parent(c) == None && !Under(p, c)
      requires |ns| == |nodes| && c in to && (forall y :: y in kids[p] ==> y in to)
      requires ns[x].links.parent == if x == c then Some(p) else Parent(x)
      requires x != c && Parent(x) == None ==> ns[x].links.prev == None && ns[x].links.next == None
      ensures Relinked(ns, p, c, to).UpOk(x)
    {
      assert UpOk(x) && Under(c, c);
      if x != c && Parent(x).Some? {
        assert Under(x, c) <==> Under(Parent(x).value, c);
      }
    }

    ghost function Appended(p: NodeId, c: NodeId): (u: Tree)
      requires Valid() && p < |nodes| && c < |nodes|
      ensures |u.nodes| == |nodes| && |u.kids| == |nodes| && |u.level| == |nodes|
    {
      LinksInRange(p);
      Relinked(AppendNodes(nodes, p, c), p, c, kids[p] + [c])
    }

    lemma AppendEffect(p: NodeId, c: NodeId, x: NodeId)
      requires Valid() && p < |nodes| && c < |nodes| && x < |nodes| && p != c
      requires Parent(c) == None
      ensures var a, b := nodes[x].links, Appended(p, c).nodes[x].links;
              b == Links(if x == c then Some(p) else a.parent,
                         if x == p && kids[p] == [] then Some(c) else a.firstChild,
                         if x == p then Some(c) else a.lastChild,
                         if x == c then At(kids[p], |kids[p]| - 1) else a.prev,
                         if x != c && Some(x) == At(kids[p], |kids[p]| - 1) then Some(c) else a.next)
    {
      LinksInRange(p);
      assert UpOk(c) && KidsOk(p) && UpOk(p);
      if kids[p] != [] {
        assert KidOk(p, |kids[p]| - 1) && UpOk(kids[p][|kids[p]| - 1]);
        assert level[kids[p][|kids[p]| - 1]] > level[p];
      }
    }

    lemma AppendKid(p: NodeId, c: NodeId, q: NodeId, k: nat)
      requires Valid() && p < |nodes| && c < |nodes| && q < |nodes| && p != c && Parent(c) == None
      requires k < |Appended(p, c).kids[q]|
      ensures Appended(p, c).KidOk(q, k)
    {
      assert KidsOk(q) && KidsOk(p);
      if k < |kids[q]| {
        assert KidOk(q, k);
        AppendEffect(p, c, kids[q][k]);
        if kids[p] != [] { assert KidOk(p, |kids[p]| - 1); }
      } else {
        assert UpOk(c);
        AppendEffect(p, c, c);
      }
    }

    /** `append_child` of a root that is not above its new parent. */
    lemma AppendKeeps(p: NodeId, c: NodeId)
      requires Valid() && p < |nodes| && c < |nodes| && Parent(c) == None && !Under(p, c)
      ensures Appended(p, c).Valid()
      ensures forall x :: 0 <= x < |nodes| ==> SamePayload(nodes[x], Appended(p, c).nodes[x])
      ensures forall x :: 0 <= x < |nodes| ==> Appended(p, c).Parent(x) == if x == c then Some(p) else Parent(x)
    {
      hide Appended, KidsOk, UpOk, SamePayload, Under;
      var u := Appended(p, c);
      forall x | 0 <= x < |nodes|
        ensures u.KidsOk(x) && u.UpOk(x)
        ensures SamePayload(nodes[x], u.nodes[x])
        ensures u.Parent(x) == if x == c then Some(p) else Parent(x)
      {
        AppendPayload(p, c, x);
        AppendOne(p, c, x);
      }
    }

    lemma AppendPayload(p: NodeId, c: NodeId, x: NodeId)
      requires Valid() && p < |nodes| && c < |nodes| && Parent(c) == None && !Under(p, c) && x < |nodes|
      ensures SamePayload(nodes[x], Appended(p, c).nodes[x])
      ensures Appended(p, c).Parent(x) == if x == c then Some(p) else Parent(x)
    {
      LinksInRange(p);
      AppendEffect(p, c, x);
    }

    lemma AppendOne(p: NodeId, c: NodeId, x: NodeId)
      requires Valid() && p < |nodes| && c < |nodes| && Parent(c) == None && !Under(p, c) && x < |nodes|
      ensures Appended(p, c).KidsOk(x) && Appended(p, c).UpOk(x)
    {
      var u := Appended(p, c);
      AppendEffect(p, c, x);
      assert UpOk(x) && KidsOk(x) && UpOk(c);
      assert KidsOk(p);
      if kids[p] != [] { assert KidOk(p, |kids[p]| - 1); }
      RelinkUp(u.nodes, p, c, u.kids[p], x);
      assert c !in kids[p] by { if c in kids[p] { KidOf(p, c); } }
      forall k: nat | k < |u.kids[x]| ensures u.KidOk(x, k) { AppendKid(p, c, x, k); }
    }

    ghost function Inserted(p: NodeId, node: NodeId, c: NodeId): (u: Tree)
      requires Valid() && p < |nodes| && c < |nodes| && node in kids[p]
      ensures |u.nodes| == |nodes| && |u.kids| == |nodes| && |u.level| == |nodes|
    {
      KidOf(p, node);
      LinksInRange(node);
      Relinked(InsertNodes(nodes, node, c), p, c, Spliced(kids[p], c, node))
    }

    lemma InsertEffect(p: NodeId, node: NodeId, c: NodeId, x: NodeId)
      requires Valid() && p < |nodes| && c < |nodes| && x < |nodes| && p != c && node in kids[p]
      requires Parent(c) == None
      ensures var a, b := nodes[x].links, Inserted(p, node, c).nodes[x].links;
              var prev := At(kids[p], IndexOf(kids[p], node) - 1);
              b == Links(if x == c then Some(p) else a.parent,
                         if x == p && prev == None then Some(c) else a.firstChild,
                         a.lastChild,
                         if x == c then prev else if x == node then Some(c) else a.prev,
                         if x == c then Some(node) else if Some(x) == prev then Some(c) else a.next)
    {
      KidOf(p, node);
      LinksInRange(node);
      assert KidsOk(p);
      var i := IndexOf(kids[p], node);
      if i > 0 { assert KidOk(p, i - 1); }
      InsertNodesEffect(nodes, node, c, x);
    }

    lemma SplicedProps(s: seq<NodeId>, x: NodeId, y: NodeId)
      requires NoDup(s) && y in s && x !in s
      ensures var r := Spliced(s, x, y);
              NoDup(r) && x in r && (forall z :: z in s ==> z in r)
      ensures var i, r := IndexOf(s, y), Spliced(s, x, y);
              |r| == |s| + 1 && (forall k :: 0 <= k < |r| ==>
                  r[k] == if k < i then s[k] else if k == i then x else s[k - 1])
    {
      var i, r := IndexOf(s, y), Spliced(s, x, y);
      assert r[i] == x;
      forall z | z in s ensures z in r {
        var j :| 0 <= j < |s| && s[j] == z;
        assert r[if j < i then j else j + 1] == z;
      }
    }

    lemma InsertKidElsewhere(p: NodeId, node: NodeId, c: NodeId, q: NodeId, k: nat)
      requires Valid() && p < |nodes| && c < |nodes| && q < |nodes| && p != c && node in kids[p] && Parent(c) == None
      requires q != p && k < |Inserted(p, node, c).kids[q]|
      ensures Inserted(p, node, c).KidOk(q, k)
    {
      assert KidsOk(q) && KidsOk(p) && KidOk(q, k);
      KidOf(p, node);
      var i := IndexOf(kids[p], node);
      if i > 0 { assert KidOk(p, i - 1); }
      InsertEffect(p, node, c, kids[q][k]);
    }

    /** The neighbours of an element after one was spliced in. */
    lemma SplicedNear(s: seq<NodeId>, x: NodeId, y: NodeId, k: nat)
      requires NoDup(s) && y in s && x !in s && k < |Spliced(s, x, y)|
      ensures var i, r := IndexOf(s, y), Spliced(s, x, y);
              if k == i then r[k] == x && At(r, k - 1) == At(s, i - 1) && At(r, k + 1) == Some(y)
              else
                var j := if k > i then k - 1 else k;
                && j < |s| && r[k] == s[j] && s[j] != x && (s[j] == y <==> j == i)
                && (Some(s[j]) == At(s, i - 1) <==> j == i - 1)
                && At(r, k - 1) == (if j == i then Some(x) else At(s, j - 1))
                && At(r, k + 1) == (if j == i - 1 then Some(x) else At(s, j + 1))
    {
      hide NoDup, At, IndexOf;
      var i: int := IndexOf(s, y);
      SpliceStep(s, i, x, k);
      SpliceStep(s, i, x, k - 1);
      SpliceStep(s, i, x, k + 1);
      if k != i {
        var j := if k > i then k - 1 else k;
        OnePlace(s, j, i);
        OnePlace(s, j, i - 1);
      }
    }

    lemma SpliceStep(s: seq<NodeId>, i: nat, x: NodeId, k: int)
      requires i <= |s|
      ensures At(s[..i] + [x] + s[i..], k) == if k < i then At(s, k) else if k == i then Some(x) else At(s, k - 1)
      ensures 0 <= k <= |s| ==> (s[..i] + [x] + s[i..])[k] == if k < i then s[k] else if k == i then x else s[k - 1]
      ensures i < |s| ==> At(s, i) == Some(s[i])
    {
    }

    lemma OnePlace(s: seq<NodeId>, a: nat, b: int)
      requires NoDup(s) && a < |s|
      ensures Some(s[a]) == At(s, b) <==> a == b
      ensures 0 <= b < |s| ==> (s[a] == s[b] <==> a == b)
    {
    }

    lemma InsertKid(p: NodeId, node: NodeId, c: NodeId, k: nat)
      requires Valid() && p < |nodes| && c < |nodes| && p != c && node in kids[p] && Parent(c) == None
      requires k < |Inserted(p, node, c).kids[p]|
      ensures Inserted(p, node, c).KidOk(p, k)
    {
      var i := IndexOf(kids[p], node);
      SplicedKids(p, node, c, k);
      KidOf(p, node);
      hide Valid, Inserted, Spliced, At, IndexOf, NoDup, KidsOk;
      if k == i {
        InsertEffect(p, node, c, c);
      } else {
        InsertEffect(p, node, c, kids[p][if k > i then k - 1 else k]);
      }
    }

    /** What the splice does to the children, for the child that ends up at `k`. */
    lemma SplicedKids(p: NodeId, node: NodeId, c: NodeId, k: nat)
      requires Valid() && p < |nodes| && c < |nodes| && p != c && node in kids[p] && Parent(c) == None
      requires k < |Inserted(p, node, c).kids[p]|
      ensures Inserted(p, node, c).kids[p] == Spliced(kids[p], c, node) && NoDup(kids[p]) && c !in kids[p]
      ensures var i, r, s := IndexOf(kids[p], node), Spliced(kids[p], c, node), kids[p];
              if k == i then r[k] == c && At(r, k - 1) == At(s, i - 1) && At(r, k + 1) == Some(node)
              else
                var j := if k > i then k - 1 else k;
                && j < |s| && r[k] == s[j] && s[j] != c && (s[j] == node <==> j == i)
                && (Some(s[j]) == At(s, i - 1) <==> j == i - 1)
                && At(r, k - 1) == (if j == i then Some(c) else At(s, j - 1))
                && At(r, k + 1) == (if j == i - 1 then Some(c) else At(s, j + 1))
                && KidOk(p, j)
    {
      hide Spliced, At, IndexOf, NoDup, KidOk, UpOk, Under;
      NotKid(p, c);
      SplicedNear(kids[p], c, node, k);
    }

    lemma NotKid(p: NodeId, c: NodeId)
      requires Valid() && p < |nodes| && c < |nodes| && Parent(c) == None
      ensures c !in kids[p] && KidsOk(p)
    {
      if c in kids[p] { KidOf(p, c); }
    }

    lemma InsertOne(p: NodeId, node: NodeId, c: NodeId, x: NodeId)
      requires Valid() && p < |nodes| && c < |nodes| && node in kids[p] && Parent(c) == None && !Under(p, c)
      requires x < |nodes|
      ensures Inserted(p, node, c).KidsOk(x) && Inserted(p, node, c).UpOk(x)
    {
      var u := Inserted(p, node, c);
      InsertEffect(p, node, c, x);
      assert UpOk(x) && KidsOk(x) && UpOk(c);
      KidOf(p, node);
      if x != c && Parent(x) == None && IndexOf(kids[p], node) > 0 {
        assert KidsOk(p) && KidOk(p, IndexOf(kids[p], node) - 1);
      }
      assert c !in kids[p] by { if c in kids[p] { KidOf(p, c); } }
      assert KidsOk(p);
      SplicedProps(kids[p], c, node);
      RelinkUp(u.nodes, p, c, u.kids[p], x);
      forall k: nat | k < |u.kids[x]| ensures u.KidOk(x, k) {
        if x == p { InsertKid(p, node, c, k); } else { InsertKidElsewhere(p, node, c, x, k); }
      }
    }

    /** `insert_before` a node that has a parent. */
    lemma InsertKeeps(p: NodeId, node: NodeId, c: NodeId)
      requires Valid() && p < |nodes| && c < |nodes| && node in kids[p] && Parent(c) == None && !Under(p, c)
      ensures Inserted(p, node, c).Valid()
      ensures forall x :: 0 <= x < |nodes| ==> SamePayload(nodes[x], Inserted(p, node, c).nodes[x])
    {
      hide Inserted, KidsOk, UpOk, SamePayload, Under;
      var u := Inserted(p, node, c);
      forall x | 0 <= x < |nodes|
        ensures u.KidsOk(x) && u.UpOk(x) && SamePayload(nodes[x], u.nodes[x])
      {
        InsertPayload(p, node, c, x);
        InsertOne(p, node, c, x);
      }
    }

    lemma InsertPayload(p: NodeId, node: NodeId, c: NodeId, x: NodeId)
      requires Valid() && p < |nodes| && c < |nodes| && node in kids[p] && Parent(c) == None && x < |nodes|
      ensures SamePayload(nodes[x], Inserted(p, node, c).nodes[x])
    {
      KidOf(p, node);
      LinksInRange(node);
    }

    // ----- when linking would break the tree -----

    /** A valid tree never has a node above itself: if `p` lies below `c` here, no
        valid tree with the same parents elsewhere can put `c` below `p`. */
    lemma {:induction false} ChainForcesDepth(u: Tree, c: NodeId, x: NodeId)
      requires Valid() && u.Valid() && |u.nodes| == |nodes| && c < |nodes| && x < |nodes|
      requires forall y :: 0 <= y < |nodes| && y != c ==> u.Parent(y) == Parent(y)
      requires Under(x, c)
      ensures u.level[c] <= u.level[x]
      decreases level[x]
    {
      if x != c {
        assert UpOk(x) && u.UpOk(x);
        ChainForcesDepth(u, c, Parent(x).value);
      }
    }

    lemma NoCycle(u: Tree, p: NodeId, c: NodeId)
      requires Valid() && u.Valid() && |u.nodes| == |nodes| && c < |nodes| && p < |nodes|
      requires forall y :: 0 <= y < |nodes| && y != c ==> u.Parent(y) == Parent(y)
      requires u.Parent(c) == Some(p)
      ensures !Under(p, c)
    {
      assert u.UpOk(c);
      if Under(p, c) {
        ChainForcesDepth(u, c, p);
        assert false;
      }
    }

    /** Appending keeps a tree exactly when the child is not above its new parent. */
    lemma AppendIff(p: NodeId, c: NodeId)
      requires Valid() && p < |nodes| && c < |nodes|
      requires Unlinked(c).Valid()
      ensures InRange(Unlinked(c).nodes, p)
      ensures (exists k, l :: Tree(AppendNodes(Unlinked(c).nodes, p, c), k, l).Valid()) <==> !Under(p, c)
    {
      var v := Unlinked(c);
      UnlinkKeeps(c);
      v.LinksInRange(p);
      UnderAfterUnlink(c, p);
      var ns := AppendNodes(v.nodes, p, c);
      if !Under(p, c) {
        v.AppendKeeps(p, c);
        assert Tree(ns, v.Appended(p, c).kids, v.Appended(p, c).level).Valid();
      } else if exists k, l :: Tree(ns, k, l).Valid() {
        var k, l :| Tree(ns, k, l).Valid();
        ParentsAfterAppend(v, p, c);
        NoCycle(Tree(ns, k, l), p, c);
      }
    }

    lemma ParentsAfterAppend(v: Tree, p: NodeId, c: NodeId)
      requires p < |v.nodes| && c < |v.nodes| && InRange(v.nodes, p)
      ensures var ns := AppendNodes(v.nodes, p, c);
              ns[c].links.parent == Some(p) &&
              (forall y :: 0 <= y < |ns| && y != c ==> ns[y].links.parent == v.nodes[y].links.parent)
    {
    }

    /** Inserting keeps a tree exactly when the node has a parent, is not the
        inserted sibling itself, and the sibling is not above that parent. */
    lemma InsertIff(node: NodeId, c: NodeId)
      requires Valid() && node < |nodes| && c < |nodes|
      requires Unlinked(c).Valid()
      ensures InRange(Unlinked(c).nodes, node)
      ensures (exists k, l :: Tree(InsertNodes(Unlinked(c).nodes, node, c), k, l).Valid())
        <==> (node != c && Parent(node).Some? && Parent(node).value < |nodes| && !Under(Parent(node).value, c))
    {
      var v := Unlinked(c);
      UnlinkKeeps(c);
      v.LinksInRange(node);
      assert UpOk(node) && v.UpOk(node);
      var ns := InsertNodes(v.nodes, node, c);
      ParentsAfterInsert(v, node, c);
      if node != c && Parent(node).Some? {
        var p := Parent(node).value;
        UnderAfterUnlink(c, p);
        if !Under(p, c) {
          v.InsertKeeps(p, node, c);
          assert Tree(ns, v.Inserted(p, node, c).kids, v.Inserted(p, node, c).level).Valid();
        } else if exists k, l :: Tree(ns, k, l).Valid() {
          var k, l :| Tree(ns, k, l).Valid();
          NoCycle(Tree(ns, k, l), p, c);
        }
      } else {
        forall k, l ensures !Tree(ns, k, l).Valid() {
          InsertBreaks(ns, node, k, l);
        }
      }
    }

    lemma InsertBreaks(ns: seq<Node>, node: NodeId, k: seq<seq<NodeId>>, l: seq<nat>)
      requires node < |ns| && ns[node].links.parent == None && ns[node].links.prev.Some?
      ensures !Tree(ns, k, l).Valid()
    {
      var u := Tree(ns, k, l);
      if |k| == |ns| && |l| == |ns| { assert !u.UpOk(node); }
    }

    lemma ParentsAfterInsert(v: Tree, node: NodeId, c: NodeId)
      requires node < |v.nodes| && c < |v.nodes| && InRange(v.nodes, node)
      ensures var ns := InsertNodes(v.nodes, node, c);
              ns[node].links.prev == Some(c) &&
              ns[c].links.parent == (if c == node then v.nodes[c].links.parent else v.nodes[node].links.parent) &&
              (forall y :: 0 <= y < |ns| && y != c ==> ns[y].links.parent == v.nodes[y].links.parent)
    {
    }
  }

  predicate SamePayload(a: Node, b: Node) {
    a.kind == b.kind && a.open == b.open && a.data == b.data
  }

  predicate InRange(ns: seq<Node>, id: NodeId) {
    && id < |ns|
    && (ns[id].links.parent.Some? ==> ns[id].links.parent.value < |ns|)
    && (ns[id].links.prev.Some? ==> ns[id].links.prev.value < |ns|)
    && (ns[id].links.next.Some? ==> ns[id].links.next.value < |ns|)
    && (ns[id].links.lastChild.Some? ==> ns[id].links.lastChild.value < |ns|)
  }

  /** The assignments `unlink` makes, in order. */
  function UnlinkNodes(ns: seq<Node>, id: NodeId): (r: seq<Node>)
    requires InRange(ns, id)
    ensures |r| == |ns|
  {
    var l := ns[id].links;
    var a := match l.prev
      case Some(p) => SetNext(ns, p, l.next)
      case None => match l.parent case Some(p) => SetFirst(ns, p, l.next) case None => ns;
    var b := match l.next
      case Some(n) => SetPrev(a, n, l.prev)
      case None => match l.parent case Some(p) => SetLast(a, p, l.prev) case None => a;
    SetPrev(SetNext(SetParent(b, id, None), id, None), id, None)
  }

  /** The assignments `append_child` makes after unlinking the child. */
  function AppendNodes(ns: seq<Node>, p: NodeId, c: NodeId): (r: seq<Node>)
    requires InRange(ns, p) && c < |ns|
    ensures |r| == |ns|
  {
    var a := SetParent(ns, c, Some(p));
    match a[p].links.lastChild
    case Some(last) => SetLast(SetPrev(SetNext(a, last, Some(c)), c, Some(last)), p, Some(c))
    case None => SetLast(SetFirst(a, p, Some(c)), p, Some(c))
  }

  /** The assignments `insert_before` makes after unlinking the sibling. */
  function InsertNodes(ns: seq<Node>, node: NodeId, c: NodeId): (r: seq<Node>)
    requires InRange(ns, node) && c < |ns|
    ensures |r| == |ns|
  {
    var prev := ns[node].links.prev;
    var a := SetPrev(ns, c, prev);
    var b := match prev case Some(p) => SetNext(a, p, Some(c)) case None => a;
    var d := SetPrev(SetNext(b, c, Some(node)), node, Some(c));
    var parent := d[node].links.parent;
    var e := SetParent(d, c, parent);
    if prev == None && parent.Some? then SetFirst(e, parent.value, Some(c)) else e
  }

  lemma InsertNodesEffect(ns: seq<Node>, node: NodeId, c: NodeId, x: NodeId)
    requires InRange(ns, node) && c < |ns| && x < |ns| && node != c
    requires ns[node].links.prev != Some(c) && ns[node].links.prev != Some(node)
    requires ns[node].links.parent.Some? && ns[node].links.parent != Some(c)
    ensures var a, b, n := ns[x].links, InsertNodes(ns, node, c)[x].links, ns[node].links;
            b == Links(if x == c then n.parent else a.parent,
                       if n.parent == Some(x) && n.prev == None then Some(c) else a.firstChild,
                       a.lastChild,
                       if x == c then n.prev else if x == node then Some(c) else a.prev,
                       if x == c then Some(node) else if Some(x) == n.prev then Some(c) else a.next)
  {
  }
}
