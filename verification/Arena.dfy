/** The arena that owns every node, and the borrow-free cursor (src/node.rs). */
module Arena {
  import opened Bytes
  import opened Node
  import opened Growth
  import Walk

  class Arena {
    var nodes: seq<Node>
    ghost var kids: seq<seq<NodeId>>
    ghost var level: seq<nat>

    ghost function T(): Tree
      reads this
    {
      Tree(nodes, kids, level)
    }

    ghost predicate Valid()
      reads this
    {
      T().Valid()
    }

    constructor ()
      ensures Valid() && nodes == []
    {
      nodes, kids, level := [], [], [];
    }

    method NewNode(kind: NodeType) returns (id: NodeId)
      requires Valid()
      modifies this
      ensures id == |old(nodes)| && T() == WithNode(old(T()), kind) && Valid()
    {
      id := |nodes|;
      WithNodeGrows(T(), kind);
      nodes := nodes + [Node(kind, NoLinks, true, NoData)];
      kids, level := kids + [[]], level + [0];
    }

    method SetData(id: NodeId, d: Data)
      requires Valid() && id < |nodes|
      modifies this
      ensures T() == WithData(old(T()), id, d) && Valid()
    {
      SameLinksValid(T(), WithData(T(), id, d));
      nodes := nodes[id := nodes[id].(data := d)];
    }

    method Close(id: NodeId)
      requires Valid() && id < |nodes|
      modifies this
      ensures T() == Closed(old(T()), id) && Valid()
    {
      ClosedGrows(T(), id);
      nodes := nodes[id := nodes[id].(open := false)];
    }

    /** Detaches `id` from its parent and siblings. */
    method Unlink(id: NodeId)
      requires Valid() && id < |nodes|
      modifies this
      ensures T() == old(T()).Unlinked(id) && Valid()
    {
      ghost var t := T();
      t.UnlinkKeeps(id);
      t.LinksInRange(id);
      var l := nodes[id].links;
      match l.prev {
        case Some(p) => nodes := SetNext(nodes, p, l.next);
        case None => if l.parent.Some? { nodes := SetFirst(nodes, l.parent.value, l.next); }
      }
      match l.next {
        case Some(n) => nodes := SetPrev(nodes, n, l.prev);
        case None => if l.parent.Some? { nodes := SetLast(nodes, l.parent.value, l.prev); }
      }
      nodes := SetParent(nodes, id, None);
      nodes := SetNext(nodes, id, None);
      nodes := SetPrev(nodes, id, None);
      kids, level := t.Unlinked(id).kids, t.Unlinked(id).level;
    }

    /** Moves `child` to the end of the children of `parent`. */
    method AppendChild(parent: NodeId, child: NodeId)
      requires Valid() && parent < |nodes| && child < |nodes| && !T().Under(parent, child)
      modifies this
      ensures old(T()).Unlinked(child).Valid()
      ensures T() == old(T()).Unlinked(child).Appended(parent, child) && Valid()
    {
      ghost var t := T();
      t.UnlinkKeeps(child);
      t.UnderAfterUnlink(child, parent);
      Unlink(child);
      ghost var u := T();
      u.AppendKeeps(parent, child);
      u.LinksInRange(parent);
      nodes := SetParent(nodes, child, Some(parent));
      match nodes[parent].links.lastChild {
        case Some(last) =>
          nodes := SetNext(nodes, last, Some(child));
          nodes := SetPrev(nodes, child, Some(last));
          nodes := SetLast(nodes, parent, Some(child));
        case None =>
          nodes := SetFirst(nodes, parent, Some(child));
          nodes := SetLast(nodes, parent, Some(child));
      }
      kids, level := u.Appended(parent, child).kids, u.Appended(parent, child).level;
    }

    /** Moves `sibling` to just before `node`, which must have a parent. */
    method InsertBefore(node: NodeId, sibling: NodeId)
      requires Valid() && node < |nodes| && sibling < |nodes| && node != sibling
      requires T().Parent(node).Some? && T().Parent(node).value < |nodes|
      requires !T().Under(T().Parent(node).value, sibling)
      modifies this
      ensures var u, p := old(T()).Unlinked(sibling), old(T()).Parent(node).value;
              u.Valid() && node in u.kids[p] && T() == u.Inserted(p, node, sibling) && Valid()
    {
      ghost var t, q := T(), T().Parent(node).value;
      t.UnlinkKeeps(sibling);
      t.UnderAfterUnlink(sibling, q);
      Unlink(sibling);
      ghost var u := T();
      u.ParentOf(node);
      u.InsertKeeps(q, node, sibling);
      u.LinksInRange(node);
      var prev := nodes[node].links.prev;
      nodes := SetPrev(nodes, sibling, prev);
      if prev.Some? { nodes := SetNext(nodes, prev.value, Some(sibling)); }
      nodes := SetNext(nodes, sibling, Some(node));
      nodes := SetPrev(nodes, node, Some(sibling));
      var parent := nodes[node].links.parent;
      nodes := SetParent(nodes, sibling, parent);
      if prev == None {
        if parent.Some? { nodes := SetFirst(nodes, parent.value, Some(sibling)); }
      }
      kids, level := u.Inserted(q, node, sibling).kids, u.Inserted(q, node, sibling).level;
    }

    lemma StartRest(root: NodeId, visit: Walk.Visitor)
      requires Valid() && root < |nodes|
      ensures Walk.OnTree(T(), root, Walk.Cursor(Some(root), true))
      ensures Walk.Rest(T(), root, Walk.Cursor(Some(root), true), visit) == Walk.Events(T(), root, visit)
    {
    }

    /** Drives a cursor over the subtree at `root`; the visits made are those of the
        recursive traversal, cut after the first one answered with `Terminate`. */
    method WalkTree(root: NodeId, visit: Walk.Visitor) returns (trace: seq<Walk.Visit>)
      requires Valid() && root < |nodes|
      ensures trace == Walk.Cut(Walk.Events(T(), root, visit), visit)
    {
      hide Walk.Events, Walk.KidEvents, Walk.After, Walk.AdvanceCursor, Walk.Rest, Walk.Cut, Tree.Valid;
      var w := new Walker(root);
      trace := [];
      ghost var t := T();
      ghost var rest := Walk.Events(T(), root, visit);
      StartRest(root, visit);
      while w.current.Some?
        invariant w.root == root && t == T() && Walk.OnTree(t, root, w.C())
        invariant rest == Walk.Rest(t, root, w.C(), visit)
        invariant trace + Walk.Cut(rest, visit) == Walk.Cut(Walk.Events(t, root, visit), visit)
        decreases |rest|
      {
        var v := (w.current.value, w.entering);
        var status := visit(v);
        Walk.CutStep(trace, v, rest, visit);
        trace := trace + [v];
        if status == Walk.Terminate { return; }
        Walk.AdvanceConsumes(t, root, w.C(), visit);
        rest := rest[1..];
        w.Advance(this, status);
      }
      Walk.CutEnd(trace, visit);
    }
  }

  /** A cursor over a tree: it holds no part of the arena. */
  class Walker {
    var current: Option<NodeId>
    const root: NodeId
    var entering: bool

    ghost function C(): Walk.Cursor
      reads this
    {
      Walk.Cursor(current, entering)
    }

    constructor (root: NodeId)
      ensures this.root == root && C() == Walk.Cursor(Some(root), true)
    {
      this.root := root;
      current, entering := Some(root), true;
    }

    method Advance(arena: Arena, status: Walk.WalkStatus)
      requires current.Some? ==> current.value < |arena.nodes|
      modifies this
      ensures C() == Walk.AdvanceCursor(arena.nodes, root, old(C()), status)
    {
      match status {
        case Terminate =>
          current := None;
          return;
        case SkipChildren => entering := false;
        case GoToNext =>
      }
      Step(arena);
    }

    method Step(arena: Arena)
      requires current.Some? ==> current.value < |arena.nodes|
      modifies this
      ensures C() == Walk.StepCursor(arena.nodes, root, old(C()))
    {
      if current == None { return; }
      var cur := current.value;
      var node := arena.nodes[cur];
      if (!node.kind.IsContainer() || !entering) && cur == root {
        current := None;
        return;
      }
      if entering && node.kind.IsContainer() {
        match node.links.firstChild {
          case Some(child) => current, entering := Some(child), true;
          case None => entering := false;
        }
      } else if node.links.next == None {
        current, entering := node.links.parent, false;
      } else {
        current, entering := node.links.next, true;
      }
    }
  }
}
