/**
 The iterators of `Algorithm/RBTree.hpp`. An iterator is a node pointer; a step
 goes down one subtree or climbs parent links. Each step is proved to move by one
 place in the left-to-right order of the nodes.
 */
module TreeIterator {
  import opened LinkedTree

  /** The node at position `i`, or null outside the sequence (the end iterator). */
  ghost function NodeAt<Tag>(s: seq<Node<Tag>>, i: int): Node?<Tag> {
    if 0 <= i < |s| then s[i] else null
  }

  /** Every position of a tree is the root of some subtree. */
  lemma {:induction false} Locate<Tag>(z: Path<Tag>, t: Shape<Tag>, i: nat) returns (z': Path<Tag>, t': Shape<Tag>)
    requires i < |Order(t)|
    ensures Plug(z', t') == Plug(z, t) && t'.Branch? && t'.node == Order(t)[i]
    ensures |Before(z')| + |Order(t'.left)| == |Before(z)| + i
    decreases t
  {
    var k := |Order(t.left)|;
    if i < k {
      z', t' := Locate(LeftOf(z, t.node, t.tag, t.right), t.left, i);
    } else if i == k {
      z', t' := z, t;
    } else {
      z', t' := Locate(RightOf(z, t.left, t.node, t.tag), t.right, i - k - 1);
    }
  }

  lemma LocateAt<Tag>(h: Heap<Tag>, shape: Shape<Tag>, root: Node?<Tag>, i: nat) returns (z: Path<Tag>, t: Shape<Tag>)
    requires At(h, Top, shape, root) && i < |Order(shape)|
    ensures Plug(z, t) == shape && At(h, z, t, root) && t.Branch? && t.node == Order(shape)[i]
    ensures |Before(z)| + |Order(t.left)| == i
    ensures |After(z)| + |Order(t.right)| == |Order(shape)| - 1 - i
    ensures t.node in h
  {
    z, t := Locate(Top, shape, i);
    PlugAt(h, z, t, root);
    PlugOrder(z, t);
  }

  /** The first node of a subtree whose root has no left child is that root. */
  lemma Leftmost<Tag>(z: Path<Tag>, t: Shape<Tag>)
    requires t.Branch? && t.left.Leaf?
    ensures NodeAt(Order(Plug(z, t)), |Before(z)|) == t.node
  {
    PlugOrder(z, t);
  }

  lemma Rightmost<Tag>(z: Path<Tag>, t: Shape<Tag>)
    requires t.Branch? && t.right.Leaf?
    ensures NodeAt(Order(Plug(z, t)), |Order(Plug(z, t))| - 1 - |After(z)|) == t.node
  {
    PlugOrder(z, t);
  }

  /** What follows a subtree is the holder it is the left child of, or the end. */
  lemma Following<Tag>(z: Path<Tag>, t: Shape<Tag>)
    requires !z.RightOf?
    ensures NodeAt(Order(Plug(z, t)), |Before(z)| + |Order(t)|) == Holder(z)
  {
    PlugOrder(z, t);
  }

  lemma Preceding<Tag>(z: Path<Tag>, t: Shape<Tag>)
    requires !z.LeftOf?
    ensures NodeAt(Order(Plug(z, t)), |Order(Plug(z, t))| - 1 - |After(z)| - |Order(t)|) == Holder(z)
  {
    PlugOrder(z, t);
  }

  /** The heap shows `cur` at the root of `t`, which sits at `z` in the tree. */
  ghost predicate Focus<Tag>(tree: Tree<Tag>, h: Heap<Tag>, cur: Node?<Tag>, z: Path<Tag>, t: Shape<Tag>)
    reads tree
  {
    At(h, z, t, tree.root) && Plug(z, t) == tree.shape && cur == RootOf(t)
  }

  lemma FocusDown<Tag>(tree: Tree<Tag>, h: Heap<Tag>, cur: Node<Tag>, z: Path<Tag>, t: Shape<Tag>)
    requires Focus(tree, h, cur, z, t)
    ensures cur in h && t.Branch? && h[cur] == Cell(RootOf(t.left), RootOf(t.right), Holder(z), t.tag)
    ensures Focus(tree, h, RootOf(t.left), LeftOf(z, cur, t.tag, t.right), t.left)
    ensures Focus(tree, h, RootOf(t.right), RightOf(z, t.left, cur, t.tag), t.right)
  {}

  lemma FocusUp<Tag>(tree: Tree<Tag>, h: Heap<Tag>, cur: Node<Tag>, z: Path<Tag>, t: Shape<Tag>)
    requires Focus(tree, h, cur, z, t) && !z.Top?
    ensures z.node in h && h[z.node].parent == Holder(z.up)
    ensures z.LeftOf? <==> h[z.node].left == cur
    ensures z.RightOf? <==> h[z.node].right == cur
    ensures z.LeftOf? ==> Focus(tree, h, z.node, z.up, Branch(t, z.node, z.tag, z.right))
    ensures z.RightOf? ==> Focus(tree, h, z.node, z.up, Branch(z.left, z.node, z.tag, t))
  {
    OneChild(h, z, cur, tree.root);
  }

  /** The loop `while (left && left->_left) left = left->_left`. */
  method SlideLeft<Tag>(tree: Tree<Tag>, start: Node?<Tag>, ghost z: Path<Tag>, ghost t: Shape<Tag>)
    returns (left: Node?<Tag>)
    requires Focus(tree, Snap(Nodes(tree.shape)), start, z, t)
    ensures left == if t.Leaf? then null else NodeAt(Order(tree.shape), |Before(z)|)
  {
    ghost var h := Snap(Nodes(tree.shape));
    ghost var y, u := z, t;
    left := start;
    while left != null && left.left != null
      invariant Focus(tree, h, left, y, u) && (u.Leaf? ==> t.Leaf?) && (t.Leaf? ==> u.Leaf?)
      invariant |Before(y)| == |Before(z)|
      decreases u
    {
      FocusDown(tree, h, left, y, u);
      left := left.left;
      y, u := LeftOf(y, u.node, u.tag, u.right), u.left;
    }
    if left != null {
      FocusDown(tree, h, left, y, u);
      Leftmost(y, u);
    }
  }

  /** The loop `while (right && right->_right) right = right->_right`. */
  method SlideRight<Tag>(tree: Tree<Tag>, start: Node?<Tag>, ghost z: Path<Tag>, ghost t: Shape<Tag>)
    returns (right: Node?<Tag>)
    requires Focus(tree, Snap(Nodes(tree.shape)), start, z, t)
    ensures right == if t.Leaf? then null else NodeAt(Order(tree.shape), |Order(tree.shape)| - 1 - |After(z)|)
  {
    ghost var h := Snap(Nodes(tree.shape));
    ghost var y, u := z, t;
    right := start;
    while right != null && right.right != null
      invariant Focus(tree, h, right, y, u) && (u.Leaf? ==> t.Leaf?) && (t.Leaf? ==> u.Leaf?)
      invariant |After(y)| == |After(z)|
      decreases u
    {
      FocusDown(tree, h, right, y, u);
      right := right.right;
      y, u := RightOf(y, u.left, u.node, u.tag), u.right;
    }
    if right != null {
      FocusDown(tree, h, right, y, u);
      Rightmost(y, u);
    }
  }

  /** The loop that climbs out of right subtrees. */
  method ClimbRight<Tag>(tree: Tree<Tag>, node: Node<Tag>, ghost z: Path<Tag>, ghost t: Shape<Tag>)
    returns (next: Node?<Tag>)
    requires Focus(tree, Snap(Nodes(tree.shape)), node, z, t)
    ensures next == NodeAt(Order(tree.shape), |Before(z)| + |Order(t)|)
  {
    ghost var h := Snap(Nodes(tree.shape));
    ghost var y, u := z, t;
    FocusDown(tree, h, node, y, u);
    var parent, cur := node.parent, node;
    while parent != null && parent.right == cur
      invariant cur != null && Focus(tree, h, cur, y, u) && parent == Holder(y)
      invariant |Before(y)| + |Order(u)| == |Before(z)| + |Order(t)|
      decreases y
    {
      FocusUp(tree, h, cur, y, u);
      FocusDown(tree, h, cur, y, u);
      parent, cur := parent.parent, cur.parent;
      y, u := y.up, Branch(y.left, y.node, y.tag, u);
    }
    if !y.Top? {
      FocusUp(tree, h, cur, y, u);
    }
    Following(y, u);
    next := parent;
  }

  /** The loop that climbs out of left subtrees. */
  method ClimbLeft<Tag>(tree: Tree<Tag>, node: Node<Tag>, ghost z: Path<Tag>, ghost t: Shape<Tag>)
    returns (prev: Node?<Tag>)
    requires Focus(tree, Snap(Nodes(tree.shape)), node, z, t)
    ensures prev == NodeAt(Order(tree.shape), |Order(tree.shape)| - 1 - |After(z)| - |Order(t)|)
  {
    ghost var h := Snap(Nodes(tree.shape));
    ghost var y, u := z, t;
    FocusDown(tree, h, node, y, u);
    var parent, cur := node.parent, node;
    while parent != null && parent.left == cur
      invariant cur != null && Focus(tree, h, cur, y, u) && parent == Holder(y)
      invariant |After(y)| + |Order(u)| == |After(z)| + |Order(t)|
      decreases y
    {
      FocusUp(tree, h, cur, y, u);
      FocusDown(tree, h, cur, y, u);
      parent, cur := parent.parent, cur.parent;
      y, u := y.up, Branch(u, y.node, y.tag, y.right);
    }
    if !y.Top? {
      FocusUp(tree, h, cur, y, u);
    }
    Preceding(y, u);
    prev := parent;
  }

  method Begin<Tag>(tree: Tree<Tag>) returns (it: Node?<Tag>)
    requires tree.Valid()
    ensures it == NodeAt(Order(tree.shape), 0)
    ensures tree.Valid()
  {
    it := SlideLeft(tree, tree.root, Top, tree.shape);
    assert Snap(Nodes(tree.shape)) == old(Snap(Nodes(tree.shape)));
  }

  method ReverseBegin<Tag>(tree: Tree<Tag>) returns (it: Node?<Tag>)
    requires tree.Valid()
    ensures it == NodeAt(Order(tree.shape), |Order(tree.shape)| - 1)
    ensures tree.Valid()
  {
    it := SlideRight(tree, tree.root, Top, tree.shape);
    assert Snap(Nodes(tree.shape)) == old(Snap(Nodes(tree.shape)));
  }

  /** What comes after a subtree's root: its right subtree, or what follows the subtree. */
  lemma PositionAfter<Tag>(s: seq<Node<Tag>>, z: Path<Tag>, t: Shape<Tag>, i: nat)
    requires t.Branch? && |Before(z)| + |Order(t.left)| == i
    ensures NodeAt(s, |Before(RightOf(z, t.left, t.node, t.tag))|) == NodeAt(s, i + 1)
    ensures t.right.Leaf? ==> NodeAt(s, |Before(z)| + |Order(t)|) == NodeAt(s, i + 1)
  {}

  lemma PositionBefore<Tag>(z: Path<Tag>, t: Shape<Tag>, i: nat)
    requires t.Branch? && |Before(z)| + |Order(t.left)| == i
    ensures |Before(LeftOf(z, t.node, t.tag, t.right))| + |Order(t.left)| == i
    ensures t.left.Leaf? ==> |Before(z)| == i
  {}

  /** `++`: from position `i` to position `i + 1`, or to the end. */
  method Increment<Tag>(tree: Tree<Tag>, node: Node<Tag>, ghost i: nat) returns (next: Node?<Tag>)
    requires tree.Valid() && NodeAt(Order(tree.shape), i) == node
    ensures next == NodeAt(Order(tree.shape), i + 1)
    ensures tree.Valid()
  {
    ghost var h := Snap(Nodes(tree.shape));
    ghost var z, t := LocateAt(h, tree.shape, tree.root, i);
    FocusDown(tree, h, node, z, t);
    PositionAfter(Order(tree.shape), z, t, i);
    if node.right != null {
      next := SlideLeft(tree, node.right, RightOf(z, t.left, node, t.tag), t.right);
    } else {
      next := ClimbRight(tree, node, z, t);
    }
    assert Snap(Nodes(tree.shape)) == h;
  }

  /** `--`, and `++` of the reverse iterator: from position `i` to position `i - 1`, or to the end. */
  method Decrement<Tag>(tree: Tree<Tag>, node: Node<Tag>, ghost i: nat) returns (prev: Node?<Tag>)
    requires tree.Valid() && NodeAt(Order(tree.shape), i) == node
    ensures prev == NodeAt(Order(tree.shape), i - 1)
    ensures tree.Valid()
  {
    ghost var h := Snap(Nodes(tree.shape));
    ghost var z, t := LocateAt(h, tree.shape, tree.root, i);
    FocusDown(tree, h, node, z, t);
    PositionBefore(z, t, i);
    if node.left != null {
      prev := SlideRight(tree, node.left, LeftOf(z, node, t.tag, t.right), t.left);
    } else {
      prev := ClimbLeft(tree, node, z, t);
    }
    assert Snap(Nodes(tree.shape)) == h;
  }

  /** From `begin` by `++` to `end`: every node exactly once, in strictly increasing key order. */
  method Walk<Tag>(tree: Tree<Tag>) returns (visited: seq<Node<Tag>>)
    requires tree.Valid()
    ensures visited == Order(tree.shape)
    ensures forall n :: n in Nodes(tree.shape) <==> n in visited
    ensures forall i, j :: 0 <= i < j < |visited| ==> visited[i].data.key < visited[j].data.key
  {
    ghost var s := Order(tree.shape);
    visited := [];
    var it := Begin(tree);
    while it != null
      invariant tree.Valid() && tree.shape == old(tree.shape)
      invariant |visited| <= |s| && visited == s[..|visited|]
      invariant it == NodeAt(s, |visited|)
      decreases |s| - |visited|
    {
      ghost var i := |visited|;
      visited := visited + [it];
      it := Increment(tree, it, i);
    }
    OrderHasNodes(tree.shape);
  }

  /** The nodes of a sequence from the last to the first. */
  ghost function Backwards<T>(s: seq<T>): (r: seq<T>)
    ensures |r| == |s| && forall i :: 0 <= i < |s| ==> r[i] == s[|s| - 1 - i]
  {
    if s == [] then [] else [s[|s| - 1]] + Backwards(s[..|s| - 1])
  }

  /** From `rbegin` by the reverse `++` to `rend`: every node exactly once, in strictly decreasing key order. */
  method WalkBack<Tag>(tree: Tree<Tag>) returns (visited: seq<Node<Tag>>)
    requires tree.Valid()
    ensures visited == Backwards(Order(tree.shape))
    ensures forall n :: n in Nodes(tree.shape) <==> n in visited
    ensures forall i, j :: 0 <= i < j < |visited| ==> visited[i].data.key > visited[j].data.key
  {
    ghost var s := Order(tree.shape);
    ghost var left := |s|;  // nodes still to come
    visited := [];
    var it := ReverseBegin(tree);
    while it != null
      invariant tree.Valid() && tree.shape == old(tree.shape)
      invariant 0 <= left <= |s| && visited == Backwards(s[left..])
      invariant it == NodeAt(s, left - 1)
      decreases left
    {
      ghost var next := left - 1;
      BackwardsOneMore(s, next, left);
      visited := visited + [it];
      it := Decrement(tree, it, next);
      left := next;
    }
    assert s[0..] == s;
    OrderHasNodes(tree.shape);
    BackwardsSame(s);
  }

  lemma BackwardsOneMore<T>(s: seq<T>, next: nat, left: nat)
    requires next < |s| && left == next + 1
    ensures Backwards(s[next..]) == Backwards(s[left..]) + [s[next]]
  {}

  lemma BackwardsSame<T>(s: seq<T>)
    ensures forall x :: x in s <==> x in Backwards(s)
  {
    var r := Backwards(s);
    assert forall i :: 0 <= i < |s| ==> s[i] == r[|s| - 1 - i];
  }

  lemma {:induction false} OrderHasNodes<Tag>(t: Shape<Tag>)
    ensures forall n :: n in Nodes(t) <==> n in Order(t)
  {
    if t.Branch? {
      OrderHasNodes(t.left);
      OrderHasNodes(t.right);
    }
  }

  /** `--` undoes `++` on every node but the last. */
  method ForthAndBack<Tag>(tree: Tree<Tag>, node: Node<Tag>, ghost i: nat) returns (back: Node?<Tag>)
    requires tree.Valid() && NodeAt(Order(tree.shape), i) == node && i + 1 < |Order(tree.shape)|
    ensures back == node
  {
    var next := Increment(tree, node, i);
    back := Decrement(tree, next, i + 1);
  }
}
