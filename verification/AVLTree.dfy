/**
 AVL insertion of `Algorithm/AVLTree.hpp` (namespace `bit`): link a node, then
 climb by parent pointers updating balance factors, and stop when a subtree keeps
 its old height or has been rotated back to it. While climbing, every balance
 factor is right except that the surroundings still count the height the current
 subtree had before the insertion.
 */
module AVLTree {
  import opened LinkedTree

  // ---------- Balance ----------

  /** Every `_bf` is right height minus left height and lies in -1..1. */
  ghost predicate Avl(t: Shape<int>) {
    t.Branch? ==>
      && Avl(t.left) && Avl(t.right)
      && t.tag == Height(t.right) - Height(t.left) && -1 <= t.tag <= 1
  }

  /** The surroundings have right balance factors for a subtree of height `k`. */
  ghost predicate PathAvl(z: Path<int>, k: nat) {
    match z
    case Top => true
    case LeftOf(up, _, g, r) =>
      Avl(r) && g == Height(r) - k && -1 <= g <= 1 && PathAvl(up, 1 + Max(k, Height(r)))
    case RightOf(up, l, _, g) =>
      Avl(l) && g == k - Height(l) && -1 <= g <= 1 && PathAvl(up, 1 + Max(Height(l), k))
  }

  lemma {:induction false} PlugAvl(z: Path<int>, t: Shape<int>)
    ensures Avl(Plug(z, t)) <==> Avl(t) && PathAvl(z, Height(t))
    decreases z
  {
    match z
    case Top =>
    case LeftOf(up, n, g, r) =>
      assert Height(Branch(t, n, g, r)) == 1 + Max(Height(t), Height(r));
      PlugAvl(up, Branch(t, n, g, r));
    case RightOf(up, l, n, g) =>
      assert Height(Branch(l, n, g, t)) == 1 + Max(Height(l), Height(t));
      PlugAvl(up, Branch(l, n, g, t));
  }

  /** The subtree has just grown by one level, through one of its sides or as a new leaf. */
  ghost predicate Grown(z: Path<int>, t: Shape<int>) {
    && t.Branch? && Avl(t) && PathAvl(z, Height(t) - 1)
    && (t.tag == 0 ==> t.left.Leaf? && t.right.Leaf?)
  }

  // ---------- One turn of the loop, on shapes ----------

  /** The parent's subtree with its balance factor updated. */
  ghost function Updated(z: Path<int>, t: Shape<int>): (r: Shape<int>)
    requires !z.Top?
    ensures r.Branch?
  {
    if z.LeftOf? then Branch(t, z.node, z.tag - 1, z.right) else Branch(z.left, z.node, z.tag + 1, t)
  }

  lemma UpdatedZero(z: Path<int>, t: Shape<int>)
    requires Grown(z, t) && !z.Top? && Updated(z, t).tag == 0
    ensures Avl(Updated(z, t)) && PathAvl(z.up, Height(Updated(z, t)))
  {}

  lemma UpdatedOne(z: Path<int>, t: Shape<int>)
    requires Grown(z, t) && !z.Top? && (Updated(z, t).tag == 1 || Updated(z, t).tag == -1)
    ensures Grown(z.up, Updated(z, t))
  {}

  /** `RotateL`: both factors become 0. */
  ghost function LeftRotated(t: Shape<int>): (r: Shape<int>)
    requires t.Branch? && t.right.Branch?
  {
    Branch(Branch(t.left, t.node, 0, t.right.left), t.right.node, 0, t.right.right)
  }

  ghost function RightRotated(t: Shape<int>): (r: Shape<int>)
    requires t.Branch? && t.left.Branch?
  {
    Branch(t.left.left, t.left.node, 0, Branch(t.left.right, t.node, 0, t.right))
  }

  /** Both children and the root of a subtree given new factors. */
  ghost function Refactored(t: Shape<int>, l: int, top: int, r: int): (s: Shape<int>)
    requires t.Branch? && t.left.Branch? && t.right.Branch?
  {
    Branch(t.left.(tag := l), t.node, top, t.right.(tag := r))
  }

  /** `RotateLR` with the factors it writes at the end, from the middle node's old factor. */
  ghost function LeftRightRotated(t: Shape<int>): (r: Shape<int>)
    requires t.Branch? && t.left.Branch? && t.left.right.Branch?
  {
    var bf := t.left.right.tag;
    Refactored(RightRotated(t.(left := LeftRotated(t.left))), if bf == 1 then -1 else 0, 0, if bf == -1 then 1 else 0)
  }

  ghost function RightLeftRotated(t: Shape<int>): (r: Shape<int>)
    requires t.Branch? && t.right.Branch? && t.right.left.Branch?
  {
    var bf := t.right.left.tag;
    Refactored(LeftRotated(t.(right := RightRotated(t.right))), if bf == 1 then -1 else 0, 0, if bf == -1 then 1 else 0)
  }

  /** What the code makes of a parent whose factor has reached 2 or -2. */
  ghost function Repaired(z: Path<int>, t: Shape<int>): (r: Shape<int>)
    requires !z.Top? && t.Branch? && (t.tag == 1 ==> t.right.Branch?) && (t.tag != 1 ==> t.left.Branch?)
    requires t.tag == 1 || t.tag == -1
  {
    var u := Updated(z, t);
    if z.LeftOf? then
      if t.tag == -1 then RightRotated(u) else LeftRightRotated(u)
    else
      if t.tag == 1 then LeftRotated(u) else RightLeftRotated(u)
  }

  lemma TwoFacts(z: Path<int>, t: Shape<int>)
    requires Grown(z, t) && !z.Top? && (Updated(z, t).tag == 2 || Updated(z, t).tag == -2)
    ensures t.tag == 1 || t.tag == -1
    ensures t.tag == 1 ==> t.right.Branch? && -1 <= t.right.tag <= 1
    ensures t.tag == -1 ==> t.left.Branch? && -1 <= t.left.tag <= 1
    ensures Updated(z, t).tag == if z.LeftOf? then -2 else 2
  {
    assert Avl(t.left) && Avl(t.right);
  }

  /** Rebuilding a height-unbalanced left side, by the factor of its root. */
  lemma LeftRepair(t: Shape<int>, n: Node<int>, r: Shape<int>)
    requires t.Branch? && Avl(t) && Avl(r) && Height(t) == Height(r) + 2
    ensures t.tag == -1 ==> t.left.Branch? && var s := RightRotated(Branch(t, n, -2, r)); Avl(s) && Height(s) == Height(t)
    ensures t.tag == 1 ==> t.right.Branch? && var s := LeftRightRotated(Branch(t, n, -2, r)); Avl(s) && Height(s) == Height(t)
  {
    if t.tag == 1 {
      var m := t.right;
      assert Avl(m) && Height(m) == Height(r) + 1 && Height(t.left) == Height(r);
      var s := LeftRightRotated(Branch(t, n, -2, r));
      assert s.left == Branch(t.left, t.node, if m.tag == 1 then -1 else 0, m.left);
      assert s.right == Branch(m.right, n, if m.tag == -1 then 1 else 0, r);
    } else if t.tag == -1 {
      var s := RightRotated(Branch(t, n, -2, r));
      assert s.right == Branch(t.right, n, 0, r) && s.left == t.left;
    }
  }

  lemma RightRepair(l: Shape<int>, n: Node<int>, t: Shape<int>)
    requires t.Branch? && Avl(t) && Avl(l) && Height(t) == Height(l) + 2
    ensures t.tag == 1 ==> t.right.Branch? && var s := LeftRotated(Branch(l, n, 2, t)); Avl(s) && Height(s) == Height(t)
    ensures t.tag == -1 ==> t.left.Branch? && var s := RightLeftRotated(Branch(l, n, 2, t)); Avl(s) && Height(s) == Height(t)
  {
    if t.tag == -1 {
      var m := t.left;
      assert Avl(m) && Height(m) == Height(l) + 1 && Height(t.right) == Height(l);
      var s := RightLeftRotated(Branch(l, n, 2, t));
      assert s.left == Branch(l, n, if m.tag == 1 then -1 else 0, m.left);
      assert s.right == Branch(m.right, t.node, if m.tag == -1 then 1 else 0, t.right);
    } else if t.tag == 1 {
      var s := LeftRotated(Branch(l, n, 2, t));
      assert s.left == Branch(l, n, 0, t.left) && s.right == t.right;
    }
  }

  /** A rotation restores balance and the height the parent's subtree had before the insertion. */
  lemma RepairedAvl(z: Path<int>, t: Shape<int>)
    requires Grown(z, t) && !z.Top? && (Updated(z, t).tag == 2 || Updated(z, t).tag == -2)
    requires (t.tag == 1 && t.right.Branch?) || (t.tag == -1 && t.left.Branch?)
    ensures Avl(Repaired(z, t)) && PathAvl(z.up, Height(Repaired(z, t)))
    ensures Height(Repaired(z, t)) + 1 == Height(Updated(z, t))
  {
    if z.LeftOf? {
      LeftRepair(t, z.node, z.right);
    } else {
      RightRepair(z.left, z.node, t);
    }
  }

  // ---------- The rotations in the heap ----------

  method RotateL(tree: Tree<int>, parent: Node<int>, ghost ns: set<Node<int>>, ghost z: Path<int>, ghost t: Shape<int>)
    requires t.Branch? && t.right.Branch? && t.node == parent && At(Snap(ns), z, t, tree.root)
    modifies tree`root, ns
    ensures At(Snap(ns), z, LeftRotated(t), tree.root)
  {
    StepDown(Snap(ns), z, t, tree.root);
    var subR := parent.right;
    tree.RotateL(parent, ns, z, t);
    ghost var r := RotatedLeft(t);
    StepDown(Snap(ns), z, r, tree.root);
    ghost var y := LeftOf(z, subR, r.tag, r.right);
    tree.SetTag(parent, 0, ns, y, r.left);
    StepUp(Snap(ns), y, r.left.(tag := 0), tree.root);
    tree.SetTag(subR, 0, ns, z, r.(left := r.left.(tag := 0)));
  }

  method RotateR(tree: Tree<int>, parent: Node<int>, ghost ns: set<Node<int>>, ghost z: Path<int>, ghost t: Shape<int>)
    requires t.Branch? && t.left.Branch? && t.node == parent && At(Snap(ns), z, t, tree.root)
    modifies tree`root, ns
    ensures At(Snap(ns), z, RightRotated(t), tree.root)
  {
    StepDown(Snap(ns), z, t, tree.root);
    var subL := parent.left;
    tree.RotateR(parent, ns, z, t);
    ghost var r := RotatedRight(t);
    StepDown(Snap(ns), z, r, tree.root);
    ghost var y := RightOf(z, r.left, subL, r.tag);
    tree.SetTag(parent, 0, ns, y, r.right);
    StepUp(Snap(ns), y, r.right.(tag := 0), tree.root);
    tree.SetTag(subL, 0, ns, z, r.(right := r.right.(tag := 0)));
  }

  /** The three assignments at the end of a double rotation. */
  method Refactor(tree: Tree<int>, left: Node<int>, top: Node<int>, right: Node<int>, l: int, m: int, r: int,
                  ghost ns: set<Node<int>>, ghost z: Path<int>, ghost t: Shape<int>)
    requires t.Branch? && t.left.Branch? && t.right.Branch?
    requires t.left.node == left && t.node == top && t.right.node == right && At(Snap(ns), z, t, tree.root)
    modifies ns
    ensures At(Snap(ns), z, Refactored(t, l, m, r), tree.root)
  {
    StepDown(Snap(ns), z, t, tree.root);
    StepDown(Snap(ns), LeftOf(z, top, t.tag, t.right), t.left, tree.root);
    StepDown(Snap(ns), RightOf(z, t.left, top, t.tag), t.right, tree.root);
    tree.SetTag(left, l, ns, LeftOf(z, top, t.tag, t.right), t.left);
    StepUp(Snap(ns), LeftOf(z, top, t.tag, t.right), t.left.(tag := l), tree.root);
    ghost var s := t.(left := t.left.(tag := l));
    StepDown(Snap(ns), z, s, tree.root);
    tree.SetTag(right, r, ns, RightOf(z, s.left, top, s.tag), s.right);
    StepUp(Snap(ns), RightOf(z, s.left, top, s.tag), s.right.(tag := r), tree.root);
    tree.SetTag(top, m, ns, z, s.(right := s.right.(tag := r)));
  }

  /** The cells a double rotation reads first. */
  lemma MiddleOfLeft(h: Heap<int>, z: Path<int>, t: Shape<int>, root: Node?<int>)
    requires t.Branch? && t.left.Branch? && t.left.right.Branch? && At(h, z, t, root)
    ensures {t.node, t.left.node, t.left.right.node} <= h.Keys
    ensures h[t.node].left == t.left.node && h[t.left.node].right == t.left.right.node
    ensures h[t.left.right.node].tag == t.left.right.tag
    ensures At(h, LeftOf(z, t.node, t.tag, t.right), t.left, root)
  {
    var y := LeftOf(z, t.node, t.tag, t.right);
    StepDown(h, z, t, root);
    StepDown(h, y, t.left, root);
    StepDown(h, RightOf(y, t.left.left, t.left.node, t.left.tag), t.left.right, root);
  }

  lemma MiddleOfRight(h: Heap<int>, z: Path<int>, t: Shape<int>, root: Node?<int>)
    requires t.Branch? && t.right.Branch? && t.right.left.Branch? && At(h, z, t, root)
    ensures {t.node, t.right.node, t.right.left.node} <= h.Keys
    ensures h[t.node].right == t.right.node && h[t.right.node].left == t.right.left.node
    ensures h[t.right.left.node].tag == t.right.left.tag
    ensures At(h, RightOf(z, t.left, t.node, t.tag), t.right, root)
  {
    var y := RightOf(z, t.left, t.node, t.tag);
    StepDown(h, z, t, root);
    StepDown(h, y, t.right, root);
    StepDown(h, LeftOf(y, t.right.node, t.right.tag, t.right.right), t.right.left, root);
  }

  method RotateLR(tree: Tree<int>, parent: Node<int>, ghost ns: set<Node<int>>, ghost z: Path<int>, ghost t: Shape<int>)
    requires t.Branch? && t.left.Branch? && t.left.right.Branch? && -1 <= t.left.right.tag <= 1
    requires t.node == parent && At(Snap(ns), z, t, tree.root)
    modifies tree`root, ns
    ensures At(Snap(ns), z, LeftRightRotated(t), tree.root)
  {
    ghost var y := LeftOf(z, parent, t.tag, t.right);
    MiddleOfLeft(Snap(ns), z, t, tree.root);
    var subL := parent.left;
    var subLR := subL.right;
    var bf := subLR.tag;
    RotateL(tree, parent.left, ns, y, t.left);
    StepUp(Snap(ns), y, LeftRotated(t.left), tree.root);
    ghost var s := t.(left := LeftRotated(t.left));
    RotateR(tree, parent, ns, z, s);
    var l, r := 0, 0;
    if bf == -1 {
      r := 1;
    } else if bf == 1 {
      l := -1;
    } else if bf != 0 {
      assert false;
    }
    Refactor(tree, subL, subLR, parent, l, 0, r, ns, z, RightRotated(s));
  }

  method RotateRL(tree: Tree<int>, parent: Node<int>, ghost ns: set<Node<int>>, ghost z: Path<int>, ghost t: Shape<int>)
    requires t.Branch? && t.right.Branch? && t.right.left.Branch? && -1 <= t.right.left.tag <= 1
    requires t.node == parent && At(Snap(ns), z, t, tree.root)
    modifies tree`root, ns
    ensures At(Snap(ns), z, RightLeftRotated(t), tree.root)
  {
    ghost var y := RightOf(z, t.left, parent, t.tag);
    MiddleOfRight(Snap(ns), z, t, tree.root);
    var subR := parent.right;
    var subRL := subR.left;
    var bf := subRL.tag;
    RotateR(tree, parent.right, ns, y, t.right);
    StepUp(Snap(ns), y, RightRotated(t.right), tree.root);
    ghost var s := t.(right := RightRotated(t.right));
    RotateL(tree, parent, ns, z, s);
    var l, r := 0, 0;
    if bf == 1 {
      l := -1;
    } else if bf == -1 {
      r := 1;
    } else if bf != 0 {
      assert false;
    }
    Refactor(tree, parent, subRL, subR, l, 0, r, ns, z, LeftRotated(s));
  }

  // ---------- The climb ----------

  ghost predicate Keeps(ns: set<Node<int>>, order: seq<Node<int>>, z: Path<int>, t: Shape<int>) {
    Nodes(Plug(z, t)) == ns && Order(Plug(z, t)) == order
  }

  /** Only the nodes and their order matter for the rest of the tree. */
  lemma KeepsSwap(ns: set<Node<int>>, order: seq<Node<int>>, z: Path<int>, t: Shape<int>, t': Shape<int>)
    requires Keeps(ns, order, z, t) && Nodes(t') == Nodes(t) && Order(t') == Order(t)
    ensures Keeps(ns, order, z, t')
  {
    PlugNodes(z, t);
    PlugNodes(z, t');
    PlugOrder(z, t);
    PlugOrder(z, t');
  }

  lemma UpdatedKeeps(ns: set<Node<int>>, order: seq<Node<int>>, z: Path<int>, t: Shape<int>)
    requires Keeps(ns, order, z, t) && !z.Top?
    ensures Keeps(ns, order, z.up, Updated(z, t))
  {
    var u := Updated(z, t);
    assert Plug(z.up, u.(tag := z.tag)) == Plug(z, t);
    KeepsSwap(ns, order, z.up, u.(tag := z.tag), u);
  }

  lemma LeftRotatedKeeps(t: Shape<int>)
    requires t.Branch? && t.right.Branch? && Distinct(t)
    ensures Order(LeftRotated(t)) == Order(t) && Nodes(LeftRotated(t)) == Nodes(t) && Distinct(LeftRotated(t))
  {
    RotationKeepsOrder(t);
    LeftRotationNodes(t);
    var r, s := RotatedLeft(t), LeftRotated(t);
    assert Order(s.left) == Order(r.left) && Nodes(s.left) == Nodes(r.left) && Distinct(s.left);
  }

  lemma RightRotatedKeeps(t: Shape<int>)
    requires t.Branch? && t.left.Branch? && Distinct(t)
    ensures Order(RightRotated(t)) == Order(t) && Nodes(RightRotated(t)) == Nodes(t) && Distinct(RightRotated(t))
  {
    RightRotationKeepsOrder(t);
    RightRotationNodes(t);
    var r, s := RotatedRight(t), RightRotated(t);
    assert Order(s.right) == Order(r.right) && Nodes(s.right) == Nodes(r.right) && Distinct(s.right);
  }

  lemma RefactoredKeeps(t: Shape<int>, l: int, m: int, r: int)
    requires t.Branch? && t.left.Branch? && t.right.Branch?
    ensures Order(Refactored(t, l, m, r)) == Order(t) && Nodes(Refactored(t, l, m, r)) == Nodes(t)
  {
    var s := Refactored(t, l, m, r);
    assert Order(s.left) == Order(t.left) && Order(s.right) == Order(t.right);
    assert Nodes(s.left) == Nodes(t.left) && Nodes(s.right) == Nodes(t.right);
  }

  lemma LeftRightRotatedKeeps(t: Shape<int>)
    requires t.Branch? && t.left.Branch? && t.left.right.Branch? && Distinct(t)
    ensures Order(LeftRightRotated(t)) == Order(t) && Nodes(LeftRightRotated(t)) == Nodes(t)
  {
    LeftRotatedKeeps(t.left);
    var s, bf := t.(left := LeftRotated(t.left)), t.left.right.tag;
    RightRotatedKeeps(s);
    RefactoredKeeps(RightRotated(s), if bf == 1 then -1 else 0, 0, if bf == -1 then 1 else 0);
  }

  lemma RightLeftRotatedKeeps(t: Shape<int>)
    requires t.Branch? && t.right.Branch? && t.right.left.Branch? && Distinct(t)
    ensures Order(RightLeftRotated(t)) == Order(t) && Nodes(RightLeftRotated(t)) == Nodes(t)
  {
    RightRotatedKeeps(t.right);
    var s, bf := t.(right := RightRotated(t.right)), t.right.left.tag;
    LeftRotatedKeeps(s);
    RefactoredKeeps(LeftRotated(s), if bf == 1 then -1 else 0, 0, if bf == -1 then 1 else 0);
  }

  lemma RepairedKeeps(ns: set<Node<int>>, order: seq<Node<int>>, z: Path<int>, t: Shape<int>)
    requires !z.Top? && Keeps(ns, order, z.up, Updated(z, t)) && Distinct(Updated(z, t))
    requires t.Branch? && ((t.tag == 1 && t.right.Branch?) || (t.tag == -1 && t.left.Branch?))
    ensures Keeps(ns, order, z.up, Repaired(z, t))
  {
    var u := Updated(z, t);
    if z.LeftOf? {
      if t.tag == -1 { RightRotatedKeeps(u); } else { LeftRightRotatedKeeps(u); }
    } else {
      if t.tag == 1 { LeftRotatedKeeps(u); } else { RightLeftRotatedKeeps(u); }
    }
    KeepsSwap(ns, order, z.up, u, Repaired(z, t));
  }

  /** The update of the parent's factor at the start of a turn. */
  method Count(tree: Tree<int>, cur: Node<int>, parent: Node<int>, ghost ns: set<Node<int>>, ghost z: Path<int>,
               ghost t: Shape<int>)
    requires At(Snap(ns), z, t, tree.root) && t.Branch? && cur == t.node && !z.Top? && parent == z.node
    modifies ns
    ensures At(Snap(ns), z.up, Updated(z, t), tree.root)
  {
    StepUp(Snap(ns), z, t, tree.root);
    OneChild(Snap(ns), z, cur, tree.root);
    ghost var u0 := Updated(z, t);
    ghost var u := u0.(tag := z.tag);
    StepDown(Snap(ns), z.up, u, tree.root);
    if cur == parent.left {
      tree.SetTag(parent, parent.tag - 1, ns, z.up, u);
    } else {
      tree.SetTag(parent, parent.tag + 1, ns, z.up, u);
    }
  }

  /** The four rotation cases for a factor of 2 or -2. */
  method Repair(tree: Tree<int>, cur: Node<int>, parent: Node<int>, ghost ns: set<Node<int>>, ghost z: Path<int>,
                ghost t: Shape<int>)
    requires Grown(z, t) && !z.Top? && (Updated(z, t).tag == 2 || Updated(z, t).tag == -2)
    requires cur == t.node && parent == z.node && At(Snap(ns), z.up, Updated(z, t), tree.root)
    requires (t.tag == 1 && t.right.Branch?) || (t.tag == -1 && t.left.Branch?)
    modifies tree`root, ns
    ensures At(Snap(ns), z.up, Repaired(z, t), tree.root)
  {
    ghost var u := Updated(z, t);
    TwoFacts(z, t);
    StepDown(Snap(ns), z.up, u, tree.root);
    StepDown(Snap(ns), if z.LeftOf? then LeftOf(z.up, z.node, u.tag, z.right) else RightOf(z.up, z.left, z.node, u.tag), t, tree.root);
    if parent.tag == 2 && cur.tag == 1 {
      RotateL(tree, parent, ns, z.up, u);
    } else if parent.tag == -2 && cur.tag == -1 {
      RotateR(tree, parent, ns, z.up, u);
    } else if parent.tag == -2 && cur.tag == 1 {
      RotateLR(tree, parent, ns, z.up, u);
    } else if parent.tag == 2 && cur.tag == -1 {
      RotateRL(tree, parent, ns, z.up, u);
    } else {
      assert false;
    }
  }

  /** One turn of the loop: balance is restored everywhere, or the parent's subtree is the grown one. */
  method Turn(tree: Tree<int>, cur: Node<int>, parent: Node<int>, ghost ns: set<Node<int>>,
              ghost z: Path<int>, ghost t: Shape<int>, ghost order: seq<Node<int>>)
    returns (done: bool, ghost t': Shape<int>)
    requires At(Snap(ns), z, t, tree.root) && Grown(z, t) && Keeps(ns, order, z, t)
    requires !z.Top? && cur == t.node && parent == z.node
    modifies tree`root, ns
    ensures At(Snap(ns), z.up, t', tree.root) && Keeps(ns, order, z.up, t')
    ensures if done then Avl(t') && PathAvl(z.up, Height(t')) else Grown(z.up, t') && t'.node == parent
  {
    UpdatedKeeps(ns, order, z, t);
    Count(tree, cur, parent, ns, z, t);
    t' := Updated(z, t);
    StepDown(Snap(ns), z.up, t', tree.root);
    if parent.tag == 0 {
      UpdatedZero(z, t);
      done := true;
    } else if parent.tag == 1 || parent.tag == -1 {
      UpdatedOne(z, t);
      done := false;
    } else if parent.tag == 2 || parent.tag == -2 {
      TwoFacts(z, t);
      RepairedAvl(z, t);
      RepairedKeeps(ns, order, z, t);
      Repair(tree, cur, parent, ns, z, t);
      t' := Repaired(z, t);
      done := true;
    } else {
      assert false;
    }
  }

  method FixUp(tree: Tree<int>, start: Node<int>, ghost ns: set<Node<int>>, ghost z0: Path<int>, ghost t0: Shape<int>,
               ghost order: seq<Node<int>>)
    returns (ghost s: Shape<int>)
    requires At(Snap(ns), z0, t0, tree.root) && Grown(z0, t0) && Keeps(ns, order, z0, t0) && start == t0.node
    modifies tree`root, ns
    ensures At(Snap(ns), Top, s, tree.root) && Avl(s) && Keeps(ns, order, Top, s)
  {
    ghost var z, t := z0, t0;
    var cur := start;
    StepDown(Snap(ns), z, t, tree.root);
    var parent := cur.parent;
    while parent != null
      invariant At(Snap(ns), z, t, tree.root) && Grown(z, t) && Keeps(ns, order, z, t)
      invariant cur == t.node && parent == Holder(z)
      decreases Depth(z)
    {
      var done;
      done, t := Turn(tree, cur, parent, ns, z, t, order);
      z := z.up;
      if done {
        PlugAt(Snap(ns), z, t, tree.root);
        PlugAvl(z, t);
        s := Plug(z, t);
        return;
      }
      StepDown(Snap(ns), z, t, tree.root);
      cur := parent;
      parent := parent.parent;
    }
    s := t;
  }

  // ---------- Insertion ----------

  ghost predicate Valid(tree: Tree<int>)
    reads tree, Nodes(tree.shape)
  {
    tree.Valid() && Avl(tree.shape)
  }

  method InsertFirst(tree: Tree<int>, data: Entry) returns (it: Node<int>)
    requires tree.Valid() && tree.root == null
    modifies tree
    ensures Valid(tree) && fresh(it) && it.data == data && Order(tree.shape) == [it] && Nodes(tree.shape) == {it}
  {
    it := new Node(data, 0);
    tree.root := it;
    ghost var s := Branch(Leaf, it, 0, Leaf);
    assert Nodes(s) == Nodes<int>(Leaf) + {it} + Nodes<int>(Leaf) == {it};
    assert Order(s) == [it];
    tree.Rebuilt(s);
  }

  method InsertBelow(tree: Tree<int>, data: Entry, parent: Node<int>, ghost z: Path<int>) returns (it: Node<int>)
    requires Valid(tree) && Plug(z, Leaf) == tree.shape && At(Snap(Nodes(tree.shape)), z, Leaf, tree.root)
    requires parent == Holder(z) && Below(Before(z), data.key) && Above(After(z), data.key)
    modifies tree, Nodes(tree.shape)
    ensures Valid(tree) && fresh(it) && it.data == data
    ensures PutInto(old(Order(tree.shape)), Order(tree.shape), it) && Nodes(tree.shape) == old(Nodes(tree.shape)) + {it}
  {
    ghost var ns := Nodes(tree.shape);
    PathKeys(Snap(ns), z, null, tree.root);
    it := tree.Attach(parent, data, 0, ns, z);
    FreshOrder(z, tree.shape, it, 0);
    PlugAvl(z, Leaf);
    PutBetween(Before(z), After(z), it);
    ghost var t := Branch(Leaf, it, 0, Leaf);
    ghost var s := FixUp(tree, it, ns + {it}, z, t, Before(z) + [it] + After(z));
    tree.Rebuilt(s);
  }

  /** `Insert`: finds the key, or links one new node and restores balance. */
  method Insert(tree: Tree<int>, data: Entry) returns (inserted: bool)
    requires Valid(tree)
    modifies tree, Nodes(tree.shape)
    ensures Valid(tree)
    ensures inserted <==> !HasKey(old(Order(tree.shape)), data.key)
    ensures !inserted ==> tree.shape == old(tree.shape)
    ensures inserted ==> exists it: Node<int> ::
      fresh(it) && it.data == data && PutInto(old(Order(tree.shape)), Order(tree.shape), it)
    ensures fresh(Nodes(tree.shape) - old(Nodes(tree.shape)))
  {
    if tree.root == null {
      var it := InsertFirst(tree, data);
      PutBetween([], [], it);
      return true;
    }
    var parent, cur, z, t := tree.Descend(data.key);
    assert Snap(Nodes(tree.shape)) == old(Snap(Nodes(tree.shape)));
    PlugOrder(z, t);
    if cur != null {
      assert cur in Order(t);
      return false;
    }
    KeyAbsent(Before(z), After(z), data.key);
    var it := InsertBelow(tree, data, parent, z);
    return true;
  }

  /** Every run of inserts from the empty tree keeps all factors right, and stores exactly the first entry of each
      key. */
  method InsertAll(es: seq<Entry>) returns (tree: Tree<int>)
    ensures Valid(tree)
    ensures Stored(Order(tree.shape)) == FirstOfEachKey(es)
  {
    tree := new Tree();
    for i := 0 to |es|
      invariant Valid(tree) && fresh(tree) && fresh(Nodes(tree.shape))
      invariant Stored(Order(tree.shape)) == FirstOfEachKey(es[..i])
    {
      ghost var before := Order(tree.shape);
      var inserted := Insert(tree, es[i]);
      StoredNext(before, Order(tree.shape), es, i, inserted);
    }
    assert es[..|es|] == es;
  }

  // ---------- The checker ----------

  method HeightOf(node: Node?<int>, ghost ns: set<Node<int>>, ghost z: Path<int>, ghost t: Shape<int>,
                  ghost root: Node?<int>)
    returns (k: nat)
    requires At(Snap(ns), z, t, root) && node == RootOf(t)
    ensures k == Height(t)
    decreases t
  {
    if node == null {
      return 0;
    }
    ghost var h := Snap(ns);
    StepDown(h, z, t, root);
    var lh := HeightOf(node.left, ns, LeftOf(z, node, t.tag, t.right), t.left, root);
    assert Snap(ns) == h;
    var rh := HeightOf(node.right, ns, RightOf(z, t.left, node, t.tag), t.right, root);
    return if lh > rh then lh + 1 else rh + 1;
  }

  /** `IsBalance` decides the balance rule of a subtree exactly, stored factors included. */
  method IsBalance(node: Node?<int>, ghost ns: set<Node<int>>, ghost z: Path<int>, ghost t: Shape<int>,
                   ghost root: Node?<int>)
    returns (ok: bool)
    requires At(Snap(ns), z, t, root) && node == RootOf(t)
    ensures ok <==> Avl(t)
    decreases t
  {
    if node == null {
      return true;
    }
    ghost var h := Snap(ns);
    StepDown(h, z, t, root);
    var leftHeight: int := HeightOf(node.left, ns, LeftOf(z, node, t.tag, t.right), t.left, root);
    assert Snap(ns) == h;
    var rightHeight: int := HeightOf(node.right, ns, RightOf(z, t.left, node, t.tag), t.right, root);
    assert Snap(ns) == h;
    if rightHeight - leftHeight != node.tag {
      return false;
    }
    if !(-2 < rightHeight - leftHeight < 2) {
      return false;
    }
    ok := IsBalance(node.left, ns, LeftOf(z, node, t.tag, t.right), t.left, root);
    if ok {
      assert Snap(ns) == h;
      ok := IsBalance(node.right, ns, RightOf(z, t.left, node, t.tag), t.right, root);
    }
  }

  // ---------- Height ----------

  ghost function Fib(n: nat): nat {
    if n < 2 then n else Fib(n - 1) + Fib(n - 2)
  }

  lemma {:induction false} FibMonotone(a: nat, b: nat)
    requires a <= b
    ensures Fib(a) <= Fib(b)
  {
    if a < b { FibMonotone(a, b - 1); }
  }

  /** An AVL tree of height `k` has at least `Fib(k + 2) - 1` nodes. */
  lemma {:induction false} SizeBound(t: Shape<int>)
    requires Avl(t)
    ensures Size(t) + 1 >= Fib(Height(t) + 2)
  {
    if t.Branch? {
      SizeBound(t.left);
      SizeBound(t.right);
      FibBound(Height(t.left), Height(t.right), Size(t.left), Size(t.right), Height(t));
    }
  }

  lemma FibBound(a: nat, b: nat, m: nat, n: nat, k: nat)
    requires k == 1 + Max(a, b) && -1 <= a - b <= 1 && m + 1 >= Fib(a + 2) && n + 1 >= Fib(b + 2)
    ensures m + n + 2 >= Fib(k + 2)
  {
    assert Fib(k + 2) == Fib(k + 1) + Fib(k);
    FibMonotone(k, a + 2);
    FibMonotone(k, b + 2);
  }
}
