/**
 Red-black insertion of `Algorithm/RBTree.hpp`: walk down, link a red node, then
 climb by parent pointers, recolouring or rotating. While climbing, the colour
 rules hold everywhere except between the current node and its parent.
 */
module RBTree {
  import opened Common
  import opened LinkedTree

  datatype Color = Red | Black

  // ---------- The colour rules ----------

  ghost predicate IsRed(t: Shape<Color>) {
    t.Branch? && t.tag.Red?
  }

  /** Black nodes on the leftmost way down. */
  ghost function BlackHeight(t: Shape<Color>): nat {
    if t.Leaf? then 0 else BlackHeight(t.left) + if t.tag.Black? then 1 else 0
  }

  /** Equal black counts on all ways down, and no red node with a red child. */
  ghost predicate RedBlack(t: Shape<Color>) {
    t.Branch? ==>
      && RedBlack(t.left) && RedBlack(t.right)
      && BlackHeight(t.left) == BlackHeight(t.right)
      && (t.tag.Red? ==> !IsRed(t.left) && !IsRed(t.right))
  }

  ghost predicate RedHolder(z: Path<Color>) {
    !z.Top? && z.tag.Red?
  }

  /** The surroundings are red-black for a subtree of black height `k`; their outermost node is black. */
  ghost predicate PathRedBlack(z: Path<Color>, k: nat) {
    match z
    case Top => true
    case LeftOf(up, _, g, r) =>
      && RedBlack(r) && BlackHeight(r) == k && (g.Red? ==> !IsRed(r) && !up.Top? && !RedHolder(up))
      && PathRedBlack(up, k + if g.Black? then 1 else 0)
    case RightOf(up, l, _, g) =>
      && RedBlack(l) && BlackHeight(l) == k && (g.Red? ==> !IsRed(l) && !up.Top? && !RedHolder(up))
      && PathRedBlack(up, k + if g.Black? then 1 else 0)
  }

  /** A tree is red-black with a black root exactly when a subtree, its surroundings and the link between them are. */
  lemma {:induction false} PlugRedBlack(z: Path<Color>, t: Shape<Color>)
    ensures RedBlack(Plug(z, t)) && !IsRed(Plug(z, t)) <==>
            RedBlack(t) && PathRedBlack(z, BlackHeight(t)) && !(IsRed(t) && (z.Top? || RedHolder(z)))
    decreases z
  {
    match z
    case Top =>
    case LeftOf(up, n, g, r) => PlugRedBlack(up, Branch(t, n, g, r));
    case RightOf(up, l, n, g) => PlugRedBlack(up, Branch(l, n, g, t));
  }

  // ---------- One turn of the loop, on shapes ----------

  /** A red node `t` below a red parent: the subtree of the grandparent. */
  ghost function GrandShape(z: Path<Color>, t: Shape<Color>): (r: Shape<Color>)
    requires !z.Top? && !z.up.Top?
  {
    var p := if z.LeftOf? then Branch(t, z.node, z.tag, z.right) else Branch(z.left, z.node, z.tag, t);
    if z.up.LeftOf? then Branch(p, z.up.node, z.up.tag, z.up.right) else Branch(z.up.left, z.up.node, z.up.tag, p)
  }

  ghost function Uncle(z: Path<Color>): (r: Shape<Color>)
    requires !z.Top? && !z.up.Top?
  {
    if z.up.LeftOf? then z.up.right else z.up.left
  }

  ghost predicate Clash(z: Path<Color>, t: Shape<Color>) {
    && IsRed(t) && RedHolder(z) && RedBlack(t) && PathRedBlack(z, BlackHeight(t))
  }

  /** The top node of a subtree and both its children painted. */
  ghost function Painted(t: Shape<Color>, top: Color, children: Color): (r: Shape<Color>)
    requires t.Branch? && t.left.Branch? && t.right.Branch?
  {
    Branch(t.left.(tag := children), t.node, top, t.right.(tag := children))
  }

  /** The grandparent's subtree after the rotations, before painting. */
  ghost function Rotated(z: Path<Color>, t: Shape<Color>): (r: Shape<Color>)
    requires !z.Top? && !z.up.Top? && t.Branch?
    ensures r.Branch? && r.left.Branch? && r.right.Branch?
  {
    var g := GrandShape(z, t);
    if z.up.LeftOf? then
      RotatedRight(if z.LeftOf? then g else g.(left := RotatedLeft(g.left)))
    else
      RotatedLeft(if z.RightOf? then g else g.(right := RotatedRight(g.right)))
  }

  lemma GrandOrder(z: Path<Color>, t: Shape<Color>)
    requires !z.Top? && !z.up.Top?
    ensures Plug(z.up.up, GrandShape(z, t)) == Plug(z, t)
  {}

  lemma RotatedOrder(z: Path<Color>, t: Shape<Color>)
    requires !z.Top? && !z.up.Top? && t.Branch?
    ensures Order(Rotated(z, t)) == Order(GrandShape(z, t))
  {
    var g := GrandShape(z, t);
    if z.up.LeftOf? {
      if z.LeftOf? { RightRotationKeepsOrder(g); }
      else { RotationKeepsOrder(g.left); RightRotationKeepsOrder(g.(left := RotatedLeft(g.left))); }
    } else {
      if z.RightOf? { RotationKeepsOrder(g); }
      else { RightRotationKeepsOrder(g.right); RotationKeepsOrder(g.(right := RotatedRight(g.right))); }
    }
  }

  /** What the colour rules say around a clash. */
  lemma ClashFacts(z: Path<Color>, t: Shape<Color>)
    requires Clash(z, t)
    ensures !z.up.Top? && z.up.tag.Black?
    ensures RedBlack(Uncle(z)) && BlackHeight(Uncle(z)) == BlackHeight(t)
    ensures PathRedBlack(z.up.up, BlackHeight(t) + 1)
    ensures RedBlack(t.left) && RedBlack(t.right) && !IsRed(t.left) && !IsRed(t.right)
    ensures BlackHeight(t.left) == BlackHeight(t.right) == BlackHeight(t)
    ensures var s := if z.LeftOf? then z.right else z.left; RedBlack(s) && BlackHeight(s) == BlackHeight(t) && !IsRed(s)
  {
    assert PathRedBlack(z.up, BlackHeight(t));
  }

  lemma RecolourStep(z: Path<Color>, t: Shape<Color>)
    requires Clash(z, t) && IsRed(Uncle(z))
    ensures var g := Painted(GrandShape(z, t), Red, Black);
            RedBlack(g) && PathRedBlack(z.up.up, BlackHeight(g))
  {
    ClashFacts(z, t);
    var g := Painted(GrandShape(z, t), Red, Black);
    var u := if z.up.LeftOf? then g.right else g.left;
    var p := if z.up.LeftOf? then g.left else g.right;
    assert RedBlack(p) && BlackHeight(p) == BlackHeight(t) + 1;
    assert RedBlack(u) && BlackHeight(u) == BlackHeight(t) + 1;
  }

  lemma RotateStep(z: Path<Color>, t: Shape<Color>)
    requires Clash(z, t) && !IsRed(Uncle(z))
    ensures var g := Painted(Rotated(z, t), Black, Red);
            RedBlack(g) && PathRedBlack(z.up.up, BlackHeight(g)) && !IsRed(g)
  {
    ClashFacts(z, t);
    var g := Painted(Rotated(z, t), Black, Red);
    assert RedBlack(g.left) && BlackHeight(g.left) == BlackHeight(t);
    assert RedBlack(g.right) && BlackHeight(g.right) == BlackHeight(t);
  }

  // ---------- One turn of the loop, in the heap ----------

  lemma PaintedFacts(t: Shape<Color>, top: Color, children: Color)
    requires t.Branch? && t.left.Branch? && t.right.Branch? && Distinct(t)
    ensures Nodes(Painted(t, top, children)) == Nodes(t) && Distinct(Painted(t, top, children))
    ensures Order(Painted(t, top, children)) == Order(t)
    ensures t.node != t.left.node && t.node != t.right.node && t.left.node != t.right.node
  {
    assert Nodes(t.left.(tag := children)) == Nodes(t.left) && Order(t.left.(tag := children)) == Order(t.left);
    assert Nodes(t.right.(tag := children)) == Nodes(t.right) && Order(t.right.(tag := children)) == Order(t.right);
    assert t.left.node in Nodes(t.left) && t.right.node in Nodes(t.right);
    assert Distinct(t.left) && Distinct(t.right);
  }

  ghost function HeapPainted(h: Heap<Color>, t: Shape<Color>, top: Color, children: Color): Heap<Color>
    requires t.Branch? && t.left.Branch? && t.right.Branch? && {t.node, t.left.node, t.right.node} <= h.Keys
  {
    h[t.left.node := h[t.left.node].(tag := children)]
     [t.right.node := h[t.right.node].(tag := children)]
     [t.node := h[t.node].(tag := top)]
  }

  lemma PaintedAt(h: Heap<Color>, z: Path<Color>, t: Shape<Color>, root: Node?<Color>, top: Color, children: Color)
    requires t.Branch? && t.left.Branch? && t.right.Branch? && At(h, z, t, root)
    ensures {t.node, t.left.node, t.right.node} <= h.Keys
    ensures At(HeapPainted(h, t, top, children), z, Painted(t, top, children), root)
  {
    PaintedFacts(t, top, children);
    assert Linked(h, t.left, t.node) && Linked(h, t.right, t.node);
    var h' := HeapPainted(h, t, top, children);
    assert t.left.node in Nodes(t.left) && t.right.node in Nodes(t.right);
    RootRetagged(h, h', t.left, t.node, children);
    RootRetagged(h, h', t.right, t.node, children);
    PathFrame(h, h', z, t.node, root);
  }

  /** `top->_col = a; left->_col = right->_col = b`. */
  method Paint(top: Node<Color>, left: Node<Color>, right: Node<Color>, a: Color, b: Color,
               ghost ns: set<Node<Color>>, ghost z: Path<Color>, ghost t: Shape<Color>, ghost root: Node?<Color>)
    requires At(Snap(ns), z, t, root) && t.Branch? && t.left.Branch? && t.right.Branch?
    requires top == t.node && left == t.left.node && right == t.right.node
    modifies ns
    ensures At(Snap(ns), z, Painted(t, a, b), root)
  {
    ghost var h := Snap(ns);
    PaintedAt(h, z, t, root, a, b);
    PaintedFacts(t, a, b);
    left.tag := b;
    right.tag := b;
    top.tag := a;
    assert Snap(ns) == HeapPainted(h, t, a, b);
  }

  /** The state of the climb: a red node that may clash with its parent, nothing else wrong. */
  ghost predicate Climbing(h: Heap<Color>, root: Node?<Color>, z: Path<Color>, t: Shape<Color>, order: seq<Node<Color>>) {
    At(h, z, t, root) && Balanced(h.Keys, z, t, order)
  }

  lemma RefocusTwice(h: Heap<Color>, root: Node?<Color>, z: Path<Color>, t: Shape<Color>)
    requires At(h, z, t, root) && !z.Top? && !z.up.Top?
    ensures At(h, z.up.up, GrandShape(z, t), root)
  {
    StepUp(h, z, t, root);
    StepUp(h, z.up, if z.LeftOf? then Branch(t, z.node, z.tag, z.right) else Branch(z.left, z.node, z.tag, t), root);
  }

  /** Everything `Climbing` asks of a shape apart from the heap. */
  ghost predicate Balanced(ns: set<Node<Color>>, z: Path<Color>, t: Shape<Color>, order: seq<Node<Color>>) {
    && t.Branch? && RedBlack(t) && PathRedBlack(z, BlackHeight(t))
    && Nodes(Plug(z, t)) == ns && Order(Plug(z, t)) == order
  }

  lemma RecolouredClimb(h: Heap<Color>, root: Node?<Color>, z: Path<Color>, t: Shape<Color>, order: seq<Node<Color>>)
    requires Climbing(h, root, z, t, order) && Clash(z, t) && IsRed(Uncle(z))
    ensures Balanced(h.Keys, z.up.up, Painted(GrandShape(z, t), Red, Black), order)
  {
    RecolourStep(z, t);
    RefocusTwice(h, root, z, t);
    Regrown(h, root, z, t, GrandShape(z, t), Red, Black);
  }

  lemma RotatedClimb(h: Heap<Color>, root: Node?<Color>, z: Path<Color>, t: Shape<Color>, order: seq<Node<Color>>)
    requires Climbing(h, root, z, t, order) && Clash(z, t) && !IsRed(Uncle(z))
    ensures Balanced(h.Keys, z.up.up, Painted(Rotated(z, t), Black, Red), order)
    ensures !IsRed(Painted(Rotated(z, t), Black, Red))
  {
    RotateStep(z, t);
    RefocusTwice(h, root, z, t);
    RotatedOrder(z, t);
    RotatedNodes(z, t);
    Regrown(h, root, z, t, Rotated(z, t), Black, Red);
  }

  lemma RotatedNodes(z: Path<Color>, t: Shape<Color>)
    requires !z.Top? && !z.up.Top? && t.Branch? && Distinct(GrandShape(z, t))
    ensures Nodes(Rotated(z, t)) == Nodes(GrandShape(z, t)) && Distinct(Rotated(z, t))
  {
    var g := GrandShape(z, t);
    if z.up.LeftOf? {
      if z.RightOf? { LeftRotationNodes(g.left); g := g.(left := RotatedLeft(g.left)); }
      RightRotationNodes(g);
    } else {
      if z.LeftOf? { RightRotationNodes(g.right); g := g.(right := RotatedRight(g.right)); }
      LeftRotationNodes(g);
    }
  }

  /** Replacing the grandparent's subtree by one with the same nodes in the same order keeps the whole order. */
  lemma Regrown(h: Heap<Color>, root: Node?<Color>, z: Path<Color>, t: Shape<Color>, g: Shape<Color>, a: Color,
                b: Color)
    requires At(h, z, t, root) && !z.Top? && !z.up.Top?
    requires g.Branch? && g.left.Branch? && g.right.Branch? && Distinct(g)
    requires Order(g) == Order(GrandShape(z, t)) && Nodes(g) == Nodes(GrandShape(z, t))
    ensures Order(Plug(z.up.up, Painted(g, a, b))) == Order(Plug(z, t))
    ensures Nodes(Plug(z.up.up, Painted(g, a, b))) == Nodes(Plug(z, t))
  {
    GrandOrder(z, t);
    PaintedFacts(g, a, b);
    PlugOrder(z.up.up, GrandShape(z, t));
    PlugNodes(z.up.up, GrandShape(z, t));
    PlugOrder(z.up.up, Painted(g, a, b));
    PlugNodes(z.up.up, Painted(g, a, b));
  }

  /** The three nodes of a clash as the loop sees them. */
  ghost predicate AtClash(h: Heap<Color>, root: Node?<Color>, z: Path<Color>, t: Shape<Color>, order: seq<Node<Color>>,
                          cur: Node<Color>, parent: Node<Color>, grand: Node<Color>) {
    && Climbing(h, root, z, t, order) && Clash(z, t) && !z.up.Top?
    && cur == t.node && parent == z.node && grand == z.up.node
  }

  lemma ClashCells(h: Heap<Color>, root: Node?<Color>, z: Path<Color>, t: Shape<Color>)
    requires At(h, z, t, root) && t.Branch? && !z.Top? && !z.up.Top?
    ensures {t.node, z.node, z.up.node} <= h.Keys
    ensures h[t.node].parent == z.node && h[z.node].parent == z.up.node && h[z.up.node].parent == Holder(z.up.up)
    ensures h[z.node].tag == z.tag
    ensures z.LeftOf? <==> h[z.node].left == t.node
    ensures z.RightOf? <==> h[z.node].right == t.node
    ensures z.up.LeftOf? <==> h[z.up.node].left == z.node
    ensures z.up.RightOf? <==> h[z.up.node].right == z.node
    ensures h[z.up.node] == if z.up.LeftOf? then Cell(z.node, RootOf(Uncle(z)), Holder(z.up.up), z.up.tag)
                                            else Cell(RootOf(Uncle(z)), z.node, Holder(z.up.up), z.up.tag)
    ensures Uncle(z).Branch? ==> Uncle(z).node in h && h[Uncle(z).node].tag == Uncle(z).tag
  {
    assert t.node in Nodes(t);
    OneChild(h, z, t.node, root);
    OneChild(h, z.up, z.node, root);
    assert Linked(h, Uncle(z), z.up.node);
  }

  /** The rotation cases for a parent that is a left child. */
  method LiftLeft(tree: Tree<Color>, cur: Node<Color>, parent: Node<Color>, grand: Node<Color>,
                  ghost ns: set<Node<Color>>, ghost z: Path<Color>, ghost t: Shape<Color>)
    requires At(Snap(ns), z, t, tree.root) && !z.Top? && z.up.LeftOf?
    requires t.Branch? && cur == t.node && parent == z.node && grand == z.up.node
    modifies tree`root, ns
    ensures At(Snap(ns), z.up.up, Painted(Rotated(z, t), Black, Red), tree.root)
  {
    ghost var h, g, z' := Snap(ns), GrandShape(z, t), z.up.up;
    ClashCells(h, tree.root, z, t);
    RefocusTwice(h, tree.root, z, t);
    if parent.left == cur {
      tree.RotateR(grand, ns, z', g);
      Paint(parent, cur, grand, Black, Red, ns, z', Rotated(z, t), tree.root);
    } else {
      tree.RotateLR(grand, parent, ns, z', g);
      Paint(cur, parent, grand, Black, Red, ns, z', Rotated(z, t), tree.root);
    }
  }

  /** The branch for a parent that is a left child. */
  method FixLeft(tree: Tree<Color>, cur: Node<Color>, parent: Node<Color>, grand: Node<Color>,
                 ghost ns: set<Node<Color>>, ghost z: Path<Color>, ghost t: Shape<Color>, ghost order: seq<Node<Color>>)
    returns (done: bool, ghost z': Path<Color>, ghost t': Shape<Color>)
    requires AtClash(Snap(ns), tree.root, z, t, order, cur, parent, grand) && z.up.LeftOf?
    modifies tree`root, ns
    ensures Climbing(Snap(ns), tree.root, z', t', order)
    ensures z' == z.up.up
    ensures if done then !IsRed(t') else IsRed(t') && t'.node == grand
  {
    ghost var h, g := Snap(ns), GrandShape(z, t);
    ClashCells(h, tree.root, z, t);
    RefocusTwice(h, tree.root, z, t);
    z' := z.up.up;
    var uncle := grand.right;
    if uncle != null && uncle.tag == Red {
      RecolouredClimb(h, tree.root, z, t, order);
      Paint(grand, parent, uncle, Red, Black, ns, z', g, tree.root);
      done, t' := false, Painted(g, Red, Black);
    } else {
      RotatedClimb(h, tree.root, z, t, order);
      LiftLeft(tree, cur, parent, grand, ns, z, t);
      done, t' := true, Painted(Rotated(z, t), Black, Red);
    }
  }

  /** The rotation cases for a parent that is a right child. */
  method LiftRight(tree: Tree<Color>, cur: Node<Color>, parent: Node<Color>, grand: Node<Color>,
                  ghost ns: set<Node<Color>>, ghost z: Path<Color>, ghost t: Shape<Color>)
    requires At(Snap(ns), z, t, tree.root) && !z.Top? && z.up.RightOf?
    requires t.Branch? && cur == t.node && parent == z.node && grand == z.up.node
    modifies tree`root, ns
    ensures At(Snap(ns), z.up.up, Painted(Rotated(z, t), Black, Red), tree.root)
  {
    ghost var h, g, z' := Snap(ns), GrandShape(z, t), z.up.up;
    ClashCells(h, tree.root, z, t);
    RefocusTwice(h, tree.root, z, t);
    if parent.right == cur {
      tree.RotateL(grand, ns, z', g);
      Paint(parent, grand, cur, Black, Red, ns, z', Rotated(z, t), tree.root);
    } else {
      tree.RotateRL(grand, parent, ns, z', g);
      Paint(cur, grand, parent, Black, Red, ns, z', Rotated(z, t), tree.root);
    }
  }

  /** The branch for a parent that is a right child. */
  method FixRight(tree: Tree<Color>, cur: Node<Color>, parent: Node<Color>, grand: Node<Color>,
                  ghost ns: set<Node<Color>>, ghost z: Path<Color>, ghost t: Shape<Color>, ghost order: seq<Node<Color>>)
    returns (done: bool, ghost z': Path<Color>, ghost t': Shape<Color>)
    requires AtClash(Snap(ns), tree.root, z, t, order, cur, parent, grand) && z.up.RightOf?
    modifies tree`root, ns
    ensures Climbing(Snap(ns), tree.root, z', t', order)
    ensures z' == z.up.up
    ensures if done then !IsRed(t') else IsRed(t') && t'.node == grand
  {
    ghost var h, g := Snap(ns), GrandShape(z, t);
    ClashCells(h, tree.root, z, t);
    RefocusTwice(h, tree.root, z, t);
    z' := z.up.up;
    var uncle := grand.left;
    if uncle != null && uncle.tag == Red {
      RecolouredClimb(h, tree.root, z, t, order);
      Paint(grand, uncle, parent, Red, Black, ns, z', g, tree.root);
      done, t' := false, Painted(g, Red, Black);
    } else {
      RotatedClimb(h, tree.root, z, t, order);
      LiftRight(tree, cur, parent, grand, ns, z, t);
      done, t' := true, Painted(Rotated(z, t), Black, Red);
    }
  }

  /** One turn of the loop: the clash is gone, or it has moved up to the grandparent. */
  method Turn(tree: Tree<Color>, cur: Node<Color>, parent: Node<Color>, ghost ns: set<Node<Color>>,
              ghost z: Path<Color>, ghost t: Shape<Color>, ghost order: seq<Node<Color>>)
    returns (done: bool, cur': Node<Color>, ghost z': Path<Color>, ghost t': Shape<Color>)
    requires Climbing(Snap(ns), tree.root, z, t, order) && Clash(z, t) && cur == t.node && parent == z.node
    modifies tree`root, ns
    ensures Climbing(Snap(ns), tree.root, z', t', order)
    ensures Depth(z') + 2 == Depth(z)
    ensures if done then !IsRed(t') else IsRed(t') && t'.node == cur'
  {
    ClashFacts(z, t);
    ClashCells(Snap(ns), tree.root, z, t);
    var grand := parent.parent;
    cur' := grand;
    if grand != null && grand.left == parent {
      done, z', t' := FixLeft(tree, cur, parent, grand, ns, z, t, order);
    } else if grand != null && grand.right == parent {
      done, z', t' := FixRight(tree, cur, parent, grand, ns, z, t, order);
    } else {
      assert false;
    }
  }

  /** The whole climb: however far it goes, it ends with the colour rules restored below the root. */
  method FixUp(tree: Tree<Color>, start: Node<Color>, ghost ns: set<Node<Color>>, ghost z0: Path<Color>,
               ghost t0: Shape<Color>, ghost order: seq<Node<Color>>)
    returns (ghost s: Shape<Color>)
    requires Climbing(Snap(ns), tree.root, z0, t0, order) && IsRed(t0) && start == t0.node
    modifies tree`root, ns
    ensures At(Snap(ns), Top, s, tree.root) && Balanced(ns, Top, s, order)
  {
    ghost var z, t := z0, t0;
    var cur := start;
    Links(Snap(ns), tree.root, z, t);
    var parent := cur.parent;
    while parent != null && parent.tag == Red
      invariant Climbing(Snap(ns), tree.root, z, t, order)
      invariant IsRed(t) && cur == t.node && parent == Holder(z)
      decreases Depth(z)
    {
      Links(Snap(ns), tree.root, z, t);
      var done;
      done, cur, z, t := Turn(tree, cur, parent, ns, z, t, order);
      if done {
        ClimbDone(Snap(ns), tree.root, z, t, order);
        s := Plug(z, t);
        return;
      }
      Links(Snap(ns), tree.root, z, t);
      parent := cur.parent;
    }
    Links(Snap(ns), tree.root, z, t);
    ClimbDone(Snap(ns), tree.root, z, t, order);
    s := Plug(z, t);
  }

  lemma ClimbDone(h: Heap<Color>, root: Node?<Color>, z: Path<Color>, t: Shape<Color>, order: seq<Node<Color>>)
    requires Climbing(h, root, z, t, order) && !(IsRed(t) && RedHolder(z))
    ensures At(h, Top, Plug(z, t), root) && Balanced(h.Keys, Top, Plug(z, t), order)
  {
    PlugAt(h, z, t, root);
    PlugRedBlack(z, t);
  }

  /** What the climb reads: the parent link of the current node and the parent's colour. */
  lemma Links(h: Heap<Color>, root: Node?<Color>, z: Path<Color>, t: Shape<Color>)
    requires At(h, z, t, root) && t.Branch?
    ensures t.node in h && h[t.node].parent == Holder(z)
    ensures !z.Top? ==> z.node in h && h[z.node].tag == z.tag
  {}

  // ---------- Insertion ----------

  ghost predicate Valid(tree: Tree<Color>)
    reads tree, Nodes(tree.shape)
  {
    tree.Valid() && RedBlack(tree.shape) && !IsRed(tree.shape)
  }

  lemma BlackenedRoot(h: Heap<Color>, s: Shape<Color>, root: Node<Color>)
    requires s.Branch? && At(h, Top, s, root) && RedBlack(s)
    ensures root in h && RootOf(s) == root
    ensures At(h[root := h[root].(tag := Black)], Top, s.(tag := Black), root)
    ensures RedBlack(s.(tag := Black)) && Order(s.(tag := Black)) == Order(s) && Nodes(s.(tag := Black)) == Nodes(s)
  {
    RootRetagged(h, h[root := h[root].(tag := Black)], s, null, Black);
  }

  /** The new red leaf is the only place where the colour rules can fail. */
  lemma FreshLeaf(z: Path<Color>, shape: Shape<Color>, cur: Node<Color>)
    requires Plug(z, Leaf) == shape && RedBlack(shape) && !IsRed(shape)
    ensures var t := Branch(Leaf, cur, Red, Leaf); RedBlack(t) && PathRedBlack(z, BlackHeight(t))
  {
    PlugRedBlack(z, Leaf);
  }

  /** The end of `insert`: the climb, then `_root->_col = BLACK`. */
  method Restore(tree: Tree<Color>, it: Node<Color>, ghost ns: set<Node<Color>>, ghost z: Path<Color>,
                 ghost order: seq<Node<Color>>)
    requires Climbing(Snap(ns), tree.root, z, Branch(Leaf, it, Red, Leaf), order) && Sorted(order)
    modifies tree, ns
    ensures Valid(tree) && Order(tree.shape) == order && Nodes(tree.shape) == ns
  {
    ghost var s := FixUp(tree, it, ns, z, Branch(Leaf, it, Red, Leaf), order);
    BlackenRoot(tree, ns, s);
    tree.Rebuilt(s.(tag := Black));
  }

  /** `_root->_col = BLACK`. */
  method BlackenRoot(tree: Tree<Color>, ghost ns: set<Node<Color>>, ghost s: Shape<Color>)
    requires s.Branch? && At(Snap(ns), Top, s, tree.root) && RedBlack(s)
    modifies ns
    ensures At(Snap(ns), Top, s.(tag := Black), tree.root)
    ensures RedBlack(s.(tag := Black)) && Order(s.(tag := Black)) == Order(s) && Nodes(s.(tag := Black)) == Nodes(s)
  {
    ghost var h := Snap(ns);
    BlackenedRoot(h, s, tree.root);
    tree.root.tag := Black;
    assert Snap(ns) == h[tree.root := h[tree.root].(tag := Black)];
  }

  method InsertFirst(tree: Tree<Color>, data: Entry) returns (it: Node<Color>)
    requires tree.Valid() && tree.root == null
    modifies tree
    ensures Valid(tree) && fresh(it) && it.data == data && Order(tree.shape) == [it] && Nodes(tree.shape) == {it}
  {
    it := new Node(data, Red);
    tree.root := it;
    tree.root.tag := Black;
    ghost var s := Branch(Leaf, it, Black, Leaf);
    assert Nodes(s) == Nodes<Color>(Leaf) + {it} + Nodes<Color>(Leaf) == {it};
    assert Order(s) == [it];
    tree.Rebuilt(s);
  }

  method InsertBelow(tree: Tree<Color>, data: Entry, parent: Node<Color>, ghost z: Path<Color>)
    returns (it: Node<Color>)
    requires Valid(tree) && Plug(z, Leaf) == tree.shape && At(Snap(Nodes(tree.shape)), z, Leaf, tree.root)
    requires parent == Holder(z) && Below(Before(z), data.key) && Above(After(z), data.key)
    modifies tree, Nodes(tree.shape)
    ensures Valid(tree) && fresh(it) && it.data == data
    ensures PutInto(old(Order(tree.shape)), Order(tree.shape), it) && Nodes(tree.shape) == old(Nodes(tree.shape)) + {it}
  {
    ghost var ns := Nodes(tree.shape);
    PathKeys(Snap(ns), z, null, tree.root);
    it := tree.Attach(parent, data, Red, ns, z);
    FreshOrder(z, tree.shape, it, Red);
    FreshLeaf(z, tree.shape, it);
    PutBetween(Before(z), After(z), it);
    Restore(tree, it, ns + {it}, z, Before(z) + [it] + After(z));
  }

  /** `insert`: finds the key, or links one new node and restores every rule. */
  method Insert(tree: Tree<Color>, data: Entry) returns (it: Node<Color>, inserted: bool)
    requires Valid(tree)
    modifies tree, Nodes(tree.shape)
    ensures Valid(tree)
    ensures inserted <==> !HasKey(old(Order(tree.shape)), data.key)
    ensures !inserted ==> it in Order(tree.shape) && it.data.key == data.key && tree.shape == old(tree.shape)
    ensures inserted ==> fresh(it) && it.data == data && PutInto(old(Order(tree.shape)), Order(tree.shape), it)
    ensures fresh(Nodes(tree.shape) - old(Nodes(tree.shape)))
  {
    if tree.root == null {
      it := InsertFirst(tree, data);
      PutBetween([], [], it);
      return it, true;
    }
    var parent, cur, z, t := tree.Descend(data.key);
    assert Snap(Nodes(tree.shape)) == old(Snap(Nodes(tree.shape)));
    PlugOrder(z, t);
    if cur != null {
      assert cur in Order(t);
      return cur, false;
    }
    KeyAbsent(Before(z), After(z), data.key);
    it := InsertBelow(tree, data, parent, z);
    return it, true;
  }

  // ---------- The checker ----------

  /** `check`: walks the heap and decides the colour rules of a subtree exactly. */
  method Check(node: Node?<Color>, blackNum: nat, ref: nat,
               ghost ns: set<Node<Color>>, ghost z: Path<Color>, ghost t: Shape<Color>, ghost root: Node?<Color>)
    returns (ok: bool)
    requires At(Snap(ns), z, t, root) && node == RootOf(t) && !(IsRed(t) && z.Top?)
    ensures ok <==> RedBlack(t) && blackNum + BlackHeight(t) == ref && !(IsRed(t) && RedHolder(z))
    decreases t
  {
    if node == null {
      return blackNum == ref;
    }
    ghost var h := Snap(ns);
    Links(h, root, z, t);
    if node.tag == Red && node.parent.tag == Red {
      return false;
    }
    var b := if node.tag == Black then blackNum + 1 else blackNum;
    ok := Check(node.left, b, ref, ns, LeftOf(z, node, t.tag, t.right), t.left, root);
    if ok {
      assert Snap(ns) == h;
      ok := Check(node.right, b, ref, ns, RightOf(z, t.left, node, t.tag), t.right, root);
    }
  }

  /** The reference count of `IsRBTree`: black nodes on the leftmost way. */
  method LeftBlacks(tree: Tree<Color>) returns (ref: nat)
    requires tree.Valid()
    ensures ref == BlackHeight(tree.shape)
  {
    ghost var h, z, t := Snap(Nodes(tree.shape)), Top, tree.shape;
    ref := 0;
    var left := tree.root;
    while left != null
      invariant At(h, z, t, tree.root) && left == RootOf(t)
      invariant ref + BlackHeight(t) == BlackHeight(tree.shape)
      decreases t
    {
      Links(h, tree.root, z, t);
      if left.tag == Black {
        ref := ref + 1;
      }
      left := left.left;
      z, t := LeftOf(z, t.node, t.tag, t.right), t.left;
    }
  }

  /** `IsRBTree` on any linked search tree: true exactly when the colour rules hold. */
  method IsRBTree(tree: Tree<Color>) returns (ok: bool)
    requires tree.Valid()
    ensures ok <==> Valid(tree)
  {
    if tree.root == null {
      return true;
    }
    if tree.root.tag == Red {
      return false;
    }
    var ref := LeftBlacks(tree);
    assert Snap(Nodes(tree.shape)) == old(Snap(Nodes(tree.shape)));
    ok := Check(tree.root, 0, ref, Nodes(tree.shape), Top, tree.shape, tree.root);
    assert Snap(Nodes(tree.shape)) == old(Snap(Nodes(tree.shape)));
  }

  // ---------- Whole runs ----------

  /** Every run of inserts from the empty tree keeps all rules, and stores exactly the first entry of each key. */
  method InsertAll(es: seq<Entry>) returns (tree: Tree<Color>)
    ensures Valid(tree)
    ensures Stored(Order(tree.shape)) == FirstOfEachKey(es)
  {
    tree := new Tree();
    for i := 0 to |es|
      invariant Valid(tree) && fresh(tree) && fresh(Nodes(tree.shape))
      invariant Stored(Order(tree.shape)) == FirstOfEachKey(es[..i])
    {
      ghost var before := Order(tree.shape);
      var it, inserted := Insert(tree, es[i]);
      StoredNext(before, Order(tree.shape), es, i, inserted);
    }
    assert es[..|es|] == es;
  }

  // ---------- Height ----------

  lemma {:induction false} BlackHeightBounds(t: Shape<Color>)
    requires RedBlack(t)
    ensures Pow2(BlackHeight(t)) <= Size(t) + 1
    ensures Height(t) <= 2 * BlackHeight(t) + if IsRed(t) then 1 else 0
  {
    if t.Branch? {
      BlackHeightBounds(t.left);
      BlackHeightBounds(t.right);
    }
  }

  lemma {:induction false} Pow2Sum(a: nat, b: nat)
    ensures Pow2(a + b) == Pow2(a) * Pow2(b)
  {
    if a > 0 {
      Pow2Sum(a - 1, b);
      assert Pow2(a) * Pow2(b) == 2 * (Pow2(a - 1) * Pow2(b));
    }
  }

  lemma {:induction false} Pow2Monotone(a: nat, b: nat)
    requires a <= b
    ensures Pow2(a) <= Pow2(b)
  {
    if a < b { Pow2Monotone(a, b - 1); }
  }

  lemma SquareMonotone(p: nat, n: nat)
    requires p <= n
    ensures p * p <= n * n
  {
    assert p * p <= p * n && p * n <= n * n;
  }

  /** With `n` nodes the height is at most `2 * log2(n + 1)`. */
  lemma HeightBound(t: Shape<Color>)
    requires RedBlack(t) && !IsRed(t)
    ensures Pow2(Height(t)) <= (Size(t) + 1) * (Size(t) + 1)
  {
    var b, n := BlackHeight(t), Size(t) + 1;
    BlackHeightBounds(t);
    Pow2Monotone(Height(t), b + b);
    Pow2Sum(b, b);
    SquareMonotone(Pow2(b), n);
  }
}
