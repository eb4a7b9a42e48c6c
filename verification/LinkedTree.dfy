/**
 Binary search trees of heap nodes with parent links, as shared by
 `Algorithm/RBTree.hpp` and `Algorithm/AVLTree.hpp`: the node layout, the two
 single rotations, the search descent and the attachment of a new node.

 The ghost `Shape` of a tree is an immutable picture of its nodes; a ghost
 `Path` is a picture of everything outside one subtree (a zipper), so a climb
 through parent pointers is a walk up a `Path`.
 */
module LinkedTree {

  /** The stored pair; `key` is what the source's key extractor returns. */
  datatype Entry = Entry(key: int, value: int)

  /** A tree node. `tag` is `_col` in a red-black tree and `_bf` in an AVL tree. */
  class Node<Tag> {
    const data: Entry
    var left: Node?<Tag>
    var right: Node?<Tag>
    var parent: Node?<Tag>
    var tag: Tag

    constructor (data: Entry, tag: Tag)
      ensures this.data == data && this.tag == tag
      ensures left == null && right == null && parent == null
    {
      this.data, this.tag := data, tag;
      left, right, parent := null, null, null;
    }
  }

  datatype Shape<Tag> =
    | Leaf
    | Branch(left: Shape<Tag>, node: Node<Tag>, tag: Tag, right: Shape<Tag>)

  /** The surroundings of a subtree: `LeftOf` says the subtree is the left child of `node`. */
  datatype Path<Tag> =
    | Top
    | LeftOf(up: Path<Tag>, node: Node<Tag>, tag: Tag, right: Shape<Tag>)
    | RightOf(up: Path<Tag>, left: Shape<Tag>, node: Node<Tag>, tag: Tag)

  // ---------- Shapes and paths as values ----------

  ghost function Nodes<Tag>(t: Shape<Tag>): set<Node<Tag>> {
    match t
    case Leaf => {}
    case Branch(l, n, _, r) => Nodes(l) + {n} + Nodes(r)
  }

  ghost function PathNodes<Tag>(z: Path<Tag>): set<Node<Tag>> {
    match z
    case Top => {}
    case LeftOf(up, n, _, r) => PathNodes(up) + {n} + Nodes(r)
    case RightOf(up, l, n, _) => PathNodes(up) + {n} + Nodes(l)
  }

  ghost function RootOf<Tag>(t: Shape<Tag>): Node?<Tag> {
    if t.Leaf? then null else t.node
  }

  /** The node whose child the subtree is, or null at the top. */
  ghost function Holder<Tag>(z: Path<Tag>): Node?<Tag> {
    if z.Top? then null else z.node
  }

  ghost function Plug<Tag>(z: Path<Tag>, t: Shape<Tag>): Shape<Tag>
    decreases z
  {
    match z
    case Top => t
    case LeftOf(up, n, g, r) => Plug(up, Branch(t, n, g, r))
    case RightOf(up, l, n, g) => Plug(up, Branch(l, n, g, t))
  }

  ghost function Depth<Tag>(z: Path<Tag>): nat {
    if z.Top? then 0 else 1 + Depth(z.up)
  }

  ghost predicate Distinct<Tag>(t: Shape<Tag>) {
    t.Branch? ==>
      && t.node !in Nodes(t.left) && t.node !in Nodes(t.right)
      && Nodes(t.left) !! Nodes(t.right)
      && Distinct(t.left) && Distinct(t.right)
  }

  ghost predicate PathDistinct<Tag>(z: Path<Tag>) {
    match z
    case Top => true
    case LeftOf(up, n, _, r) =>
      n !in PathNodes(up) && n !in Nodes(r) && PathNodes(up) !! Nodes(r) && PathDistinct(up) && Distinct(r)
    case RightOf(up, l, n, _) =>
      n !in PathNodes(up) && n !in Nodes(l) && PathNodes(up) !! Nodes(l) && PathDistinct(up) && Distinct(l)
  }

  /** The nodes from left to right. */
  ghost function Order<Tag>(t: Shape<Tag>): seq<Node<Tag>> {
    match t
    case Leaf => []
    case Branch(l, n, _, r) => Order(l) + [n] + Order(r)
  }

  ghost function Before<Tag>(z: Path<Tag>): seq<Node<Tag>> {
    match z
    case Top => []
    case LeftOf(up, _, _, _) => Before(up)
    case RightOf(up, l, n, _) => Before(up) + Order(l) + [n]
  }

  ghost function After<Tag>(z: Path<Tag>): seq<Node<Tag>> {
    match z
    case Top => []
    case LeftOf(up, n, _, r) => [n] + Order(r) + After(up)
    case RightOf(up, _, _, _) => After(up)
  }

  /** Strictly increasing keys: the search-tree order, and no key twice. */
  ghost predicate Sorted<Tag>(s: seq<Node<Tag>>) {
    forall i, j :: 0 <= i < j < |s| ==> s[i].data.key < s[j].data.key
  }

  /** `s'` is `s` with `n` put in somewhere, all other nodes in their old order. */
  ghost predicate PutInto<Tag>(s: seq<Node<Tag>>, s': seq<Node<Tag>>, n: Node<Tag>) {
    exists i :: 0 <= i <= |s| && s' == s[..i] + [n] + s[i..]
  }

  ghost predicate HasKey<Tag>(s: seq<Node<Tag>>, key: int) {
    exists n :: n in s && n.data.key == key
  }

  lemma PutBetween<Tag>(a: seq<Node<Tag>>, b: seq<Node<Tag>>, n: Node<Tag>)
    ensures PutInto(a + b, a + [n] + b, n)
  {
    assert (a + b)[..|a|] == a && (a + b)[|a|..] == b;
  }

  ghost function Size<Tag>(t: Shape<Tag>): nat {
    if t.Leaf? then 0 else Size(t.left) + 1 + Size(t.right)
  }

  ghost function Max(a: nat, b: nat): nat {
    if a > b then a else b
  }

  ghost function Height<Tag>(t: Shape<Tag>): nat {
    if t.Leaf? then 0 else 1 + Max(Height(t.left), Height(t.right))
  }

  ghost function Stored<Tag>(s: seq<Node<Tag>>): (es: set<Entry>) {
    set n | n in s :: n.data
  }

  /** What a run of inserts should leave: for every key the first entry given with it. */
  ghost function FirstOfEachKey(es: seq<Entry>): (r: set<Entry>) {
    if es == [] then {}
    else
      var rest, e := FirstOfEachKey(es[..|es| - 1]), es[|es| - 1];
      if exists d :: d in rest && d.key == e.key then rest else rest + {e}
  }

  lemma StoredPut<Tag>(s: seq<Node<Tag>>, s': seq<Node<Tag>>, n: Node<Tag>)
    requires PutInto(s, s', n)
    ensures Stored(s') == Stored(s) + {n.data}
  {
    var i :| 0 <= i <= |s| && s' == s[..i] + [n] + s[i..];
    assert s == s[..i] + s[i..];
    assert forall m :: m in s' <==> m in s || m == n;
  }

  /** What is stored after one more insert, in step with `FirstOfEachKey`. */
  lemma StoredNext<Tag>(before: seq<Node<Tag>>, after: seq<Node<Tag>>, es: seq<Entry>, i: nat, inserted: bool)
    requires i < |es| && Stored(before) == FirstOfEachKey(es[..i]) && (inserted <==> !HasKey(before, es[i].key))
    requires if inserted then exists it: Node<Tag> :: it.data == es[i] && PutInto(before, after, it)
             else after == before
    ensures Stored(after) == FirstOfEachKey(es[..i + 1])
  {
    StoredKeys(before, es[i].key);
    assert es[..i + 1][..i] == es[..i];
    if inserted {
      var it: Node<Tag> :| it.data == es[i] && PutInto(before, after, it);
      StoredPut(before, after, it);
    }
  }

  lemma StoredKeys<Tag>(s: seq<Node<Tag>>, key: int)
    ensures HasKey(s, key) <==> exists d :: d in Stored(s) && d.key == key
  {
    if HasKey(s, key) {
      var n :| n in s && n.data.key == key;
      assert n.data in Stored(s);
    }
  }

  lemma {:induction false} PlugOrder<Tag>(z: Path<Tag>, t: Shape<Tag>)
    ensures Order(Plug(z, t)) == Before(z) + Order(t) + After(z)
    decreases z
  {
    match z
    case Top =>
    case LeftOf(up, n, g, r) => PlugOrder(up, Branch(t, n, g, r));
    case RightOf(up, l, n, g) => PlugOrder(up, Branch(l, n, g, t));
  }

  lemma {:induction false} PlugNodes<Tag>(z: Path<Tag>, t: Shape<Tag>)
    ensures Nodes(Plug(z, t)) == PathNodes(z) + Nodes(t)
    ensures Distinct(Plug(z, t)) <==> Distinct(t) && PathDistinct(z) && PathNodes(z) !! Nodes(t)
    decreases z
  {
    match z
    case Top =>
    case LeftOf(up, n, g, r) => PlugNodes(up, Branch(t, n, g, r));
    case RightOf(up, l, n, g) => PlugNodes(up, Branch(l, n, g, t));
  }

  ghost predicate Below<Tag>(s: seq<Node<Tag>>, key: int) {
    forall i :: 0 <= i < |s| ==> s[i].data.key < key
  }

  ghost predicate Above<Tag>(s: seq<Node<Tag>>, key: int) {
    forall i :: 0 <= i < |s| ==> key < s[i].data.key
  }

  /** In a sorted sequence everything left of a node is smaller and everything right of it larger. */
  lemma SortedAround<Tag>(a: seq<Node<Tag>>, n: Node<Tag>, b: seq<Node<Tag>>)
    requires Sorted(a + [n] + b)
    ensures Below(a, n.data.key) && Above(b, n.data.key)
  {
    var s := a + [n] + b;
    assert s[|a|] == n;
    assert forall i :: 0 <= i < |a| ==> s[i] == a[i];
    assert forall i :: 0 <= i < |b| ==> s[|a| + 1 + i] == b[i];
  }

  /** What a subtree's root says about the rest of the tree. */
  lemma SortedAtRoot<Tag>(z: Path<Tag>, t: Shape<Tag>)
    requires t.Branch? && Sorted(Order(Plug(z, t)))
    ensures Below(Before(RightOf(z, t.left, t.node, t.tag)), t.node.data.key + 1)
    ensures Above(After(LeftOf(z, t.node, t.tag, t.right)), t.node.data.key - 1)
  {
    PlugOrder(z, t);
    var a, b := Before(z) + Order(t.left), Order(t.right) + After(z);
    Regrouped(Before(z), Order(t.left), t.node, Order(t.right), After(z));
    SortedAround(a, t.node, b);
    BelowWith(a, t.node);
    AboveWith(t.node, Order(t.right), After(z));
  }

  lemma Regrouped<Tag>(p: seq<Node<Tag>>, l: seq<Node<Tag>>, n: Node<Tag>, r: seq<Node<Tag>>, q: seq<Node<Tag>>)
    ensures p + (l + [n] + r) + q == (p + l) + [n] + (r + q)
  {}

  lemma BelowWith<Tag>(a: seq<Node<Tag>>, n: Node<Tag>)
    requires Below(a, n.data.key)
    ensures Below(a + [n], n.data.key + 1)
  {
    forall i | 0 <= i < |a + [n]| ensures (a + [n])[i].data.key < n.data.key + 1 {
      if i < |a| { assert (a + [n])[i] == a[i]; }
    }
  }

  lemma AboveWith<Tag>(n: Node<Tag>, b: seq<Node<Tag>>, c: seq<Node<Tag>>)
    requires Above(b + c, n.data.key)
    ensures Above([n] + b + c, n.data.key - 1)
  {
    forall i | 0 <= i < |[n] + b + c| ensures n.data.key - 1 < ([n] + b + c)[i].data.key {
      if i > 0 { assert ([n] + b + c)[i] == (b + c)[i - 1]; }
    }
  }

  lemma KeyAbsent<Tag>(a: seq<Node<Tag>>, b: seq<Node<Tag>>, key: int)
    requires Below(a, key) && Above(b, key)
    ensures !HasKey(a + b, key)
  {}

  /** A key that fits in a gap of a sorted sequence can be put there. */
  lemma SortedInsert<Tag>(a: seq<Node<Tag>>, n: Node<Tag>, b: seq<Node<Tag>>)
    requires Sorted(a + b) && Below(a, n.data.key) && Above(b, n.data.key)
    ensures Sorted(a + [n] + b)
  {
    var s, s' := a + b, a + [n] + b;
    assert forall i :: 0 <= i < |a| ==> s[i] == a[i];
    assert forall i :: 0 <= i < |b| ==> s[|a| + i] == b[i];
    forall i, j | 0 <= i < j < |s'| ensures s'[i].data.key < s'[j].data.key {
      var i', j' := if i <= |a| then i else i - 1, if j <= |a| then j else j - 1;
      if i != |a| && j != |a| {
        assert s'[i] == s[i'] && s'[j] == s[j'];
      }
    }
  }

  /** Filling the empty place at the end of `z` adds one node, in its place. */
  lemma FreshOrder<Tag>(z: Path<Tag>, shape: Shape<Tag>, cur: Node<Tag>, tag: Tag)
    requires Plug(z, Leaf) == shape && Sorted(Order(shape))
    requires Below(Before(z), cur.data.key) && Above(After(z), cur.data.key)
    ensures Order(shape) == Before(z) + After(z)
    ensures Order(Plug(z, Branch(Leaf, cur, tag, Leaf))) == Before(z) + [cur] + After(z)
    ensures Nodes(Plug(z, Branch(Leaf, cur, tag, Leaf))) == Nodes(shape) + {cur}
    ensures Sorted(Before(z) + [cur] + After(z))
  {
    var t := Branch(Leaf, cur, tag, Leaf);
    assert Order(t) == [cur];
    assert Nodes(t) == Nodes(Leaf) + {cur} + Nodes(Leaf) == {cur};
    PlugOrder(z, Leaf);
    PlugOrder(z, t);
    PlugNodes(z, Leaf);
    PlugNodes(z, t);
    assert Before(z) + [] + After(z) == Before(z) + After(z);
    SortedInsert(Before(z), cur, After(z));
  }

  // ---------- Shapes and paths in the heap ----------

  /** The mutable fields of one node. */
  datatype Cell<Tag> = Cell(left: Node?<Tag>, right: Node?<Tag>, parent: Node?<Tag>, tag: Tag)

  /** The fields of a set of nodes at one moment. */
  type Heap<Tag> = map<Node<Tag>, Cell<Tag>>

  ghost function Snap<Tag>(ns: set<Node<Tag>>): (h: Heap<Tag>)
    reads ns
    ensures h.Keys == ns
  {
    map n | n in ns :: Cell(n.left, n.right, n.parent, n.tag)
  }

  /** The heap holds exactly `t` below `parent`: child links, parent links and tags. */
  ghost predicate Linked<Tag>(h: Heap<Tag>, t: Shape<Tag>, parent: Node?<Tag>) {
    t.Branch? ==>
      && t.node in h && h[t.node] == Cell(RootOf(t.left), RootOf(t.right), parent, t.tag)
      && Linked(h, t.left, t.node) && Linked(h, t.right, t.node)
  }

  /** The heap holds exactly `z` around a subtree rooted at `child`, below the tree root `root`. */
  ghost predicate PathLinked<Tag>(h: Heap<Tag>, z: Path<Tag>, child: Node?<Tag>, root: Node?<Tag>) {
    match z
    case Top => root == child
    case LeftOf(up, n, g, r) =>
      && n in h && h[n] == Cell(child, RootOf(r), Holder(up), g)
      && Linked(h, r, n) && PathLinked(h, up, n, root)
    case RightOf(up, l, n, g) =>
      && n in h && h[n] == Cell(RootOf(l), child, Holder(up), g)
      && Linked(h, l, n) && PathLinked(h, up, n, root)
  }

  /** The heap holds `t` at the end of `z`, and no node occurs twice. */
  ghost predicate At<Tag>(h: Heap<Tag>, z: Path<Tag>, t: Shape<Tag>, root: Node?<Tag>) {
    && Linked(h, t, Holder(z)) && PathLinked(h, z, RootOf(t), root)
    && Distinct(t) && PathDistinct(z) && PathNodes(z) !! Nodes(t)
  }

  ghost predicate Agree<Tag>(h: Heap<Tag>, h': Heap<Tag>, ns: set<Node<Tag>>) {
    forall n :: n in ns && n in h ==> n in h' && h'[n] == h[n]
  }

  lemma {:induction false} LinkedFrame<Tag>(h: Heap<Tag>, h': Heap<Tag>, t: Shape<Tag>, parent: Node?<Tag>)
    requires Linked(h, t, parent) && Agree(h, h', Nodes(t))
    ensures Linked(h', t, parent)
  {
    if t.Branch? {
      LinkedFrame(h, h', t.left, t.node);
      LinkedFrame(h, h', t.right, t.node);
    }
  }

  lemma {:induction false} PathFrame<Tag>(h: Heap<Tag>, h': Heap<Tag>, z: Path<Tag>, child: Node?<Tag>,
                                          root: Node?<Tag>)
    requires PathLinked(h, z, child, root) && Agree(h, h', PathNodes(z))
    ensures PathLinked(h', z, child, root)
  {
    match z
    case Top =>
    case LeftOf(up, n, g, r) => LinkedFrame(h, h', r, n); PathFrame(h, h', up, n, root);
    case RightOf(up, l, n, g) => LinkedFrame(h, h', l, n); PathFrame(h, h', up, n, root);
  }

  /** Only the link from the holder to the hole changes when another subtree is hung there. */
  lemma PathRehang<Tag>(h: Heap<Tag>, h': Heap<Tag>, z: Path<Tag>, child: Node?<Tag>, child': Node?<Tag>,
                        root: Node?<Tag>, root': Node?<Tag>)
    requires PathLinked(h, z, child, root) && PathDistinct(z)
    requires Agree(h, h', PathNodes(z) - (if z.Top? then {} else {z.node}))
    requires if z.Top? then root' == child' else root' == root && z.node in h'
    requires z.LeftOf? ==> h'[z.node] == h[z.node].(left := child')
    requires z.RightOf? ==> h'[z.node] == h[z.node].(right := child')
    ensures PathLinked(h', z, child', root')
  {
    match z
    case Top =>
    case LeftOf(up, n, g, r) => LinkedFrame(h, h', r, n); PathFrame(h, h', up, n, root);
    case RightOf(up, l, n, g) => LinkedFrame(h, h', l, n); PathFrame(h, h', up, n, root);
  }

  /** A subtree keeps its links when only its root is retagged. */
  lemma RootRetagged<Tag>(h: Heap<Tag>, h': Heap<Tag>, t: Shape<Tag>, parent: Node?<Tag>, c: Tag)
    requires t.Branch? && Linked(h, t, parent) && Distinct(t)
    requires t.node in h' && h'[t.node] == h[t.node].(tag := c) && Agree(h, h', Nodes(t) - {t.node})
    ensures Linked(h', t.(tag := c), parent)
  {
    LinkedFrame(h, h', t.left, t.node);
    LinkedFrame(h, h', t.right, t.node);
  }

  /** Looking at a tree from one of its subtrees is the same as looking at it from the top. */
  lemma {:induction false} PlugAt<Tag>(h: Heap<Tag>, z: Path<Tag>, t: Shape<Tag>, root: Node?<Tag>)
    ensures At(h, z, t, root) <==> At(h, Top, Plug(z, t), root)
    decreases z
  {
    match z
    case Top =>
    case LeftOf(up, n, g, r) => PlugAt(h, up, Branch(t, n, g, r), root);
    case RightOf(up, l, n, g) => PlugAt(h, up, Branch(l, n, g, t), root);
  }

  lemma StepUp<Tag>(h: Heap<Tag>, z: Path<Tag>, t: Shape<Tag>, root: Node?<Tag>)
    requires At(h, z, t, root) && !z.Top?
    ensures z.LeftOf? ==> At(h, z.up, Branch(t, z.node, z.tag, z.right), root)
    ensures z.RightOf? ==> At(h, z.up, Branch(z.left, z.node, z.tag, t), root)
  {}

  lemma StepDown<Tag>(h: Heap<Tag>, z: Path<Tag>, t: Shape<Tag>, root: Node?<Tag>)
    requires At(h, z, t, root) && t.Branch?
    ensures t.node in h && h[t.node] == Cell(RootOf(t.left), RootOf(t.right), Holder(z), t.tag)
    ensures At(h, LeftOf(z, t.node, t.tag, t.right), t.left, root)
    ensures At(h, RightOf(z, t.left, t.node, t.tag), t.right, root)
  {}

  ghost function RotatedLeft<Tag>(t: Shape<Tag>): (r: Shape<Tag>)
    requires t.Branch? && t.right.Branch?
  {
    Branch(Branch(t.left, t.node, t.tag, t.right.left), t.right.node, t.right.tag, t.right.right)
  }

  ghost function RotatedRight<Tag>(t: Shape<Tag>): (r: Shape<Tag>)
    requires t.Branch? && t.left.Branch?
  {
    Branch(t.left.left, t.left.node, t.left.tag, Branch(t.left.right, t.node, t.tag, t.right))
  }

  /** A rotation keeps the node order and undoes its mirror image. */
  lemma RotationKeepsOrder<Tag>(t: Shape<Tag>)
    requires t.Branch? && t.right.Branch?
    ensures Order(RotatedLeft(t)) == Order(t)
    ensures RotatedRight(RotatedLeft(t)) == t
  {
    JoinOrders(Order(t.left), t.node, Order(t.right.left), t.right.node, Order(t.right.right));
  }

  lemma JoinOrders<T>(a: seq<T>, x: T, b: seq<T>, y: T, c: seq<T>)
    ensures (a + [x] + b) + [y] + c == a + [x] + (b + [y] + c)
  {}

  lemma RightRotationKeepsOrder<Tag>(t: Shape<Tag>)
    requires t.Branch? && t.left.Branch?
    ensures Order(RotatedRight(t)) == Order(t)
    ensures RotatedLeft(RotatedRight(t)) == t
  {
    RotationKeepsOrder(RotatedRight(t));
  }

  lemma LeftRotationNodes<Tag>(t: Shape<Tag>)
    requires t.Branch? && t.right.Branch? && Distinct(t)
    ensures Nodes(RotatedLeft(t)) == Nodes(t) && Distinct(RotatedLeft(t))
    ensures Nodes(t.right.left) <= Nodes(t) && Distinct(t.right) && Distinct(t.left)
  {
    var a, b := t.left, t.right.left;
    assert Distinct(t.right);
    assert Nodes(t.right) == Nodes(b) + {t.right.node} + Nodes(t.right.right);
    assert Nodes(Branch(a, t.node, t.tag, b)) == Nodes(a) + {t.node} + Nodes(b);
  }

  lemma RightRotationNodes<Tag>(t: Shape<Tag>)
    requires t.Branch? && t.left.Branch? && Distinct(t)
    ensures Nodes(RotatedRight(t)) == Nodes(t) && Distinct(RotatedRight(t))
    ensures Nodes(t.left.right) <= Nodes(t) && Distinct(t.left) && Distinct(t.right)
  {
    var b, c := t.left.right, t.right;
    assert Distinct(t.left);
    assert Nodes(t.left) == Nodes(t.left.left) + {t.left.node} + Nodes(b);
    assert Nodes(Branch(b, t.node, t.tag, c)) == Nodes(b) + {t.node} + Nodes(c);
  }

  /** The heap after `sub` has taken the place of `parent` below `pp`. */
  ghost function Hung<Tag>(h: Heap<Tag>, pp: Node?<Tag>, parent: Node<Tag>, sub: Node<Tag>): (h': Heap<Tag>)
    requires sub in h && (pp != null ==> pp in h)
  {
    var h1 := h[sub := h[sub].(parent := pp)];
    if pp == null then h1
    else if h[pp].left == parent then h1[pp := h1[pp].(left := sub)] else h1[pp := h1[pp].(right := sub)]
  }

  /** The heap after `parent`'s right child has taken its place. */
  ghost function HeapRotatedLeft<Tag>(h: Heap<Tag>, parent: Node<Tag>): (h': Heap<Tag>)
    requires parent in h && h[parent].right in h
    requires var s := h[parent].right; h[s].left != null ==> h[s].left in h
    requires h[parent].parent != null ==> h[parent].parent in h
  {
    var s, pp := h[parent].right, h[parent].parent;
    var b := h[s].left;
    var h1 := h[parent := h[parent].(right := b)];
    var h2 := if b == null then h1 else h1[b := h1[b].(parent := parent)];
    var h3 := h2[s := h2[s].(left := parent)][parent := h2[parent].(parent := s)];
    Hung(h3, pp, parent, s)
  }

  /** The heap after `parent`'s left child has taken its place. */
  ghost function HeapRotatedRight<Tag>(h: Heap<Tag>, parent: Node<Tag>): (h': Heap<Tag>)
    requires parent in h && h[parent].left in h
    requires var s := h[parent].left; h[s].right != null ==> h[s].right in h
    requires h[parent].parent != null ==> h[parent].parent in h
  {
    var s, pp := h[parent].left, h[parent].parent;
    var b := h[s].right;
    var h1 := h[parent := h[parent].(left := b)];
    var h2 := if b == null then h1 else h1[b := h1[b].(parent := parent)];
    var h3 := h2[s := h2[s].(right := parent)][parent := h2[parent].(parent := s)];
    Hung(h3, pp, parent, s)
  }

  ghost predicate CanRotateLeft<Tag>(h: Heap<Tag>, z: Path<Tag>, t: Shape<Tag>) {
    && t.Branch? && t.right.Branch?
    && t.node in h && h[t.node] == Cell(RootOf(t.left), t.right.node, Holder(z), t.tag)
    && t.right.node in h && h[t.right.node] == Cell(RootOf(t.right.left), RootOf(t.right.right), t.node, t.right.tag)
    && (t.right.left.Branch? ==> t.right.left.node in h)
    && (!z.Top? ==> z.node in h)
  }

  lemma AtCanRotateLeft<Tag>(h: Heap<Tag>, z: Path<Tag>, t: Shape<Tag>, root: Node?<Tag>)
    requires t.Branch? && t.right.Branch? && At(h, z, t, root)
    ensures CanRotateLeft(h, z, t)
    ensures Linked(h, t.left, t.node) && Linked(h, t.right.left, t.right.node) && Linked(h, t.right.right, t.right.node)
  {
    assert Linked(h, t.right, t.node);
    assert Linked(h, t.right.left, t.right.node);
  }

  ghost function Touched<Tag>(z: Path<Tag>, p: Node<Tag>, s: Node<Tag>, b: Shape<Tag>): set<Node<Tag>> {
    {p, s} + (if b.Branch? then {b.node} else {}) + (if z.Top? then {} else {z.node})
  }

  lemma LeftCells<Tag>(h: Heap<Tag>, z: Path<Tag>, t: Shape<Tag>, root: Node?<Tag>)
    requires CanRotateLeft(h, z, t) && Distinct(t) && PathNodes(z) !! Nodes(t) && PathLinked(h, z, t.node, root)
    ensures var h', s, b := HeapRotatedLeft(h, t.node), t.right.node, t.right.left;
      && h'.Keys == h.Keys
      && h'[t.node] == Cell(RootOf(t.left), RootOf(b), s, t.tag)
      && h'[s] == Cell(t.node, RootOf(t.right.right), Holder(z), t.right.tag)
      && (b.Branch? ==> h'[b.node] == h[b.node].(parent := t.node))
      && (z.LeftOf? ==> h'[z.node] == h[z.node].(left := s))
      && (z.RightOf? ==> h'[z.node] == h[z.node].(right := s))
      && (forall n :: n in h && n !in Touched(z, t.node, s, b) ==> h'[n] == h[n])
  {
    var b := t.right.left;
    assert Distinct(t.right);
    assert b.Branch? ==> b.node in Nodes(b);
    assert !z.Top? ==> z.node in PathNodes(z);
    if z.RightOf? {
      assert z.left.Branch? ==> z.left.node in Nodes(z.left);
    }
  }

  /** A subtree keeps its links when only its root's parent link changes. */
  lemma Reparented<Tag>(h: Heap<Tag>, h': Heap<Tag>, t: Shape<Tag>, p: Node?<Tag>, p': Node<Tag>)
    requires Linked(h, t, p) && Distinct(t)
    requires t.Branch? ==> t.node in h' && h'[t.node] == h[t.node].(parent := p')
    requires t.Branch? ==> Agree(h, h', Nodes(t) - {t.node})
    ensures Linked(h', t, p')
  {
    if t.Branch? {
      LinkedFrame(h, h', t.left, t.node);
      LinkedFrame(h, h', t.right, t.node);
    }
  }

  lemma RotateLeftAt<Tag>(h: Heap<Tag>, h': Heap<Tag>, z: Path<Tag>, t: Shape<Tag>, root: Node?<Tag>)
    requires t.Branch? && t.right.Branch? && At(h, z, t, root)
    requires CanRotateLeft(h, z, t) && h' == HeapRotatedLeft(h, t.node)
    ensures At(h', z, RotatedLeft(t), if z.Top? then t.right.node else root)
    ensures Nodes(RotatedLeft(t)) == Nodes(t)
  {
    LeftRotationNodes(t);
    AtCanRotateLeft(h, z, t, root);
    LeftCells(h, z, t, root);
    var a, s, b, c, p := t.left, t.right.node, t.right.left, t.right.right, t.node;
    var touched := Touched(z, p, s, b);
    assert b.Branch? ==> b.node in Nodes(b);
    assert Nodes(a) !! touched && Nodes(c) !! touched;
    LinkedFrame(h, h', a, p);
    LinkedFrame(h, h', c, s);
    Reparented(h, h', b, s, p);
    assert Linked(h', Branch(a, p, t.tag, b), s);
    PathRehang(h, h', z, p, s, root, if z.Top? then s else root);
  }

  // ---------- Left and right swapped ----------

  ghost function MirrorShape<Tag>(t: Shape<Tag>): (m: Shape<Tag>)
    ensures Nodes(m) == Nodes(t) && RootOf(m) == RootOf(t)
  {
    match t
    case Leaf => Leaf
    case Branch(l, n, g, r) => Branch(MirrorShape(r), n, g, MirrorShape(l))
  }

  ghost function MirrorPath<Tag>(z: Path<Tag>): (m: Path<Tag>)
    ensures PathNodes(m) == PathNodes(z) && Holder(m) == Holder(z)
  {
    match z
    case Top => Top
    case LeftOf(up, n, g, r) => RightOf(MirrorPath(up), MirrorShape(r), n, g)
    case RightOf(up, l, n, g) => LeftOf(MirrorPath(up), n, g, MirrorShape(l))
  }

  ghost function MirrorCell<Tag>(c: Cell<Tag>): Cell<Tag> {
    Cell(c.right, c.left, c.parent, c.tag)
  }

  ghost function MirrorHeap<Tag>(h: Heap<Tag>): Heap<Tag> {
    map n | n in h :: MirrorCell(h[n])
  }

  lemma {:induction false} MirrorLinked<Tag>(h: Heap<Tag>, t: Shape<Tag>, parent: Node?<Tag>)
    ensures MirrorShape(MirrorShape(t)) == t
    ensures Distinct(MirrorShape(t)) <==> Distinct(t)
    ensures Linked(h, t, parent) ==> Linked(MirrorHeap(h), MirrorShape(t), parent)
  {
    if t.Branch? {
      MirrorLinked(h, t.left, t.node);
      MirrorLinked(h, t.right, t.node);
    }
  }

  lemma {:induction false} MirrorPathLinked<Tag>(h: Heap<Tag>, z: Path<Tag>, child: Node?<Tag>, root: Node?<Tag>)
    ensures MirrorPath(MirrorPath(z)) == z
    ensures PathDistinct(MirrorPath(z)) <==> PathDistinct(z)
    ensures PathLinked(h, z, child, root) ==> PathLinked(MirrorHeap(h), MirrorPath(z), child, root)
  {
    match z
    case Top =>
    case LeftOf(up, n, g, r) => MirrorLinked(h, r, n); MirrorPathLinked(h, up, n, root);
    case RightOf(up, l, n, g) => MirrorLinked(h, l, n); MirrorPathLinked(h, up, n, root);
  }

  lemma MirrorAt<Tag>(h: Heap<Tag>, z: Path<Tag>, t: Shape<Tag>, root: Node?<Tag>)
    ensures MirrorShape(MirrorShape(t)) == t && MirrorPath(MirrorPath(z)) == z
    ensures MirrorHeap(MirrorHeap(h)) == h
    ensures At(h, z, t, root) ==> At(MirrorHeap(h), MirrorPath(z), MirrorShape(t), root)
  {
    MirrorLinked(h, t, Holder(z));
    MirrorPathLinked(h, z, RootOf(t), root);
  }

  lemma RotateRightAt<Tag>(h: Heap<Tag>, h': Heap<Tag>, z: Path<Tag>, t: Shape<Tag>, root: Node?<Tag>)
    requires t.Branch? && t.left.Branch? && At(h, z, t, root)
    requires CanRotateLeft(MirrorHeap(h), MirrorPath(z), MirrorShape(t))
    requires MirrorHeap(h') == HeapRotatedLeft(MirrorHeap(h), t.node)
    ensures At(h', z, RotatedRight(t), if z.Top? then t.left.node else root)
    ensures Nodes(RotatedRight(t)) == Nodes(t)
  {
    var root' := if z.Top? then t.left.node else root;
    MirrorAt(h, z, t, root);
    RotateLeftAt(MirrorHeap(h), MirrorHeap(h'), MirrorPath(z), MirrorShape(t), root);
    assert MirrorShape(RotatedLeft(MirrorShape(t))) == RotatedRight(t) by {
      MirrorLinked(h, t.left.left, null);
      MirrorLinked(h, t.left.right, null);
      MirrorLinked(h, t.right, null);
    }
    MirrorAt(MirrorHeap(h'), MirrorPath(z), RotatedLeft(MirrorShape(t)), root');
    MirrorAt(h', z, RotatedRight(t), root');
  }

  lemma MirrorUpdate<Tag>(h: Heap<Tag>, n: Node<Tag>, c: Cell<Tag>)
    ensures MirrorHeap(h[n := c]) == MirrorHeap(h)[n := MirrorCell(c)]
  {}

  lemma MirrorHung<Tag>(h: Heap<Tag>, pp: Node?<Tag>, parent: Node<Tag>, sub: Node<Tag>)
    requires sub in h && (pp != null ==> pp in h && pp != sub && (h[pp].left == parent <==> h[pp].right != parent))
    ensures MirrorHeap(Hung(h, pp, parent, sub)) == Hung(MirrorHeap(h), pp, parent, sub)
  {}

  lemma MirrorRotation<Tag>(h: Heap<Tag>, parent: Node<Tag>)
    requires parent in h && h[parent].left in h && h[parent].left != parent
    requires var s := h[parent].left; h[s].right != null ==> h[s].right in h && h[s].right != s && h[s].right != parent
    requires var pp := h[parent].parent; pp != null ==>
      && pp in h && pp != parent && pp != h[parent].left && pp != h[h[parent].left].right
      && (h[pp].left == parent <==> h[pp].right != parent)
    ensures MirrorHeap(HeapRotatedRight(h, parent)) == HeapRotatedLeft(MirrorHeap(h), parent)
  {
    var s, pp := h[parent].left, h[parent].parent;
    var b := h[s].right;
    var h1 := h[parent := h[parent].(left := b)];
    MirrorUpdate(h, parent, h1[parent]);
    var h2 := if b == null then h1 else h1[b := h1[b].(parent := parent)];
    if b != null { MirrorUpdate(h1, b, h2[b]); }
    MirrorUpdate(h2, s, h2[s].(right := parent));
    MirrorUpdate(h2[s := h2[s].(right := parent)], parent, h2[parent].(parent := s));
    var h3 := h2[s := h2[s].(right := parent)][parent := h2[parent].(parent := s)];
    MirrorHung(h3, pp, parent, s);
  }

  lemma OneChild<Tag>(h: Heap<Tag>, z: Path<Tag>, child: Node<Tag>, root: Node?<Tag>)
    requires PathLinked(h, z, child, root) && PathDistinct(z) && child !in PathNodes(z)
    ensures !z.Top? ==> z.node in h && (h[z.node].left == child <==> h[z.node].right != child)
  {
    match z
    case Top =>
    case LeftOf(_, _, _, r) => assert r.Branch? ==> r.node in Nodes(r);
    case RightOf(_, l, _, _) => assert l.Branch? ==> l.node in Nodes(l);
  }

  lemma {:induction false} LinkedKeys<Tag>(h: Heap<Tag>, t: Shape<Tag>, parent: Node?<Tag>)
    requires Linked(h, t, parent)
    ensures Nodes(t) <= h.Keys
  {
    if t.Branch? {
      LinkedKeys(h, t.left, t.node);
      LinkedKeys(h, t.right, t.node);
    }
  }

  lemma {:induction false} PathKeys<Tag>(h: Heap<Tag>, z: Path<Tag>, child: Node?<Tag>, root: Node?<Tag>)
    requires PathLinked(h, z, child, root)
    ensures PathNodes(z) <= h.Keys
  {
    match z
    case Top =>
    case LeftOf(up, n, g, r) => LinkedKeys(h, r, n); PathKeys(h, up, n, root);
    case RightOf(up, l, n, g) => LinkedKeys(h, l, n); PathKeys(h, up, n, root);
  }

  lemma DistinctSpots<Tag>(z: Path<Tag>, t: Shape<Tag>)
    requires t.Branch? && t.right.Branch? && Distinct(t) && PathNodes(z) !! Nodes(t)
    ensures t.node != t.right.node
    ensures var b := t.right.left; b.Branch? ==> b.node != t.node && b.node != t.right.node
    ensures !z.Top? ==> z.node != t.node && z.node != t.right.node && (t.right.left.Branch? ==> z.node != t.right.left.node)
  {
    assert t.right.node in Nodes(t.right) && Distinct(t.right);
    assert t.right.left.Branch? ==> t.right.left.node in Nodes(t.right.left);
    assert !z.Top? ==> z.node in PathNodes(z);
  }

  class Tree<Tag> {
    var root: Node?<Tag>
    ghost var shape: Shape<Tag>

    /** A linked binary search tree. */
    ghost predicate Valid()
      reads this, Nodes(shape)
    {
      At(Snap(Nodes(shape)), Top, shape, root) && Sorted(Order(shape))
    }

    constructor ()
      ensures Valid() && shape == Leaf
    {
      root, shape := null, Leaf;
    }

    /** The common end of both rotations: `sub` takes the place of `parent` below `ppNode`. */
    method Hang(ppNode: Node?<Tag>, parent: Node<Tag>, sub: Node<Tag>, ghost ns: set<Node<Tag>>)
      requires sub in ns && (ppNode != null ==> ppNode in ns && ppNode != sub)
      modifies this`root, sub`parent, if ppNode == null then {} else {ppNode}
      ensures root == if ppNode == null then sub else old(root)
      ensures Snap(ns) == Hung(old(Snap(ns)), ppNode, parent, sub)
    {
      if ppNode == null {
        root := sub;
        root.parent := null;
      } else {
        if ppNode.left == parent {
          ppNode.left := sub;
        } else {
          ppNode.right := sub;
        }
        sub.parent := ppNode;
      }
    }

    /** Records that the tree has been rebuilt as `s`. */
    ghost method Rebuilt(s: Shape<Tag>)
      requires At(Snap(Nodes(s)), Top, s, root) && Sorted(Order(s))
      modifies this`shape
      ensures Valid() && shape == s
    {
      shape := s;
      assert Snap(Nodes(s)) == old(Snap(Nodes(s)));
    }

    /** The pointer updates of a left rotation. */
    method RelinkL(parent: Node<Tag>, ghost ns: set<Node<Tag>>)
      requires parent in ns && parent.right in ns && parent.right != parent
      requires var b := parent.right.left; b != null ==> b in ns && b != parent && b != parent.right
      requires var pp := parent.parent; pp != null ==> pp in ns && pp != parent && pp != parent.right && pp != parent.right.left
      modifies this`root, ns
      ensures Snap(ns) == HeapRotatedLeft(old(Snap(ns)), parent)
      ensures root == if old(parent.parent) == null then old(parent.right) else old(root)
    {
      ghost var h := Snap(ns);
      var subR := parent.right;
      var subRL := subR.left;
      parent.right := subRL;
      ghost var h1 := h[parent := h[parent].(right := subRL)];
      assert Snap(ns) == h1;
      if subRL != null {
        subRL.parent := parent;
      }
      ghost var h2 := if subRL == null then h1 else h1[subRL := h1[subRL].(parent := parent)];
      assert Snap(ns) == h2;
      var ppNode := parent.parent;
      subR.left := parent;
      parent.parent := subR;
      assert Snap(ns) == h2[subR := h2[subR].(left := parent)][parent := h2[parent].(parent := subR)];
      Hang(ppNode, parent, subR, ns);
    }

    /** `parent` is the root of the subtree `t`; its right child takes its place. */
    method RotateL(parent: Node<Tag>, ghost ns: set<Node<Tag>>, ghost z: Path<Tag>, ghost t: Shape<Tag>)
      requires t.Branch? && t.right.Branch? && t.node == parent
      requires At(Snap(ns), z, t, root)
      modifies this`root, ns
      ensures At(Snap(ns), z, RotatedLeft(t), root)
      ensures Nodes(RotatedLeft(t)) == Nodes(t)
    {
      ghost var h := Snap(ns);
      AtCanRotateLeft(h, z, t, root);
      DistinctSpots(z, t);
      RelinkL(parent, ns);
      RotateLeftAt(h, Snap(ns), z, t, old(root));
    }

    /** The pointer updates of a right rotation. */
    method RelinkR(parent: Node<Tag>, ghost ns: set<Node<Tag>>)
      requires parent in ns && parent.left in ns && parent.left != parent
      requires var b := parent.left.right; b != null ==> b in ns && b != parent && b != parent.left
      requires var pp := parent.parent; pp != null ==> pp in ns && pp != parent && pp != parent.left && pp != parent.left.right
      modifies this`root, ns
      ensures Snap(ns) == HeapRotatedRight(old(Snap(ns)), parent)
      ensures root == if old(parent.parent) == null then old(parent.left) else old(root)
    {
      ghost var h := Snap(ns);
      var subL := parent.left;
      var subLR := subL.right;
      parent.left := subLR;
      ghost var h1 := h[parent := h[parent].(left := subLR)];
      assert Snap(ns) == h1;
      if subLR != null {
        subLR.parent := parent;
      }
      ghost var h2 := if subLR == null then h1 else h1[subLR := h1[subLR].(parent := parent)];
      assert Snap(ns) == h2;
      var ppNode := parent.parent;
      subL.right := parent;
      parent.parent := subL;
      assert Snap(ns) == h2[subL := h2[subL].(right := parent)][parent := h2[parent].(parent := subL)];
      Hang(ppNode, parent, subL, ns);
    }

    /** `parent` is the root of the subtree `t`; its left child takes its place. */
    method RotateR(parent: Node<Tag>, ghost ns: set<Node<Tag>>, ghost z: Path<Tag>, ghost t: Shape<Tag>)
      requires t.Branch? && t.left.Branch? && t.node == parent
      requires At(Snap(ns), z, t, root)
      modifies this`root, ns
      ensures At(Snap(ns), z, RotatedRight(t), root)
      ensures Nodes(RotatedRight(t)) == Nodes(t)
    {
      ghost var h := Snap(ns);
      MirrorAt(h, z, t, root);
      AtCanRotateLeft(MirrorHeap(h), MirrorPath(z), MirrorShape(t), root);
      DistinctSpots(MirrorPath(z), MirrorShape(t));
      OneChild(h, z, t.node, root);
      RelinkR(parent, ns);
      MirrorRotation(h, parent);
      RotateRightAt(h, Snap(ns), z, t, old(root));
    }

    /** `node->_bf = v` or `node->_col = v`. */
    method SetTag(node: Node<Tag>, v: Tag, ghost ns: set<Node<Tag>>, ghost z: Path<Tag>, ghost t: Shape<Tag>)
      requires t.Branch? && t.node == node && At(Snap(ns), z, t, root)
      modifies node`tag
      ensures At(Snap(ns), z, t.(tag := v), root)
    {
      ghost var h := Snap(ns);
      assert node in Nodes(t) && node in ns;
      node.tag := v;
      assert Snap(ns) == h[node := h[node].(tag := v)];
      RootRetagged(h, Snap(ns), t, Holder(z), v);
      PathFrame(h, Snap(ns), z, node, root);
    }

    /** A left rotation of the left child, then a right rotation. */
    method RotateLR(parent: Node<Tag>, child: Node<Tag>, ghost ns: set<Node<Tag>>, ghost z: Path<Tag>,
                    ghost t: Shape<Tag>)
      requires t.Branch? && t.left.Branch? && t.left.right.Branch? && t.node == parent && t.left.node == child
      requires At(Snap(ns), z, t, root)
      modifies this`root, ns
      ensures At(Snap(ns), z, RotatedRight(t.(left := RotatedLeft(t.left))), root)
    {
      ghost var y := LeftOf(z, t.node, t.tag, t.right);
      RotateL(child, ns, y, t.left);
      StepUp(Snap(ns), y, RotatedLeft(t.left), root);
      RotateR(parent, ns, z, t.(left := RotatedLeft(t.left)));
    }

    /** A right rotation of the right child, then a left rotation. */
    method RotateRL(parent: Node<Tag>, child: Node<Tag>, ghost ns: set<Node<Tag>>, ghost z: Path<Tag>,
                    ghost t: Shape<Tag>)
      requires t.Branch? && t.right.Branch? && t.right.left.Branch? && t.node == parent && t.right.node == child
      requires At(Snap(ns), z, t, root)
      modifies this`root, ns
      ensures At(Snap(ns), z, RotatedLeft(t.(right := RotatedRight(t.right))), root)
    {
      ghost var y := RightOf(z, t.left, t.node, t.tag);
      RotateR(child, ns, y, t.right);
      StepUp(Snap(ns), y, RotatedRight(t.right), root);
      RotateL(parent, ns, z, t.(right := RotatedRight(t.right)));
    }

    /** The search loop: stops at the node with `key`, or at the empty place where it belongs. */
    method Descend(key: int) returns (parent: Node?<Tag>, cur: Node?<Tag>, ghost z: Path<Tag>, ghost t: Shape<Tag>)
      requires Valid()
      ensures Plug(z, t) == shape && At(Snap(Nodes(shape)), z, t, root)
      ensures cur == RootOf(t) && parent == Holder(z)
      ensures cur != null ==> cur.data.key == key
      ensures Below(Before(z), key) && Above(After(z), key)
    {
      ghost var h := Snap(Nodes(shape));
      parent, cur := null, root;
      z, t := Top, shape;
      while cur != null
        invariant Plug(z, t) == shape && At(h, z, t, root)
        invariant cur == RootOf(t) && parent == Holder(z)
        invariant Below(Before(z), key) && Above(After(z), key)
        decreases t
      {
        assert t.node in Nodes(t) && h[cur].left == cur.left && h[cur].right == cur.right;
        SortedAtRoot(z, t);
        if cur.data.key > key {
          parent, cur := cur, cur.left;
          z, t := LeftOf(z, t.node, t.tag, t.right), t.left;
        } else if cur.data.key < key {
          parent, cur := cur, cur.right;
          z, t := RightOf(z, t.left, t.node, t.tag), t.right;
        } else {
          return;
        }
      }
    }

    /** A new node takes the empty place at the end of `z`. */
    method Attach(parent: Node<Tag>, data: Entry, tag: Tag, ghost ns: set<Node<Tag>>, ghost z: Path<Tag>)
      returns (cur: Node<Tag>)
      requires At(Snap(ns), z, Leaf, root) && parent == Holder(z) && parent in ns
      requires Below(Before(z), data.key) && Above(After(z), data.key)
      modifies parent
      ensures fresh(cur) && cur.data == data
      ensures At(Snap(ns + {cur}), z, Branch(Leaf, cur, tag, Leaf), root)
    {
      ghost var h := Snap(ns);
      cur := new Node(data, tag);
      assert z.RightOf? ==> Before(z)[|Before(z)| - 1] == parent;
      assert z.LeftOf? ==> After(z)[0] == parent;
      if parent.data.key > data.key {
        parent.left := cur;
        cur.parent := parent;
      } else {
        parent.right := cur;
        cur.parent := parent;
      }
      ghost var h' := Snap(ns + {cur});
      assert forall n :: n in ns && n != parent ==> h'[n] == h[n];
      PathKeys(h, z, null, root);
      PathRehang(h, h', z, null, cur, root, root);
    }
  }
}
