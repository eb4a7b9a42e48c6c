/**
 The chained hash tables of `Algorithm/HashTable.hpp`: `Hash::HashTable` and the table
 with iterators of namespace `zhc_hash`, which share their insert, find and relinking
 code. A bucket is a linked chain of nodes; `chains` lists the nodes of every bucket in
 chain order. The hash function is arbitrary.
 */
module ChainedTable {
  import opened Common

  class Node<K, V> {
    const key: K
    const value: V
    var next: Node?<K, V>

    constructor (key: K, value: V)
      ensures this.key == key && this.value == value && next == null
    {
      this.key, this.value, next := key, value, null;
    }
  }

  type Chains<K, V> = seq<seq<Node<K, V>>>

  // ---------- Tables as values ----------

  ghost predicate NoDup<T>(s: seq<T>) {
    forall i, j :: 0 <= i < j < |s| ==> s[i] != s[j]
  }

  /** All nodes, bucket after bucket. */
  ghost function Flatten<T>(t: seq<seq<T>>): seq<T> {
    if t == [] then [] else Flatten(t[..|t| - 1]) + t[|t| - 1]
  }

  ghost predicate In<T>(t: seq<seq<T>>, b: int, i: int) {
    0 <= b < |t| && 0 <= i < |t[b]|
  }

  /** Every node sits in the bucket of its hash, exactly once, and is the one `at` names for its key. */
  ghost predicate Owns<K, V>(t: Chains<K, V>, at: map<K, Node<K, V>>, hash: K -> nat)
    requires |t| > 0
  {
    && (forall b, i {:trigger In(t, b, i)} :: In(t, b, i) ==>
          t[b][i].key in at && at[t[b][i].key] == t[b][i] && Home(hash, t[b][i].key, |t|) == b)
    && (forall k {:trigger Home(hash, k, |t|)} :: k in at ==> at[k].key == k && at[k] in t[Home(hash, k, |t|)])
    && (forall b {:trigger NoDup(t[b])} :: 0 <= b < |t| ==> NoDup(t[b]))
  }

  ghost function Push<K, V>(t: Chains<K, V>, n: Node<K, V>, hash: K -> nat): (t': Chains<K, V>)
    requires |t| > 0
    ensures |t'| == |t|
  {
    var h := Home(hash, n.key, |t|);
    t[h := [n] + t[h]]
  }

  /** Pushing nodes one after the other, each to the front of its bucket. */
  ghost function PushAll<K, V>(t: Chains<K, V>, s: seq<Node<K, V>>, hash: K -> nat): (t': Chains<K, V>)
    requires |t| > 0
    ensures |t'| == |t|
  {
    if s == [] then t else Push(PushAll(t, s[..|s| - 1], hash), s[|s| - 1], hash)
  }

  lemma PushOwns<K, V>(t: Chains<K, V>, at: map<K, Node<K, V>>, n: Node<K, V>, hash: K -> nat)
    requires |t| > 0 && Owns(t, at, hash) && n.key !in at
    ensures Owns(Push(t, n, hash), at[n.key := n], hash)
  {
    var h, at' := Home(hash, n.key, |t|), at[n.key := n];
    var t': Chains<K, V> := Push(t, n, hash);
    forall b, i | In(t', b, i)
      ensures t'[b][i].key in at' && at'[t'[b][i].key] == t'[b][i] && Home(hash, t'[b][i].key, |t|) == b
    {
      if b != h { assert In(t, b, i); } else if i > 0 { assert In(t, b, i - 1) && t'[b][i] == t[b][i - 1]; }
    }
    forall k | k in at' ensures at'[k].key == k && at'[k] in t'[Home(hash, k, |t|)] {
      if k == n.key { assert t'[h][0] == n; } else { assert at[k] in t[Home(hash, k, |t|)]; }
    }
    NewHead(t, at, n, hash);
  }

  lemma NewHead<K, V>(t: Chains<K, V>, at: map<K, Node<K, V>>, n: Node<K, V>, hash: K -> nat)
    requires |t| > 0 && Owns(t, at, hash) && n.key !in at
    ensures var h := Home(hash, n.key, |t|); NoDup([n] + t[h])
  {
    var h := Home(hash, n.key, |t|);
    assert NoDup(t[h]);
    forall i | 0 <= i < |t[h]| ensures t[h][i] != n {
      assert In(t, h, i);
    }
  }

  ghost predicate NoNodes<T>(t: seq<seq<T>>) {
    forall b :: 0 <= b < |t| ==> t[b] == []
  }

  /** The entries of `at` whose node is in `s`. */
  ghost function PartOf<K, V>(at: map<K, Node<K, V>>, s: seq<Node<K, V>>): map<K, Node<K, V>> {
    map k | k in at && at[k] in s :: at[k]
  }

  ghost predicate Named<K, V>(s: seq<Node<K, V>>, at: map<K, Node<K, V>>) {
    && (forall i :: 0 <= i < |s| ==> s[i].key in at && at[s[i].key] == s[i])
    && (forall k :: k in at ==> at[k].key == k)
  }

  lemma PartOfStep<K, V>(at: map<K, Node<K, V>>, s: seq<Node<K, V>>, n: Node<K, V>)
    requires n !in s && n.key in at && at[n.key] == n && forall k :: k in at ==> at[k].key == k
    ensures n.key !in PartOf(at, s) && PartOf(at, s + [n]) == PartOf(at, s)[n.key := n]
  {}

  /** Relinking distinct nodes into empty buckets moves each of them exactly once. */
  lemma {:induction false} PushAllOwns<K, V>(t: Chains<K, V>, s: seq<Node<K, V>>, at: map<K, Node<K, V>>,
                                             hash: K -> nat)
    requires |t| > 0 && NoNodes(t) && NoDup(s) && Named(s, at)
    ensures Owns(PushAll(t, s, hash), PartOf(at, s), hash)
    decreases |s|
  {
    if s != [] {
      var r, n := s[..|s| - 1], s[|s| - 1];
      assert s == r + [n];
      PushAllOwns(t, r, at, hash);
      PartOfStep(at, r, n);
      PushOwns(PushAll(t, r, hash), PartOf(at, r), n, hash);
    }
  }

  // ---------- Counting and order ----------

  /** Where bucket `b` starts in the order. */
  lemma {:induction false} BucketAt<T>(t: seq<seq<T>>, b: nat, i: nat)
    requires b < |t| && i < |t[b]|
    ensures |Flatten(t[..b])| + i < |Flatten(t)| && Flatten(t)[|Flatten(t[..b])| + i] == t[b][i]
    decreases |t|
  {
    var n := |t| - 1;
    if b < n {
      BucketAt(t[..n], b, i);
      assert t[..n][..b] == t[..b];
    }
  }

  /** The bucket and the place in it of the `k`-th node. */
  lemma {:induction false} Locate<T>(t: seq<seq<T>>, k: nat) returns (b: nat, i: nat)
    requires k < |Flatten(t)|
    ensures b < |t| && i < |t[b]| && k == |Flatten(t[..b])| + i && Flatten(t)[k] == t[b][i]
    decreases |t|
  {
    var n := |t| - 1;
    if k < |Flatten(t[..n])| {
      b, i := Locate(t[..n], k);
      assert t[..n][..b] == t[..b];
    } else {
      b, i := n, k - |Flatten(t[..n])|;
    }
  }

  lemma PrefixStep<T>(t: seq<seq<T>>, b: nat)
    requires b < |t|
    ensures Flatten(t[..b + 1]) == Flatten(t[..b]) + t[b]
  {
    assert t[..b + 1][..b] == t[..b];
  }

  /** The order lists every stored node exactly once. */
  lemma EachOnce<K, V>(t: Chains<K, V>, at: map<K, Node<K, V>>, hash: K -> nat)
    requires |t| > 0 && Owns(t, at, hash)
    ensures NoDup(Flatten(t)) && Named(Flatten(t), at)
    ensures forall k :: k in at ==> at[k] in Flatten(t)
  {
    var s := Flatten(t);
    forall i, j | 0 <= i < j < |s| ensures s[i] != s[j] {
      var b, x := Locate(t, i);
      var c, y := Locate(t, j);
      assert In(t, b, x) && In(t, c, y) && NoDup(t[b]);
    }
    forall i | 0 <= i < |s| ensures s[i].key in at && at[s[i].key] == s[i] {
      var b, x := Locate(t, i);
      assert In(t, b, x);
    }
    forall k | k in at ensures at[k].key == k && at[k] in s {
      var b := Home(hash, k, |t|);
      var i :| 0 <= i < |t[b]| && t[b][i] == at[k];
      BucketAt(t, b, i);
    }
  }

  /** There are as many nodes as keys. */
  lemma {:induction false} NodeCount<K, V>(s: seq<Node<K, V>>, at: map<K, Node<K, V>>)
    requires NoDup(s) && Named(s, at) && forall k :: k in at ==> at[k] in s
    ensures |s| == |at|
    decreases |s|
  {
    if s == [] {
      assert at == map[];
    } else {
      var r, n := s[..|s| - 1], s[|s| - 1];
      var at' := at - {n.key};
      assert s == r + [n];
      assert at.Keys == at'.Keys + {n.key};
      NodeCount(r, at');
    }
  }

  // ---------- Chains in memory ----------

  ghost function NodeAt<K, V>(chain: seq<Node<K, V>>, i: nat): Node?<K, V> {
    if i < |chain| then chain[i] else null
  }

  ghost predicate Linked<K, V>(chain: seq<Node<K, V>>, head: Node?<K, V>)
    reads chain
  {
    && head == NodeAt(chain, 0)
    && forall i {:trigger chain[i].next} :: 0 <= i < |chain| ==> chain[i].next == NodeAt(chain, i + 1)
  }

  ghost function NodesOf<K, V>(t: Chains<K, V>): set<Node<K, V>> {
    set b, i | In(t, b, i) :: t[b][i]
  }

  ghost predicate TableLinked<K, V>(t: Chains<K, V>, heads: seq<Node?<K, V>>)
    reads NodesOf(t)
  {
    |heads| == |t| && forall b :: 0 <= b < |t| ==> Linked(t[b], heads[b])
  }

  /** The loop of `find`, and of the search in `erase`. */
  method Search<K(==), V>(head: Node?<K, V>, ghost chain: seq<Node<K, V>>, k: K)
    returns (prev: Node?<K, V>, cur: Node?<K, V>, ghost i: nat)
    requires Linked(chain, head)
    ensures i <= |chain| && cur == NodeAt(chain, i) && prev == (if i == 0 then null else chain[i - 1])
    ensures forall j :: 0 <= j < i ==> chain[j].key != k
    ensures cur != null ==> cur.key == k
  {
    prev, cur, i := null, head, 0;
    while cur != null
      invariant i <= |chain| && cur == NodeAt(chain, i) && prev == (if i == 0 then null else chain[i - 1])
      invariant forall j :: 0 <= j < i ==> chain[j].key != k
      decreases |chain| - i
    {
      assert cur == chain[i];
      if cur.key == k {
        return;
      }
      prev, cur, i := cur, cur.next, i + 1;
    }
  }

  /** A node that is nowhere in a table, put at the front of its bucket. */
  method PushFront<K, V>(hash: K -> nat, n: Node<K, V>, heads: seq<Node?<K, V>>, ghost t: Chains<K, V>)
    returns (heads': seq<Node?<K, V>>)
    requires |t| > 0 && TableLinked(t, heads) && n !in NodesOf(t)
    modifies n
    ensures TableLinked(Push(t, n, hash), heads')
  {
    var index := Home(hash, n.key, |heads|);
    n.next := heads[index];
    heads' := heads[index := n];
    PushLinked(hash, n, heads, t);
  }

  lemma PushLinked<K, V>(hash: K -> nat, n: Node<K, V>, heads: seq<Node?<K, V>>, t: Chains<K, V>)
    requires |t| > 0 && TableLinked(t, heads) && n.next == heads[Home(hash, n.key, |heads|)]
    ensures TableLinked(Push(t, n, hash), heads[Home(hash, n.key, |heads|) := n])
  {
    var h := Home(hash, n.key, |heads|);
    var t': Chains<K, V> := Push(t, n, hash);
    forall b | 0 <= b < |t'| ensures Linked(t'[b], heads[h := n][b]) {
      assert Linked(t[b], heads[b]);
      if b == h { LinkedCons(t[b], heads[b], n); }
    }
  }

  lemma LinkedCons<K, V>(chain: seq<Node<K, V>>, head: Node?<K, V>, n: Node<K, V>)
    requires Linked(chain, head) && n.next == head
    ensures Linked([n] + chain, n)
  {
    var c := [n] + chain;
    forall i | 0 <= i < |c| ensures c[i].next == NodeAt(c, i + 1) {
      if i > 0 {
        assert c[i] == chain[i - 1];
        assert chain[i - 1].next == NodeAt(chain, i);
      }
    }
  }

  /** The inner loop of the rehash: one old chain is relinked node by node. */
  method MoveChain<K, V>(hash: K -> nat, head: Node?<K, V>, ghost chain: seq<Node<K, V>>,
                         heads: seq<Node?<K, V>>, ghost t: Chains<K, V>)
    returns (heads': seq<Node?<K, V>>)
    requires |t| > 0 && TableLinked(t, heads) && Linked(chain, head) && NoDup(chain)
    requires forall i :: 0 <= i < |chain| ==> chain[i] !in NodesOf(t)
    modifies chain
    ensures TableLinked(PushAll(t, chain, hash), heads')
  {
    heads' := heads;
    var cur := head;
    ghost var i := 0;
    while cur != null
      invariant i <= |chain| && cur == NodeAt(chain, i)
      invariant forall j {:trigger chain[j].next} :: i <= j < |chain| ==> chain[j].next == NodeAt(chain, j + 1)
      invariant forall j :: i <= j < |chain| ==> chain[j] !in NodesOf(PushAll(t, chain[..i], hash))
      invariant TableLinked(PushAll(t, chain[..i], hash), heads')
      decreases |chain| - i
    {
      assert cur == chain[i];
      var next := cur.next;
      ghost var t1 := PushAll(t, chain[..i], hash);
      PushStep(t, chain, i, hash);
      heads' := PushFront(hash, cur, heads', t1);
      cur, i := next, i + 1;
    }
    assert chain[..i] == chain;
  }

  lemma PushStep<K, V>(t: Chains<K, V>, chain: seq<Node<K, V>>, i: nat, hash: K -> nat)
    requires |t| > 0 && i < |chain|
    ensures PushAll(t, chain[..i + 1], hash) == Push(PushAll(t, chain[..i], hash), chain[i], hash)
    ensures NodesOf(PushAll(t, chain[..i + 1], hash)) == NodesOf(PushAll(t, chain[..i], hash)) + {chain[i]}
  {
    assert chain[..i + 1][..i] == chain[..i];
    PushNodes(PushAll(t, chain[..i], hash), chain[i], hash);
  }

  lemma PushNodes<K, V>(t: Chains<K, V>, n: Node<K, V>, hash: K -> nat)
    requires |t| > 0
    ensures NodesOf(Push(t, n, hash)) == NodesOf(t) + {n}
  {
    var h := Home(hash, n.key, |t|);
    var t': Chains<K, V> := Push(t, n, hash);
    forall x | x in NodesOf(t) + {n} ensures x in NodesOf(t') {
      if x == n {
        assert t'[h][0] == n;
      } else {
        var b, i :| 0 <= b < |t| && 0 <= i < |t[b]| && t[b][i] == x;
        assert t'[b][if b == h then i + 1 else i] == x;
      }
    }
    forall x | x in NodesOf(t') ensures x in NodesOf(t) + {n} {
      var b, i :| 0 <= b < |t'| && 0 <= i < |t'[b]| && t'[b][i] == x;
      if b == h { assert i == 0 || x == t[b][i - 1]; } else { assert x == t[b][i]; }
    }
  }

  // ---------- Rehashing ----------

  lemma {:induction false} PushAllConcat<K, V>(t: Chains<K, V>, a: seq<Node<K, V>>, b: seq<Node<K, V>>, hash: K -> nat)
    requires |t| > 0
    ensures PushAll(PushAll(t, a, hash), b, hash) == PushAll(t, a + b, hash)
    decreases |b|
  {
    if b == [] {
      assert a + b == a;
    } else {
      var r := b[..|b| - 1];
      PushAllConcat(t, a, r, hash);
      assert (a + b)[..|a + b| - 1] == a + r;
    }
  }

  lemma {:induction false} PushAllNodes<K, V>(t: Chains<K, V>, s: seq<Node<K, V>>, hash: K -> nat)
    requires |t| > 0 && NoNodes(t)
    ensures forall n :: n in NodesOf(PushAll(t, s, hash)) <==> n in s
    decreases |s|
  {
    if s != [] {
      var r := s[..|s| - 1];
      PushAllNodes(t, r, hash);
      PushNodes(PushAll(t, r, hash), s[|s| - 1], hash);
      assert s == r + [s[|s| - 1]];
    }
  }

  /** Buckets share no nodes. */
  lemma BucketsApart<K, V>(t: Chains<K, V>, at: map<K, Node<K, V>>, hash: K -> nat, b: nat, c: nat)
    requires |t| > 0 && Owns(t, at, hash) && b < |t| && c < |t| && b != c
    ensures forall n :: n in t[b] ==> n !in t[c]
  {
    forall i, j | 0 <= i < |t[b]| && 0 <= j < |t[c]| ensures t[b][i] != t[c][j] {
      assert In(t, b, i) && In(t, c, j);
    }
  }

  lemma OthersApart<K, V>(t: Chains<K, V>, at: map<K, Node<K, V>>, hash: K -> nat, b: nat)
    requires b < |t| && Owns(t, at, hash)
    ensures forall c, j {:trigger In(t, c, j)} :: In(t, c, j) && c != b ==> t[c][j] !in t[b]
  {
    forall c, j | In(t, c, j) && c != b ensures t[c][j] !in t[b] {
      BucketsApart(t, at, hash, c, b);
    }
  }

  lemma BucketIsNew<K, V>(t: Chains<K, V>, at: map<K, Node<K, V>>, hash: K -> nat, b: nat)
    requires |t| > 0 && Owns(t, at, hash) && b < |t|
    ensures forall n :: n in t[b] ==> n !in Flatten(t[..b])
  {
    forall n | n in t[b] ensures n !in Flatten(t[..b]) {
      forall k | 0 <= k < |Flatten(t[..b])| ensures Flatten(t[..b])[k] != n {
        var c, i := Locate(t[..b], k);
        BucketsApart(t, at, hash, b, c);
      }
    }
  }

  ghost function Buckets<K, V>(n: nat): (t: Chains<K, V>)
    ensures |t| == n && NoNodes(t)
  {
    seq(n, _ => [])
  }

  lemma RelinkStep<K, V>(t: Chains<K, V>, at: map<K, Node<K, V>>, hash: K -> nat, t0: Chains<K, V>, i: nat)
    requires |t| > 0 && Owns(t, at, hash) && |t0| > 0 && NoNodes(t0) && i < |t|
    ensures PushAll(PushAll(t0, Flatten(t[..i]), hash), t[i], hash) == PushAll(t0, Flatten(t[..i + 1]), hash)
    ensures NoDup(t[i]) && forall j :: 0 <= j < |t[i]| ==> t[i][j] !in NodesOf(PushAll(t0, Flatten(t[..i]), hash))
    ensures forall b, j {:trigger In(t, b, j)} :: In(t, b, j) && b != i ==> t[b][j] !in t[i]
  {
    BucketIsNew(t, at, hash, i);
    PushAllNodes(t0, Flatten(t[..i]), hash);
    PrefixStep(t, i);
    PushAllConcat(t0, Flatten(t[..i]), t[i], hash);
    OthersApart(t, at, hash, i);
    assert NoDup(t[i]);
  }

  lemma BucketInside<K, V>(t: Chains<K, V>, b: nat)
    requires b < |t|
    ensures forall n :: n in t[b] ==> n in NodesOf(t)
  {
    forall i | 0 <= i < |t[b]| ensures t[b][i] in NodesOf(t) {
      assert In(t, b, i);
    }
  }

  /** The rehash: all chains are relinked into twice as many buckets. */
  method Relink<K, V>(hash: K -> nat, stable: seq<Node?<K, V>>, ghost t: Chains<K, V>, ghost at: map<K, Node<K, V>>)
    returns (heads: seq<Node?<K, V>>, ghost t': Chains<K, V>)
    requires |t| > 0 && Owns(t, at, hash) && TableLinked(t, stable)
    modifies NodesOf(t)
    ensures t' == PushAll(Buckets(2 * |t|), Flatten(t), hash) && TableLinked(t', heads)
  {
    heads := seq(2 * |stable|, _ => null);
    ghost var t0 := Buckets<K, V>(2 * |t|);
    t' := t0;
    assert Flatten(t[..0]) == [];
    for i := 0 to |stable|
      invariant t' == PushAll(t0, Flatten(t[..i]), hash) && TableLinked(t', heads)
      invariant forall b, j {:trigger In(t, b, j)} :: In(t, b, j) && i <= b ==> t[b][j].next == old(t[b][j].next)
    {
      assert Linked(t[i], stable[i]) by {
        assert old(Linked(t[i], stable[i]));
        forall j | 0 <= j < |t[i]| ensures t[i][j].next == NodeAt(t[i], j + 1) { assert In(t, i, j); }
      }
      RelinkStep(t, at, hash, t0, i);
      BucketInside(t, i);
      heads := MoveChain(hash, stable[i], t[i], heads, t');
      t' := PushAll(t', t[i], hash);
    }
    assert t[..|stable|] == t;
  }

  /** After a rehash the table holds the same nodes, each once, in the bucket of its hash. */
  lemma Relinked<K, V>(t: Chains<K, V>, at: map<K, Node<K, V>>, hash: K -> nat, nodes: set<Node<K, V>>)
    requires |t| > 0 && Owns(t, at, hash) && Within(t, nodes)
    ensures var t' := PushAll(Buckets(2 * |t|), Flatten(t), hash);
      |t'| == 2 * |t| && Owns(t', at, hash) && Within(t', nodes)
  {
    EachOnce(t, at, hash);
    PushAllOwns(Buckets(2 * |t|), Flatten(t), at, hash);
    assert PartOf(at, Flatten(t)) == at;
    WithinAll(t, nodes);
    PushAllWithin(Buckets(2 * |t|), Flatten(t), hash, nodes);
  }

  lemma BucketWithin<T>(t: seq<seq<T>>, nodes: set<T>, b: nat)
    requires Within(t, nodes) && b < |t|
    ensures forall n :: n in t[b] ==> n in nodes
  {
    forall i | 0 <= i < |t[b]| ensures t[b][i] in nodes {
      assert In(t, b, i);
    }
  }

  lemma WithinAll<T>(t: seq<seq<T>>, nodes: set<T>)
    requires Within(t, nodes)
    ensures forall i :: 0 <= i < |Flatten(t)| ==> Flatten(t)[i] in nodes
  {
    forall i | 0 <= i < |Flatten(t)| ensures Flatten(t)[i] in nodes {
      var b, x := Locate(t, i);
      assert In(t, b, x);
    }
  }

  lemma {:induction false} PushAllWithin<K, V>(t: Chains<K, V>, s: seq<Node<K, V>>, hash: K -> nat,
                                               nodes: set<Node<K, V>>)
    requires |t| > 0 && NoNodes(t) && forall i :: 0 <= i < |s| ==> s[i] in nodes
    ensures Within(PushAll(t, s, hash), nodes)
    decreases |s|
  {
    if s != [] {
      PushAllWithin(t, s[..|s| - 1], hash, nodes);
      PushWithin(PushAll(t, s[..|s| - 1], hash), s[|s| - 1], hash, nodes);
    }
  }

  lemma PushWithin<K, V>(t: Chains<K, V>, n: Node<K, V>, hash: K -> nat, nodes: set<Node<K, V>>)
    requires |t| > 0 && Within(t, nodes)
    ensures Within(Push(t, n, hash), nodes + {n})
  {
    var t': Chains<K, V> := Push(t, n, hash);
    forall b, i | In(t', b, i) ensures t'[b][i] in nodes + {n} {
      if b != Home(hash, n.key, |t|) { assert In(t, b, i); } else if i > 0 { assert In(t, b, i - 1); }
    }
  }

  /** One more node, with a key that is new. */
  lemma Pushed<K, V>(t: Chains<K, V>, at: map<K, Node<K, V>>, n: Node<K, V>, hash: K -> nat, nodes: set<Node<K, V>>)
    requires |t| > 0 && Owns(t, at, hash) && Within(t, nodes) && n.key !in at
    ensures Owns(Push(t, n, hash), at[n.key := n], hash) && Within(Push(t, n, hash), nodes + {n})
  {
    PushOwns(t, at, n, hash);
    PushWithin(t, n, hash, nodes);
  }

  lemma ValuesPut<K, V>(at: map<K, Node<K, V>>, n: Node<K, V>)
    ensures Values(at[n.key := n]) == Values(at)[n.key := n.value]
  {}

  lemma ValuesDrop<K, V>(at: map<K, Node<K, V>>, k: K)
    ensures Values(at - {k}) == Values(at) - {k} && (k !in at ==> at - {k} == at)
  {}

  // ---------- Erasing ----------

  ghost function Without<K, V>(t: Chains<K, V>, b: nat, i: nat): (t': Chains<K, V>)
    requires b < |t| && i < |t[b]|
    ensures |t'| == |t|
  {
    t[b := t[b][..i] + t[b][i + 1..]]
  }

  lemma NoDupWithout<T>(s: seq<T>, i: nat)
    requires i < |s| && NoDup(s)
    ensures NoDup(s[..i] + s[i + 1..])
  {}

  /** Node `i` of a bucket after the removal was this one before. */
  ghost function Shifted(b: int, i: int, c: int, j: int): int {
    if c == b && j >= i then j + 1 else j
  }

  lemma WithoutOwns<K, V>(t: Chains<K, V>, at: map<K, Node<K, V>>, hash: K -> nat, b: nat, i: nat,
                          nodes: set<Node<K, V>>)
    requires b < |t| && i < |t[b]| && Owns(t, at, hash) && Within(t, nodes)
    ensures Owns(Without(t, b, i), at - {t[b][i].key}, hash) && Within(Without(t, b, i), nodes)
  {
    var at' := at - {t[b][i].key};
    var t': Chains<K, V> := Without(t, b, i);
    assert In(t, b, i) && NoDup(t[b]);
    forall c, j | In(t', c, j)
      ensures t'[c][j].key in at' && at'[t'[c][j].key] == t'[c][j] && Home(hash, t'[c][j].key, |t|) == c
      ensures t'[c][j] in nodes
    {
      assert In(t, c, Shifted(b, i, c, j)) && t'[c][j] == t[c][Shifted(b, i, c, j)];
    }
    forall x | x in at' ensures at'[x].key == x && at'[x] in t'[Home(hash, x, |t|)] {
      var c := Home(hash, x, |t|);
      var j :| 0 <= j < |t[c]| && t[c][j] == at[x];
      if c == b { assert t'[c][if j > i then j - 1 else j] == t[c][j]; }
    }
    NoDupWithout(t[b], i);
  }

  /** The end of `erase`: the node is taken out of its chain. */
  method Unlink<K, V>(head: Node?<K, V>, prev: Node?<K, V>, cur: Node<K, V>, ghost chain: seq<Node<K, V>>, ghost i: nat)
    returns (head': Node?<K, V>)
    requires Linked(chain, head) && NoDup(chain)
    requires i < |chain| && cur == chain[i] && prev == (if i == 0 then null else chain[i - 1])
    modifies chain
    ensures Linked(chain[..i] + chain[i + 1..], head')
  {
    if cur == head {
      head' := cur.next;
    } else {
      prev.next := cur.next;
      head' := head;
    }
    Spliced(chain, chain[..i] + chain[i + 1..], head', i);
  }

  /** `Unlink` in bucket `b` of a table. */
  method Cut<K, V>(stable: seq<Node?<K, V>>, b: nat, prev: Node?<K, V>, cur: Node<K, V>, ghost t: Chains<K, V>,
                   ghost at: map<K, Node<K, V>>, ghost hash: K -> nat, ghost nodes: set<Node<K, V>>, ghost i: nat)
    returns (heads: seq<Node?<K, V>>, ghost t': Chains<K, V>)
    requires b < |t| && Owns(t, at, hash) && TableLinked(t, stable) && Within(t, nodes)
    requires i < |t[b]| && cur == t[b][i] && prev == (if i == 0 then null else t[b][i - 1])
    modifies t[b]
    ensures |t'| == |t| && TableLinked(t', heads) && Owns(t', at - {cur.key}, hash) && Within(t', nodes)
  {
    WithoutOwns(t, at, hash, b, i, nodes);
    t' := Without(t, b, i);
    heads := Splice(stable, b, prev, cur, t, at, hash, i);
  }

  method Splice<K, V>(stable: seq<Node?<K, V>>, b: nat, prev: Node?<K, V>, cur: Node<K, V>,
                      ghost t: Chains<K, V>, ghost at: map<K, Node<K, V>>, ghost hash: K -> nat, ghost i: nat)
    returns (heads: seq<Node?<K, V>>)
    requires b < |t| && Owns(t, at, hash) && TableLinked(t, stable)
    requires i < |t[b]| && cur == t[b][i] && prev == (if i == 0 then null else t[b][i - 1])
    modifies t[b]
    ensures TableLinked(Without(t, b, i), heads)
  {
    OthersApart(t, at, hash, b);
    assert NoDup(t[b]);
    var head := Unlink(stable[b], prev, cur, t[b], i);
    heads := stable[b := head];
    forall c | 0 <= c < |t| && c != b ensures Linked(t[c], heads[c]) {
      assert old(Linked(t[c], stable[c]));
      forall j | 0 <= j < |t[c]| ensures t[c][j].next == NodeAt(t[c], j + 1) { assert In(t, c, j); }
    }
  }

  /** A chain is linked without its node `i` when the pointer to that node skips it and all others are as they were. */
  lemma Spliced<K, V>(chain: seq<Node<K, V>>, rest: seq<Node<K, V>>, head: Node?<K, V>, i: nat)
    requires i < |chain| && rest == chain[..i] + chain[i + 1..]
    requires forall j {:trigger chain[j].next} :: 0 <= j < |chain| && j != i - 1 ==> chain[j].next == NodeAt(chain, j + 1)
    requires if i == 0 then head == NodeAt(chain, 1) else head == chain[0] && chain[i - 1].next == NodeAt(chain, i + 1)
    ensures Linked(rest, head)
  {
    forall j | 0 <= j < |rest| ensures rest[j].next == NodeAt(rest, j + 1) {
      assert rest[j] == chain[if j < i then j else j + 1];
    }
  }

  /** A search that has passed `i` nodes of the right bucket finds the node of the key there, or no node. */
  lemma Found<K, V>(t: Chains<K, V>, at: map<K, Node<K, V>>, hash: K -> nat, k: K, i: nat)
    requires |t| > 0 && Owns(t, at, hash)
    requires var c := t[Home(hash, k, |t|)];
      i <= |c| && (forall j :: 0 <= j < i ==> c[j].key != k) && (i < |c| ==> c[i].key == k)
    ensures NodeAt(t[Home(hash, k, |t|)], i) == if k in at then at[k] else null
  {
    var b := Home(hash, k, |t|);
    if i < |t[b]| { assert In(t, b, i); }
  }

  // ---------- The table ----------

  /** The finite map that the nodes of a table stand for. */
  ghost function Values<K, V>(at: map<K, Node<K, V>>): map<K, V> {
    map k | k in at :: at[k].value
  }

  ghost predicate Within<T>(t: seq<seq<T>>, nodes: set<T>) {
    forall b, i {:trigger In(t, b, i)} :: In(t, b, i) ==> t[b][i] in nodes
  }

  class ChainedTable<K(==,!new), V(!new)> {
    const hash: K -> nat
    var stable: seq<Node?<K, V>>
    var size: nat
    ghost var chains: Chains<K, V>
    ghost var at: map<K, Node<K, V>>
    ghost var nodes: set<Node<K, V>>

    ghost predicate Valid()
      reads this, nodes
    {
      && |stable| == |chains| > 0
      && Within(chains, nodes)
      && Owns(chains, at, hash)
      && TableLinked(chains, stable)
      && |at| <= size <= |stable|
    }

    constructor (hash: K -> nat)
      ensures Valid() && at == map[] && size == 0 && |stable| == 10 && this.hash == hash && nodes == {}
    {
      this.hash, stable, size := hash, seq(10, _ => null), 0;
      chains, at, nodes := Buckets(10), map[], {};
    }

    /** `find`. */
    method Find(k: K) returns (n: Node?<K, V>)
      requires Valid()
      ensures n == if k in at then at[k] else null
      ensures n != null ==> n.key == k
    {
      var b := Home(hash, k, |stable|);
      var prev, cur, i := Search(stable[b], chains[b], k);
      Found(chains, at, hash, k, i);
      n := cur;
    }

    /** The growth step of `insert`. */
    method Grow()
      requires Valid() && size == |stable|
      modifies this`stable, this`chains, nodes
      ensures Valid() && |stable| == 2 * old(|stable|)
    {
      Relinked(chains, at, hash, nodes);
      stable, chains := Relink(hash, stable, chains, at);
    }

    /** The last part of `insert`: a new node at the front of its bucket. */
    method Prepend(k: K, v: V) returns (n: Node<K, V>)
      requires Valid() && k !in at && size < |stable|
      modifies this
      ensures Valid() && fresh(n) && n.key == k && n.value == v && at == old(at)[k := n]
      ensures size == old(size) + 1 && |stable| == old(|stable|) && nodes == old(nodes) + {n}
    {
      n := new Node(k, v);
      Pushed(chains, at, n, hash, nodes);
      stable := PushFront(hash, n, stable, chains);
      chains, at, size, nodes := Push(chains, n, hash), at[k := n], size + 1, nodes + {n};
    }

    /** `Hash::HashTable::insert`. */
    method Insert(k: K, v: V) returns (added: bool)
      requires Valid()
      modifies this, nodes
      ensures Valid() && added == (k !in old(at)) && fresh(nodes - old(nodes))
      ensures Values(at) == if added then Values(old(at))[k := v] else Values(old(at))
      ensures size == old(size) + if added then 1 else 0
      ensures |stable| == if added && old(size == |stable|) then 2 * old(|stable|) else old(|stable|)
    {
      var found := Find(k);
      if found != null {
        return false;
      }
      if size == |stable| {
        Grow();
      }
      var n := Prepend(k, v);
      ValuesPut(old(at), n);
      return true;
    }

    /** `zhc_hash::HashTable::insert`: the flag it returns is false in every case. */
    method InsertData(k: K, v: V) returns (it: Node<K, V>, flag: bool)
      requires Valid()
      modifies this, nodes
      ensures Valid() && k in at && it == at[k] && fresh(nodes - old(nodes))
      ensures Values(at) == if k in old(at) then Values(old(at)) else Values(old(at))[k := v]
      ensures !flag
    {
      var found := Find(k);
      if found != null {
        return found, false;
      }
      if size == |stable| {
        Grow();
      }
      it := Prepend(k, v);
      ValuesPut(old(at), it);
      flag := false;
    }

    /** `erase`; `_size` keeps counting the erased node. */
    method Erase(k: K) returns (erased: bool)
      requires Valid()
      modifies this`stable, this`chains, this`at, nodes
      ensures Valid() && erased == (k in old(at)) && at == old(at) - {k}
      ensures Values(at) == Values(old(at)) - {k} && |stable| == old(|stable|)
    {
      ValuesDrop(at, k);
      var b := Home(hash, k, |stable|);
      var prev, cur, i := Search(stable[b], chains[b], k);
      Found(chains, at, hash, k, i);
      if cur == null {
        return false;
      }
      BucketWithin(chains, nodes, b);
      stable, chains := Cut(stable, b, prev, cur, chains, at, hash, nodes, i);
      at := at - {k};
      return true;
    }

    /** `begin`. */
    method Begin() returns (n: Node?<K, V>)
      requires Valid()
      ensures n == NodeAt(Flatten(chains), 0)
    {
      n := FirstFrom(stable, chains, 0);
    }

    /** `operator++` at the `k`-th node of the order. */
    method Increment(n: Node<K, V>, ghost k: nat) returns (n': Node?<K, V>)
      requires Valid() && k < |Flatten(chains)| && n == Flatten(chains)[k]
      ensures n' == NodeAt(Flatten(chains), k + 1)
    {
      ghost var b, i := Locate(chains, k);
      assert In(chains, b, i) && Linked(chains[b], stable[b]);
      if n.next != null {
        BucketAt(chains, b, i + 1);
        n' := n.next;
      } else {
        PrefixStep(chains, b);
        n' := FirstFrom(stable, chains, Home(hash, n.key, |stable|) + 1);
      }
    }

    /** From `begin` with `++` to `end`: every stored node is visited exactly once. */
    method Traverse() returns (visited: seq<Node<K, V>>)
      requires Valid()
      ensures visited == Flatten(chains) && NoDup(visited) && |visited| == |at|
      ensures forall n :: n in visited <==> n.key in at && at[n.key] == n
    {
      visited := [];
      var n := Begin();
      while n != null
        invariant |visited| <= |Flatten(chains)| && visited == Flatten(chains)[..|visited|]
        invariant n == NodeAt(Flatten(chains), |visited|)
        decreases |Flatten(chains)| - |visited|
      {
        var node: Node<K, V> := n;
        n := Increment(node, |visited|);
        visited := visited + [node];
      }
      EachOnce(chains, at, hash);
      NodeCount(Flatten(chains), at);
    }
  }

  /** The scan of `begin` and `++`: the head of the first bucket from `from` on that is not empty. */
  method FirstFrom<K, V>(stable: seq<Node?<K, V>>, ghost t: Chains<K, V>, from: nat) returns (n: Node?<K, V>)
    requires TableLinked(t, stable) && from <= |t|
    ensures n == NodeAt(Flatten(t), |Flatten(t[..from])|)
  {
    var index := from;
    while index < |stable|
      invariant from <= index <= |t| && |Flatten(t[..index])| == |Flatten(t[..from])|
    {
      assert Linked(t[index], stable[index]);
      if stable[index] != null {
        BucketAt(t, index, 0);
        return stable[index];
      }
      PrefixStep(t, index);
      index := index + 1;
    }
    assert t[..index] == t;
    return null;
  }
}
