/**
 The open-addressing hash table `zhc_test1::Hash` of `Algorithm/HashTable.hpp`. A probe
 walks the slots cyclically from the key's home slot; erased entries leave a tombstone
 behind. The hash function is arbitrary.
 */
module ProbingTable {
  import opened Common

  datatype Slot<K, V> = Empty | Exist(key: K, value: V) | Deleted

  // ---------- Going round the slots ----------

  ghost function Next(i: nat, n: nat): (j: nat)
    requires i < n
    ensures j < n
  {
    if i + 1 == n then 0 else i + 1
  }

  lemma NextIsMod(i: nat, n: nat)
    requires i < n
    ensures (i + 1) % n == Next(i, n)
  {}

  /** Steps from slot `h` to slot `j`. */
  ghost function Dist(h: nat, j: nat, n: nat): nat
    requires h < n && j < n
  {
    if h <= j then j - h else n - h + j
  }

  /** The slot reached after `k` steps. */
  ghost function After(h: nat, k: nat, n: nat): (j: nat)
    requires h < n
    ensures j < n
  {
    if k == 0 then h else Next(After(h, k - 1, n), n)
  }

  lemma {:induction false} AfterDist(h: nat, k: nat, n: nat)
    requires h < n && k < n
    ensures Dist(h, After(h, k, n), n) == k
  {
    if k > 0 { AfterDist(h, k - 1, n); }
  }

  /** Every slot is reached, after as many steps as it is away. */
  lemma EverySlotReached(h: nat, j: nat, n: nat)
    requires h < n && j < n
    ensures After(h, Dist(h, j, n), n) == j
  {
    AfterDist(h, Dist(h, j, n), n);
  }

  // ---------- Slots as a map ----------

  ghost predicate Holds<K, V>(s: Slot<K, V>, k: K) {
    s.Exist? && s.key == k
  }

  /** The live slots are those of a map: `at` gives the slot of each key. */
  ghost predicate Indexed<K, V>(slots: seq<Slot<K, V>>, content: map<K, V>, at: map<K, nat>) {
    && at.Keys == content.Keys
    && (forall k :: k in at ==> at[k] < |slots| && slots[at[k]] == Exist(k, content[k]))
    && (forall i :: 0 <= i < |slots| && slots[i].Exist? ==> slots[i].key in at && at[slots[i].key] == i)
  }

  /** Between slot `h` and slot `j` there is no empty slot. */
  ghost predicate Unbroken<K, V>(slots: seq<Slot<K, V>>, h: nat, j: nat)
    requires h < |slots| && j < |slots|
  {
    forall m :: 0 <= m < |slots| && Dist(h, m, |slots|) < Dist(h, j, |slots|) ==> !slots[m].Empty?
  }

  /** Every live key is reached from its home slot without crossing an empty slot. */
  ghost predicate Probeable<K, V>(slots: seq<Slot<K, V>>, hash: K -> nat) {
    forall j :: 0 <= j < |slots| && slots[j].Exist? ==> Unbroken(slots, Home(hash, slots[j].key, |slots|), j)
  }

  ghost predicate HasEmpty<K, V>(slots: seq<Slot<K, V>>) {
    exists i :: 0 <= i < |slots| && slots[i].Empty?
  }

  ghost predicate NoTombstones<K, V>(slots: seq<Slot<K, V>>) {
    forall i :: 0 <= i < |slots| ==> !slots[i].Deleted?
  }

  ghost function Live<K, V>(slots: seq<Slot<K, V>>): (n: nat)
    ensures n <= |slots|
  {
    if slots == [] then 0 else Live(slots[..|slots| - 1]) + Bit(slots[|slots| - 1].Exist?)
  }

  lemma {:induction false} LiveUpdate<K, V>(slots: seq<Slot<K, V>>, i: nat, s: Slot<K, V>)
    requires i < |slots|
    ensures Live(slots[i := s]) == Live(slots) - Bit(slots[i].Exist?) + Bit(s.Exist?)
  {
    var n := |slots| - 1;
    if i < n {
      LiveUpdate(slots[..n], i, s);
      assert slots[i := s][..n] == slots[..n][i := s];
    } else {
      assert slots[i := s][..n] == slots[..n];
    }
  }

  /** A table that is not full of live entries has a slot to write to. */
  lemma {:induction false} FreeSlot<K, V>(slots: seq<Slot<K, V>>) returns (i: nat)
    requires Live(slots) < |slots|
    ensures i < |slots| && !slots[i].Exist?
  {
    var n := |slots| - 1;
    if slots[n].Exist? { i := FreeSlot(slots[..n]); } else { i := n; }
  }

  lemma {:induction false} NoneLive<K, V>(slots: seq<Slot<K, V>>)
    requires forall i :: 0 <= i < |slots| ==> slots[i] == Empty
    ensures Live(slots) == 0
  {
    if slots != [] { NoneLive(slots[..|slots| - 1]); }
  }

  // ---------- When a lookup ends ----------

  /** The lookup of `k` stops at the slot it reaches after `steps` steps. */
  ghost predicate StopsAt<K, V>(slots: seq<Slot<K, V>>, hash: K -> nat, k: K, steps: nat)
    requires |slots| > 0
  {
    var s := slots[After(Home(hash, k, |slots|), steps, |slots|)];
    s.Empty? || Holds(s, k)
  }

  /** `find` terminates exactly when there is an empty slot or the key is in the table. */
  lemma FindTerminates<K, V>(slots: seq<Slot<K, V>>, hash: K -> nat, content: map<K, V>, at: map<K, nat>, k: K)
    requires |slots| > 0 && Indexed(slots, content, at)
    ensures (exists steps :: StopsAt(slots, hash, k, steps)) <==> HasEmpty(slots) || k in content
  {
    if HasEmpty(slots) || k in content {
      var i :| 0 <= i < |slots| && (slots[i].Empty? || Holds(slots[i], k));
      EverySlotReached(Home(hash, k, |slots|), i, |slots|);
      assert StopsAt(slots, hash, k, Dist(Home(hash, k, |slots|), i, |slots|));
    }
  }

  // ---------- The load ----------

  /** A table of `10 * tens` slots that is not crowded has room for one more within the load bound. */
  lemma Spare(count: nat, tens: nat)
    requires tens > 0
    ensures count * 10 / (10 * tens) > 7 <==> count >= 8 * tens
  {
    var q := count * 10 / (10 * tens);
    assert q * (10 * tens) <= count * 10 < q * (10 * tens) + 10 * tens;
    if q >= 8 { assert q * (10 * tens) >= 8 * (10 * tens); } else { assert q * (10 * tens) <= 7 * (10 * tens); }
  }

  /** Without tombstones the load bound leaves an empty slot. */
  lemma LoadLeavesEmpty<K, V>(slots: seq<Slot<K, V>>)
    requires NoTombstones(slots) && Live(slots) * 10 <= 8 * |slots| && |slots| > 0
    ensures HasEmpty(slots)
  {
    var i := FreeSlot(slots);
    assert slots[i].Empty?;
  }

  /** A table filled from one half its size is never crowded. */
  lemma HalfEmpty<K, V>(slots: seq<Slot<K, V>>, count: nat, tens: nat)
    requires NoTombstones(slots) && Live(slots) == count < 5 * tens && |slots| == 10 * tens
    ensures HasEmpty(slots) && !(count * 10 / |slots| > 7)
  {
    LoadLeavesEmpty(slots);
    Spare(count, tens);
  }

  // ---------- Steps on the slots ----------

  ghost predicate Sound<K, V>(slots: seq<Slot<K, V>>, hash: K -> nat, content: map<K, V>, at: map<K, nat>) {
    Indexed(slots, content, at) && Probeable(slots, hash)
  }

  /** Writing a new key over a slot that is not live, with nothing empty on the way there. */
  lemma Written<K, V>(slots: seq<Slot<K, V>>, hash: K -> nat, content: map<K, V>, at: map<K, nat>, p: nat, k: K, v: V)
    requires Sound(slots, hash, content, at) && k !in content && p < |slots| && !slots[p].Exist?
    requires Unbroken(slots, Home(hash, k, |slots|), p)
    ensures Sound(slots[p := Exist(k, v)], hash, content[k := v], at[k := p])
    ensures Live(slots[p := Exist(k, v)]) == Live(slots) + 1
  {
    LiveUpdate(slots, p, Exist(k, v));
    var slots' := slots[p := Exist(k, v)];
    forall j | 0 <= j < |slots'| && slots'[j].Exist?
      ensures Unbroken(slots', Home(hash, slots'[j].key, |slots|), j)
    {
      if j != p { assert Unbroken(slots, Home(hash, slots[j].key, |slots|), j); }
    }
  }

  /** Putting a tombstone over a live entry. */
  lemma Buried<K, V>(slots: seq<Slot<K, V>>, hash: K -> nat, content: map<K, V>, at: map<K, nat>, p: nat)
    requires Sound(slots, hash, content, at) && p < |slots| && slots[p].Exist?
    ensures Sound(slots[p := Deleted], hash, content - {slots[p].key}, at - {slots[p].key})
    ensures Live(slots[p := Deleted]) == Live(slots) - 1
  {
    LiveUpdate(slots, p, Deleted);
    var slots', k := slots[p := Deleted], slots[p].key;
    assert (at - {k}).Keys == (content - {k}).Keys;
    forall j | 0 <= j < |slots'| && slots'[j].Exist?
      ensures Unbroken(slots', Home(hash, slots'[j].key, |slots|), j)
    {
      assert Unbroken(slots, Home(hash, slots[j].key, |slots|), j);
    }
  }

  /** The loop invariant of a lookup: nothing passed so far is empty or holds the key. */
  ghost predicate Passed<K, V>(slots: seq<Slot<K, V>>, h: nat, i: nat, k: K)
    requires h < |slots| && i < |slots|
  {
    forall m :: 0 <= m < |slots| && Dist(h, m, |slots|) < Dist(h, i, |slots|) ==> !slots[m].Empty? && !Holds(slots[m], k)
  }

  /** A lookup that has passed neither an empty slot nor the key is not at an empty slot if the key is there. */
  lemma PresentIsMet<K, V>(slots: seq<Slot<K, V>>, hash: K -> nat, content: map<K, V>, at: map<K, nat>, i: nat, k: K)
    requires |slots| > 0 && Sound(slots, hash, content, at) && i < |slots|
    requires Passed(slots, Home(hash, k, |slots|), i, k)
    ensures k in content ==> !slots[i].Empty?
    ensures Holds(slots[i], k) ==> k in content && slots[i] == Exist(k, content[k])
  {
    if k in content {
      assert Unbroken(slots, Home(hash, k, |slots|), at[k]);
    }
  }

  /** The loop of `find`. */
  method Probe<K(==), V>(slots: seq<Slot<K, V>>, h: nat, k: K) returns (index: nat)
    requires h < |slots| && exists i :: 0 <= i < |slots| && (slots[i].Empty? || Holds(slots[i], k))
    ensures index < |slots| && Passed(slots, h, index, k) && (slots[index].Empty? || Holds(slots[index], k))
  {
    var n := |slots|;
    ghost var stop :| 0 <= stop < n && (slots[stop].Empty? || Holds(slots[stop], k));
    index := h;
    while !slots[index].Empty?
      invariant index < n && Passed(slots, h, index, k)
      decreases n - Dist(h, index, n)
    {
      if slots[index].Exist? && slots[index].key == k {
        return;
      }
      NextIsMod(index, n);
      index := (index + 1) % n;
    }
  }

  /** The loop of `insert`. */
  method FirstFree<K, V>(slots: seq<Slot<K, V>>, h: nat) returns (index: nat)
    requires h < |slots| && Live(slots) < |slots|
    ensures index < |slots| && !slots[index].Exist?
    ensures forall m :: 0 <= m < |slots| && Dist(h, m, |slots|) < Dist(h, index, |slots|) ==> slots[m].Exist?
  {
    var n := |slots|;
    ghost var stop := FreeSlot(slots);
    index := h;
    while slots[index].Exist?
      invariant index < n
      invariant forall m :: 0 <= m < n && Dist(h, m, n) < Dist(h, index, n) ==> slots[m].Exist?
      decreases n - Dist(h, index, n)
    {
      NextIsMod(index, n);
      index := (index + 1) % n;
    }
  }

  class ProbingTable<K(==,!new), V(!new)> {
    const hash: K -> nat
    var slots: seq<Slot<K, V>>
    var count: nat
    ghost var content: map<K, V>
    ghost var at: map<K, nat>
    ghost var tens: nat

    ghost predicate Valid()
      reads this
    {
      && |slots| == 10 * tens > 0
      && Sound(slots, hash, content, at)
      && count == Live(slots) <= 8 * tens
    }

    constructor (hash: K -> nat)
      ensures Valid() && content == map[] && slots == seq(10, _ => Empty) && this.hash == hash && count == 0
      ensures tens == 1
    {
      this.hash, slots, count, content, at, tens := hash, seq(10, _ => Empty), 0, map[], map[], 1;
      NoneLive<K, V>(seq(10, _ => Empty));
    }

    /** The test that makes `insert` grow the table. */
    predicate Crowded()
      requires |slots| > 0
      reads this
    {
      count * 10 / |slots| > 7
    }

    /** `find`: the slot of the key, if it is there. Without an empty slot it ends only for keys that are. */
    method Find(k: K) returns (pos: Option<nat>)
      requires Valid() && (HasEmpty(slots) || k in content)
      ensures pos.None? <==> k !in content
      ensures pos.Some? ==> pos.value < |slots| && slots[pos.value] == Exist(k, content[k])
    {
      var index := Probe(slots, Home(hash, k, |slots|), k);
      PresentIsMet(slots, hash, content, at, index, k);
      return if slots[index].Empty? then None else Some(index);
    }

    /** The second half of `insert`: the entry goes to the first slot from home that is not live. */
    method Place(k: K, v: V)
      requires Valid() && k !in content && count < 8 * tens
      modifies this`slots, this`count, this`content, this`at
      ensures Valid() && content == old(content)[k := v] && |slots| == old(|slots|) && count == old(count) + 1
      ensures old(NoTombstones(slots)) ==> NoTombstones(slots)
      ensures !old(slots)[Home(hash, k, |slots|)].Exist? ==> slots == old(slots)[Home(hash, k, |slots|) := Exist(k, v)]
    {
      var index := FirstFree(slots, Home(hash, k, |slots|));
      Written(slots, hash, content, at, index, k, v);
      slots := slots[index := Exist(k, v)];
      count, content, at := count + 1, content[k := v], at[k := index];
    }

    /** The first half of `insert`: live entries are inserted into a table of twice the size, whose slots are taken
        over. */
    method Grow()
      requires Valid()
      modifies this`slots, this`at, this`tens
      ensures Valid() && tens == 2 * old(tens) && NoTombstones(slots)
      decreases 1, 1
    {
      var bigger := new ProbingTable<K, V>(hash);
      bigger.Resize(2 * |slots|, 2 * tens);
      Transfer(slots, content, at, bigger);
      AllMoved(slots, content, at, bigger.content);
      slots, at, tens := bigger.slots, bigger.at, bigger.tens;
    }

    /** The loop of the first half of `insert`: every live slot is inserted into the bigger table. */
    static method Transfer(source: seq<Slot<K, V>>, ghost from: map<K, V>, ghost at: map<K, nat>, bigger: ProbingTable<K, V>)
      requires Indexed(source, from, at) && bigger.Valid() && |source| <= 5 * bigger.tens
      requires bigger.content == map[] && bigger.count == 0 && NoTombstones(bigger.slots)
      modifies bigger
      ensures bigger.Valid() && bigger.tens == old(bigger.tens) && bigger.count == Live(source)
      ensures NoTombstones(bigger.slots)
      ensures Moved(from, at, |source|, bigger.content)
      decreases 1, 0
    {
      for i := 0 to |source|
        invariant bigger.Valid() && bigger.tens == old(bigger.tens) && bigger.count == Live(source[..i])
        invariant NoTombstones(bigger.slots) && Moved(from, at, i, bigger.content)
      {
        TransferSlot(source, i, i + 1, from, at, bigger);
      }
      assert source[..|source|] == source;
    }

    /** One turn of that loop: the bigger table has room, so the insert does not grow it. */
    static method TransferSlot(source: seq<Slot<K, V>>, i: nat, ghost next: nat, ghost from: map<K, V>,
                               ghost at: map<K, nat>, bigger: ProbingTable<K, V>)
      requires Indexed(source, from, at) && bigger.Valid() && |source| <= 5 * bigger.tens && i < |source| && next == i + 1
      requires bigger.count == Live(source[..i]) && NoTombstones(bigger.slots) && Moved(from, at, i, bigger.content)
      modifies bigger
      ensures bigger.Valid() && bigger.tens == old(bigger.tens) && bigger.count == Live(source[..next])
      ensures NoTombstones(bigger.slots) && Moved(from, at, next, bigger.content)
      decreases 0, 3
    {
      LivePrefix(source, i, next);
      if source[i].Exist? {
        HalfEmpty(bigger.slots, bigger.count, bigger.tens);
        MovedOne(source, from, at, i, next, bigger.content);
        var _ := bigger.Insert(source[i].key, source[i].value);
      }
    }

    /** `_hs.resize(n)` on a new table. */
    method Resize(n: nat, ghost tens': nat)
      requires Valid() && NoTombstones(slots) && content == map[] && n == 10 * tens' >= |slots|
      modifies this`slots, this`tens
      ensures Valid() && tens == tens' && NoTombstones(slots) && count == 0
    {
      NoneLive(slots);
      slots := slots + seq(n - |slots|, _ => Empty);
      tens := tens';
      NoneLive(slots);
    }

    /** `insert`. Growing inserts into a table that does not grow again: the measure of the nested call is smaller. */
    method Insert(k: K, v: V) returns (added: bool)
      requires Valid() && (HasEmpty(slots) || k in content)
      modifies this
      ensures Valid() && added == (k !in old(content))
      ensures content == if added then old(content)[k := v] else old(content)
      ensures count == old(count) + if added then 1 else 0
      ensures tens == if added && old(Crowded()) then 2 * old(tens) else old(tens)
      ensures old(NoTombstones(slots)) ==> NoTombstones(slots)
      ensures added && !old(Crowded()) && !old(slots)[Home(hash, k, |slots|)].Exist? ==>
                slots == old(slots)[Home(hash, k, |slots|) := Exist(k, v)]
      decreases if Crowded() then 1 else 0, 2
    {
      var pos := Find(k);
      if pos.Some? {
        return false;
      }
      Spare(count, tens);
      if Crowded() {
        Grow();
      }
      Place(k, v);
      return true;
    }

    /** `erase`: a tombstone over the entry. */
    method Erase(k: K) returns (erased: bool)
      requires Valid() && (HasEmpty(slots) || k in content)
      modifies this
      ensures Valid() && erased == (k in old(content)) && content == old(content) - {k}
      ensures |slots| == old(|slots|) && count == old(count) - if erased then 1 else 0
      ensures if erased then
                exists p :: 0 <= p < |slots| && Holds(old(slots)[p], k) && slots == old(slots)[p := Deleted]
              else slots == old(slots)
    {
      var pos := Find(k);
      if pos.None? {
        return false;
      }
      Buried(slots, hash, content, at, pos.value);
      assert Holds(slots[pos.value], k);
      slots := slots[pos.value := Deleted];
      count, content, at := count - 1, content - {k}, at - {k};
      return true;
    }
  }

  /** `moved` holds the entries of the slots before `i`. */
  ghost predicate Moved<K, V>(content: map<K, V>, at: map<K, nat>, i: nat, moved: map<K, V>)
    requires at.Keys == content.Keys
  {
    && (forall k :: k in moved ==> k in at && at[k] < i && moved[k] == content[k])
    && (forall k :: k in at && at[k] < i ==> k in moved)
  }

  lemma MovedOne<K, V>(slots: seq<Slot<K, V>>, content: map<K, V>, at: map<K, nat>, i: nat, next: nat, moved: map<K, V>)
    requires Indexed(slots, content, at) && Moved(content, at, i, moved) && i < |slots| && slots[i].Exist?
    requires next == i + 1
    ensures slots[i].key !in moved && Moved(content, at, next, moved[slots[i].key := slots[i].value])
  {}

  lemma LivePrefix<K, V>(slots: seq<Slot<K, V>>, i: nat, next: nat)
    requires i < |slots| && next == i + 1
    ensures Live(slots[..next]) == Live(slots[..i]) + Bit(slots[i].Exist?)
  {
    assert slots[..next][..i] == slots[..i];
  }

  lemma AllMoved<K, V>(slots: seq<Slot<K, V>>, content: map<K, V>, at: map<K, nat>, moved: map<K, V>)
    requires Indexed(slots, content, at) && Moved(content, at, |slots|, moved)
    ensures moved == content
  {}

  /** Insert-only runs: every lookup ends, and the table holds the first entry given for each key. */
  method InsertAll<K(==,!new), V(!new)>(hash: K -> nat, entries: seq<(K, V)>) returns (t: ProbingTable<K, V>)
    ensures fresh(t) && t.Valid() && t.content == FirstOfEach(entries)
    ensures HasEmpty(t.slots) && t.count * 10 <= 8 * |t.slots|
  {
    t := new ProbingTable(hash);
    LoadLeavesEmpty(t.slots);
    for i := 0 to |entries|
      invariant fresh(t) && t.Valid() && NoTombstones(t.slots) && HasEmpty(t.slots)
      invariant t.content == FirstOfEach(entries[..i])
    {
      assert entries[..i + 1][..i] == entries[..i];
      var _ := t.Insert(entries[i].0, entries[i].1);
      LoadLeavesEmpty(t.slots);
    }
    assert entries[..|entries|] == entries;
  }

  ghost function FirstOfEach<K, V>(entries: seq<(K, V)>): map<K, V> {
    if entries == [] then map[] else
      var m, e := FirstOfEach(entries[..|entries| - 1]), entries[|entries| - 1];
      if e.0 in m then m else m[e.0 := e.1]
  }

  /**
   Inserting and erasing ten keys in turn fills a table of ten slots with tombstones:
   it is empty as a map, yet no lookup ever ends.
   */
  method OnlyTombstones() returns (t: ProbingTable<nat, nat>)
    ensures fresh(t) && t.Valid() && t.content == map[]
    ensures forall k: nat, steps: nat :: !StopsAt(t.slots, t.hash, k, steps)
  {
    var hash := (k: nat) => k;
    t := new ProbingTable<nat, nat>(hash);
    for i := 0 to 10
      invariant fresh(t) && t.Valid() && t.content == map[] && t.count == 0 && t.tens == 1 && t.hash == hash
      invariant forall j :: 0 <= j < 10 ==> t.slots[j] == if j < i then Deleted else Empty
    {
      assert t.slots[i].Empty?;
      assert Home(t.hash, i, 10) == i;
      var _ := t.Insert(i, 0);
      var _ := t.Erase(i);
    }
  }
}
