/**
 Definitions that several models share.
 */
module Common {

  datatype Option<T> = None | Some(value: T)

  function Pow2(n: nat): (p: nat)
    ensures p >= 1
  {
    if n == 0 then 1 else 2 * Pow2(n - 1)
  }

  /** The place of a key in a hash table: its hash modulo the number of places. */
  function Home<K>(hash: K -> nat, k: K, n: nat): (h: nat)
    requires n > 0
    ensures h < n
  {
    hash(k) % n
  }

  /** Threads. */
  type Tid = nat

  /** Parked in `pthread_cond_wait`; sure to look at the queue again before parking; about to signal. */
  datatype Group = Asleep | Claiming | Owing

  /** 1 for true, 0 for false. */
  function Bit(b: bool): nat {
    if b then 1 else 0
  }

  /** Two sets that agree but for `t` differ in size by their memberships of `t`. */
  lemma OneElement<T>(a: set<T>, b: set<T>, t: T)
    requires a - {t} == b - {t}
    ensures |b| == |a| + Bit(t in b) - Bit(t in a)
    ensures b <= a + {t}
  {
    assert a == a - {t} + if t in a then {t} else {};
    assert b == b - {t} + if t in b then {t} else {};
  }

  /** The place of the `i`th step, going round a ring of `cap` places: `i % cap`. */
  ghost function SlotOf(i: nat, cap: nat): (m: nat)
    requires cap > 0
    ensures m < cap
  {
    if i < cap then i else SlotOf(i - cap, cap)
  }

  lemma {:induction false} SlotApart(a: nat, b: nat, cap: nat)
    requires a < b < a + cap
    ensures SlotOf(a, cap) != SlotOf(b, cap)
  {
    if a >= cap { SlotApart(a - cap, b - cap, cap); }
  }

  lemma {:induction false} SlotNext(a: nat, cap: nat)
    requires cap > 0
    ensures (SlotOf(a, cap) + 1) % cap == SlotOf(a + 1, cap)
  {
    if a >= cap { SlotNext(a - cap, cap); }
  }
}
