/**
 `lesson7/RingQueue.hpp` as a step machine: a ring of slots, two semaphores and no
 mutex, used by one producer and one consumer as in `lesson7/main.cc`. A step is
 one statement of `Push` or `Pop`; a thread at `Touch` is the one accessing
 `_queue[...]`.
 */
module RingQueue {
  import opened Common

  /** The statements of `Push` and `Pop`: `P(sem)`; `_queue[step++]`; `step %= _cap`; `V(sem)`. */
  datatype Phase = Wait | Touch | Wrap | Post

  datatype Ring = Ring(
    slots: seq<int>,
    space: nat,           // _space_sem
    data: nat,            // _data_sem
    productorStep: nat,
    consumerStep: nat,
    producer: Phase,
    consumer: Phase,
    produced: seq<int>,   // everything written so far
    consumed: seq<int>)   // everything read so far

  ghost predicate Init(r: Ring) {
    && |r.slots| >= 1 && r.space == |r.slots| && r.data == 0
    && r.productorStep == 0 && r.consumerStep == 0
    && r.producer == Wait && r.consumer == Wait
    && r.produced == [] && r.consumed == []
  }

  ghost predicate ProducerStep(r: Ring, r': Ring) {
    match r.producer
    case Wait => r.space > 0 && r' == r.(space := r.space - 1, producer := Touch)
    case Touch =>
      && r.productorStep < |r.slots|
      && exists v :: r' == r.(slots := r.slots[r.productorStep := v], productorStep := r.productorStep + 1,
                              produced := r.produced + [v], producer := Wrap)
    case Wrap => |r.slots| > 0 && r' == r.(productorStep := r.productorStep % |r.slots|, producer := Post)
    case Post => r' == r.(data := r.data + 1, producer := Wait)
  }

  ghost predicate ConsumerStep(r: Ring, r': Ring) {
    match r.consumer
    case Wait => r.data > 0 && r' == r.(data := r.data - 1, consumer := Touch)
    case Touch =>
      && r.consumerStep < |r.slots|
      && r' == r.(consumed := r.consumed + [r.slots[r.consumerStep]], consumerStep := r.consumerStep + 1, consumer := Wrap)
    case Wrap => |r.slots| > 0 && r' == r.(consumerStep := r.consumerStep % |r.slots|, consumer := Post)
    case Post => r' == r.(space := r.space + 1, consumer := Wait)
  }

  // ---------- The invariant ----------

  /** An operation between its two semaphore calls. */
  predicate InFlight(p: Phase) {
    p != Wait
  }

  /** Where a step counter stands after `done` accesses. */
  ghost predicate StepAt(step: nat, p: Phase, done: nat, cap: nat)
    requires cap > 0
  {
    if p == Wrap then done >= 1 && step == SlotOf(done - 1, cap) + 1 else step == SlotOf(done, cap)
  }

  ghost predicate Inv(r: Ring) {
    var cap, n, m := |r.slots|, |r.produced|, |r.consumed|;
    && cap >= 1
    // every acquisition and release of the two semaphores
    && r.space + n + Bit(r.producer == Touch) == cap + m - Bit(r.consumer == Wrap || r.consumer == Post)
    && r.data + m + Bit(r.consumer == Touch) == n - Bit(r.producer == Wrap || r.producer == Post)
    && StepAt(r.productorStep, r.producer, n, cap) && StepAt(r.consumerStep, r.consumer, m, cap)
    // the unread values are in the ring, and what was read is what was written
    && m <= n && r.consumed == r.produced[..m]
    && forall i :: m <= i < n ==> r.slots[SlotOf(i, cap)] == r.produced[i]
  }

  /** A write goes to a slot that holds no unread value. */
  lemma WriteKeepsUnread(slots: seq<int>, produced: seq<int>, m: nat, v: int)
    requires |slots| >= 1 && m <= |produced| < m + |slots|
    requires forall i :: m <= i < |produced| ==> slots[SlotOf(i, |slots|)] == produced[i]
    ensures var n, cap := |produced|, |slots|;
      forall i :: m <= i < n + 1 ==> slots[SlotOf(n, cap) := v][SlotOf(i, cap)] == (produced + [v])[i]
  {
    var n, cap := |produced|, |slots|;
    forall i | m <= i < n + 1 ensures slots[SlotOf(n, cap) := v][SlotOf(i, cap)] == (produced + [v])[i] {
      if i < n { SlotApart(i, n, cap); }
    }
  }

  lemma ProducerInv(r: Ring, r': Ring)
    requires Inv(r) && ProducerStep(r, r')
    ensures Inv(r')
  {
    if r.producer == Touch {
      ProducerWrites(r, r');
    } else if r.producer == Wrap {
      SlotNext(|r.produced| - 1, |r.slots|);
    }
  }

  lemma ProducerWrites(r: Ring, r': Ring)
    requires Inv(r) && r.producer == Touch && ProducerStep(r, r')
    ensures Inv(r')
  {
    var n := |r.produced|;
    WriteKeepsUnread(r.slots, r.produced, |r.consumed|, r'.produced[n]);
    assert r'.produced == r.produced + [r'.produced[n]];
  }

  lemma ConsumerInv(r: Ring, r': Ring)
    requires Inv(r) && ConsumerStep(r, r')
    ensures Inv(r')
  {
    var cap, m := |r.slots|, |r.consumed|;
    if r.consumer == Touch {
      assert r.slots[SlotOf(m, cap)] == r.produced[m];
    } else if r.consumer == Wrap {
      SlotNext(m - 1, cap);
    }
  }

  // ---------- Whole runs ----------

  datatype Run = Start(now: Ring) | Then(before: Run, now: Ring)

  ghost predicate IsRun(u: Run) {
    match u
    case Start(r) => Init(r)
    case Then(b, r) => IsRun(b) && (ProducerStep(b.now, r) || ConsumerStep(b.now, r))
  }

  lemma {:induction false} RunInv(u: Run)
    requires IsRun(u)
    ensures Inv(u.now)
  {
    match u
    case Start(r) =>
    case Then(b, r) =>
      RunInv(b);
      if ProducerStep(b.now, r) { ProducerInv(b.now, r); } else { ConsumerInv(b.now, r); }
  }

  /** The two semaphores and the operations in flight always sum to the capacity. */
  lemma SemaphoresConserved(u: Run)
    requires IsRun(u)
    ensures u.now.space + u.now.data + Bit(InFlight(u.now.producer)) + Bit(InFlight(u.now.consumer)) == |u.now.slots|
  {
    RunInv(u);
  }

  /** The two threads never access the same slot at once, and never a slot outside the ring. */
  lemma SlotsApart(u: Run)
    requires IsRun(u)
    ensures u.now.producer == Touch ==> u.now.productorStep < |u.now.slots|
    ensures u.now.consumer == Touch ==> u.now.consumerStep < |u.now.slots|
    ensures u.now.producer == Touch && u.now.consumer == Touch ==> u.now.productorStep != u.now.consumerStep
  {
    RunInv(u);
    if u.now.producer == Touch && u.now.consumer == Touch {
      SlotApart(|u.now.consumed|, |u.now.produced|, |u.now.slots|);
    }
  }

  /** What has been read is a prefix of what has been written, and at most a ring behind. */
  lemma ConsumedPrefix(u: Run)
    requires IsRun(u)
    ensures u.now.consumed <= u.now.produced
    ensures |u.now.produced| <= |u.now.consumed| + |u.now.slots|
  {
    RunInv(u);
  }

  /** One of the two threads can always take its next step. */
  lemma DeadlockFree(u: Run)
    requires IsRun(u)
    ensures exists r :: ProducerStep(u.now, r) || ConsumerStep(u.now, r)
  {
    var r := u.now;
    RunInv(u);
    SlotsApart(u);
    match r.producer
    case Touch =>
      var r' := r.(slots := r.slots[r.productorStep := 0], productorStep := r.productorStep + 1,
                   produced := r.produced + [0], producer := Wrap);
      assert ProducerStep(r, r');
    case Wrap => assert ProducerStep(r, r.(productorStep := r.productorStep % |r.slots|, producer := Post));
    case Post => assert ProducerStep(r, r.(data := r.data + 1, producer := Wait));
    case Wait =>
      if r.space > 0 {
        assert ProducerStep(r, r.(space := r.space - 1, producer := Touch));
      } else {
        SemaphoresConserved(u);
        match r.consumer
        case Wait => assert ConsumerStep(r, r.(data := r.data - 1, consumer := Touch));
        case Touch =>
          assert ConsumerStep(r, r.(consumed := r.consumed + [r.slots[r.consumerStep]],
                                    consumerStep := r.consumerStep + 1, consumer := Wrap));
        case Wrap => assert ConsumerStep(r, r.(consumerStep := r.consumerStep % |r.slots|, consumer := Post));
        case Post => assert ConsumerStep(r, r.(space := r.space + 1, consumer := Wait));
      }
  }
}
