/**
 The timer wheel of `Reactor_http/source/server.hpp`. A task is owned by the
 `shared_ptr`s in the wheel's sixty slots; refreshing it adds one more owner, and its
 callback runs from the destructor when the last owner is cleared away. The wheel is
 proved to refine a plain table of deadlines, the table to fire every task exactly once,
 at the right tick, and both together to do so over every run of calls by id.
 */
module TimerWheel {
  import opened Common

  const CAPACITY: nat := 60
  const UINT_MAX: nat := 0xffff_ffff
  const INT_MAX: nat := 0x7fff_ffff

  // ---------- Positions ----------

  /** `(_tick + timeout) % _capacity` of `TimerAddInLoop`: 32-bit unsigned arithmetic. */
  function AddPosition(tick: nat, timeout: nat): (p: nat)
    ensures p < CAPACITY
  {
    (tick + timeout) % (UINT_MAX + 1) % CAPACITY
  }

  /** The timeout as the `int` that `TimerRefreshInLoop` makes of it. */
  function AsInt(timeout: nat): int {
    if timeout <= INT_MAX then timeout else timeout - (UINT_MAX + 1)
  }

  /** `(_tick + delay) % _capacity` of `TimerRefreshInLoop`: signed arithmetic, truncating toward zero. */
  function RefreshPosition(tick: nat, timeout: nat): (p: int)
    ensures -60 < p < 60
  {
    var sum := tick + AsInt(timeout);
    if sum >= 0 then sum % CAPACITY else -(-sum % CAPACITY)
  }

  /** The position is computed without overflow and is one of the wheel's. */
  predicate Refreshable(tick: nat, timeout: nat) {
    tick + AsInt(timeout) <= INT_MAX && RefreshPosition(tick, timeout) >= 0
  }

  /** Ticks until the slot at a position is cleared next. */
  type Wait = w: int | 1 <= w <= 60 witness 1

  function WaitFor(tick: nat, p: nat): (w: Wait)
    requires tick < CAPACITY && p < CAPACITY
    ensures tick + w == p || tick + w == p + CAPACITY
  {
    if p > tick then p - tick else p + CAPACITY - tick
  }

  /** The wait for a timeout whose sum with the tick does not overflow. */
  function Delay(timeout: nat): (w: Wait) {
    if timeout % CAPACITY == 0 then CAPACITY else timeout % CAPACITY
  }

  /** Timeouts for which neither computation overflows at any tick. */
  predicate Steady(timeout: nat) {
    timeout <= INT_MAX - 59
  }

  lemma PositionAfter(tick: nat, timeout: nat)
    requires tick < CAPACITY
    ensures (tick + timeout) % 60 == if tick + timeout % 60 < 60 then tick + timeout % 60 else tick + timeout % 60 - 60
    ensures WaitFor(tick, (tick + timeout) % 60) == Delay(timeout)
  {}

  /** Adding and refreshing a steady timer wait equally long at every tick, and refreshing is always possible. */
  lemma SteadyWaits(tick: nat, timeout: nat)
    requires tick < CAPACITY && Steady(timeout)
    ensures AddPosition(tick, timeout) == (tick + timeout) % 60
    ensures WaitFor(tick, (tick + timeout) % 60) == Delay(timeout)
    ensures Refreshable(tick, timeout) && RefreshPosition(tick, timeout) == (tick + timeout) % 60
  {
    PositionAfter(tick, timeout);
  }

  /** No other timeout can be refreshed at every tick: one of the ticks 59, 0 and 1 is in the way. */
  lemma SteadyExactly(timeout: nat)
    requires timeout <= UINT_MAX
    ensures Steady(timeout) <==> forall tick: nat :: tick < CAPACITY ==> Refreshable(tick, timeout)
  {
    if Steady(timeout) {
      forall tick: nat | tick < CAPACITY ensures Refreshable(tick, timeout) { SteadyWaits(tick, timeout); }
    } else {
      var tick: nat := if timeout <= INT_MAX then 59 else if AsInt(timeout) % 60 != 0 then 0 else 1;
      assert !Refreshable(tick, timeout);
    }
  }

  /** How long an added timer waits is independent of the tick exactly as long as the sum cannot overflow. */
  lemma AddedWait(timeout: nat)
    requires timeout <= UINT_MAX
    ensures timeout <= UINT_MAX - 59
      <==> forall tick: nat :: tick < CAPACITY ==> WaitFor(tick, AddPosition(tick, timeout)) == Delay(timeout)
  {
    if timeout <= UINT_MAX - 59 {
      forall tick: nat | tick < CAPACITY ensures WaitFor(tick, AddPosition(tick, timeout)) == Delay(timeout) {
        NoOverflow(tick, timeout);
      }
    } else {
      OverflowShifts(timeout);
    }
  }

  lemma NoOverflow(tick: nat, timeout: nat)
    requires tick < CAPACITY && timeout <= UINT_MAX - 59
    ensures WaitFor(tick, AddPosition(tick, timeout)) == Delay(timeout)
  {
    assert (tick + timeout) % (UINT_MAX + 1) == tick + timeout;
    PositionAfter(tick, timeout);
  }

  /** At the last tick an overflowing sum misses the position by 16 places: 60 does not divide 2^32. */
  lemma OverflowShifts(timeout: nat)
    requires UINT_MAX - 59 < timeout <= UINT_MAX
    ensures WaitFor(59, AddPosition(59, timeout)) != Delay(timeout)
  {}

  /** Where a refresh is possible, it goes to the position of an add exactly when its signed sum is not negative. */
  lemma SamePosition(tick: nat, timeout: nat)
    requires tick < CAPACITY && timeout <= UINT_MAX && Refreshable(tick, timeout)
    ensures AddPosition(tick, timeout) == RefreshPosition(tick, timeout) <==> tick + AsInt(timeout) >= 0
  {
    var sum := tick + AsInt(timeout);
    if sum < 0 {
      assert AddPosition(tick, timeout) == (sum + UINT_MAX + 1) % 60;
    }
  }

  /** Timeouts whose waits depend on the tick, and a refresh that goes to another position than an add. */
  lemma UnsteadyWaits()
    ensures Refreshable(5, UINT_MAX - 4) && !Refreshable(4, UINT_MAX - 4)
    ensures WaitFor(0, AddPosition(0, UINT_MAX - 4)) != WaitFor(5, AddPosition(5, UINT_MAX - 4))
    ensures Refreshable(0, UINT_MAX - 59)
      && AddPosition(0, UINT_MAX - 59) == 16 && RefreshPosition(0, UINT_MAX - 59) == 0
  {}

  /** At every tick, an added timer waits for its timeout exactly when the wheel can hold that; so does a refreshed
      one. */
  lemma DelayIsTimeout(tick: nat, timeout: nat)
    requires tick < CAPACITY && timeout <= UINT_MAX
    ensures WaitFor(tick, AddPosition(tick, timeout)) == timeout <==> 1 <= timeout <= CAPACITY
    ensures Refreshable(tick, timeout) ==>
      (WaitFor(tick, RefreshPosition(tick, timeout)) == timeout <==> 1 <= timeout <= CAPACITY)
  {
    if timeout <= CAPACITY { SteadyWaits(tick, timeout); }
  }

  // ---------- The table of deadlines ----------

  datatype Timer = Timer(deadline: nat, cancelled: bool)

  datatype Timers<!T(==)> = Timers(now: nat, pending: map<T, Timer>, fired: set<(T, nat)>)

  datatype Op<T> = Add(t: T, wait: Wait) | Refresh(t: T, wait: Wait) | Cancel(t: T) | Tick

  ghost predicate Due<T>(s: Timers<T>, t: T) {
    t in s.pending && s.pending[t].deadline == s.now + 1
  }

  function Later(a: nat, b: nat): nat {
    if a > b then a else b
  }

  /** What an operation does. A refreshed task still has its old owners, so its deadline only ever moves back. */
  ghost function Apply<T>(s: Timers<T>, op: Op<T>): Timers<T> {
    match op
    case Add(t, wait) => s.(pending := s.pending[t := Timer(s.now + wait, false)])
    case Refresh(t, wait) =>
      if t !in s.pending then s
      else s.(pending := s.pending[t := s.pending[t].(deadline := Later(s.pending[t].deadline, s.now + wait))])
    case Cancel(t) =>
      if t !in s.pending then s else s.(pending := s.pending[t := s.pending[t].(cancelled := true)])
    case Tick =>
      Timers(s.now + 1,
             map t | t in s.pending && !Due(s, t) :: s.pending[t],
             s.fired + set t | t in s.pending && Due(s, t) && !s.pending[t].cancelled :: (t, s.now + 1))
  }

  ghost function ApplyAll<T>(s: Timers<T>, ops: seq<Op<T>>): Timers<T>
    decreases ops
  {
    if ops == [] then s else ApplyAll(Apply(s, ops[0]), ops[1..])
  }

  ghost predicate WellTimed<T>(s: Timers<T>) {
    forall t :: t in s.pending ==> s.now < s.pending[t].deadline
  }

  ghost predicate Mentions<T>(op: Op<T>, t: T) {
    !op.Tick? && op.t == t
  }

  /** The ticks at which a task has fired. */
  ghost function Firings<T>(s: Timers<T>, t: T): iset<nat> {
    iset k | (t, k) in s.fired
  }

  lemma TickUntouched<T>(s: Timers<T>, op: Op<T>, t: T)
    requires WellTimed(s) && !Mentions(op, t)
    ensures var s' := Apply(s, op);
      && WellTimed(s') && s'.now == s.now + (if op.Tick? then 1 else 0)
      && (t in s'.pending <==> t in s.pending && !(op.Tick? && Due(s, t)))
      && (t in s'.pending ==> s'.pending[t] == s.pending[t])
      && Firings(s', t) == Firings(s, t) +
           if op.Tick? && Due(s, t) && !s.pending[t].cancelled then iset{s.now + 1} else iset{}
  {
    var s' := Apply(s, op);
    assert forall k :: (t, k) in s'.fired <==>
      (t, k) in s.fired || (op.Tick? && Due(s, t) && !s.pending[t].cancelled && k == s.now + 1);
  }

  /** A task that is not pending and not mentioned stays away and never fires. */
  lemma {:induction false} GoneStaysGone<T>(s: Timers<T>, ops: seq<Op<T>>, t: T)
    requires WellTimed(s) && t !in s.pending && forall i :: 0 <= i < |ops| ==> !Mentions(ops[i], t)
    ensures var s' := ApplyAll(s, ops); t !in s'.pending && Firings(s', t) == Firings(s, t)
    decreases ops
  {
    if ops != [] {
      TickUntouched(s, ops[0], t);
      GoneStaysGone(Apply(s, ops[0]), ops[1..], t);
    }
  }

  /**
   From its last add or refresh on, whatever else happens: before its deadline a task
   is pending and has not fired again; from its deadline on it is gone, and it has
   fired exactly once more, at the deadline, unless it was cancelled.
   */
  lemma {:induction false} FiresExactlyAtDeadline<T>(s: Timers<T>, ops: seq<Op<T>>, t: T)
    requires WellTimed(s) && t in s.pending && forall i :: 0 <= i < |ops| ==> !Mentions(ops[i], t)
    ensures var s', timer := ApplyAll(s, ops), s.pending[t];
      if s'.now < timer.deadline then
        t in s'.pending && s'.pending[t] == timer && Firings(s', t) == Firings(s, t)
      else
        t !in s'.pending && Firings(s', t) == Firings(s, t) + if timer.cancelled then iset{} else iset{timer.deadline}
    decreases ops
  {
    if ops != [] {
      TickUntouched(s, ops[0], t);
      var s1 := Apply(s, ops[0]);
      if t in s1.pending {
        FiresExactlyAtDeadline(s1, ops[1..], t);
      } else {
        GoneStaysGone(s1, ops[1..], t);
        NowGrows(s1, ops[1..]);
      }
    }
  }

  lemma {:induction false} NowGrows<T>(s: Timers<T>, ops: seq<Op<T>>)
    ensures ApplyAll(s, ops).now >= s.now
    decreases ops
  {
    if ops != [] { NowGrows(Apply(s, ops[0]), ops[1..]); }
  }

  /** Once cancelled, a task never fires again, even if it is refreshed, until it is added anew. */
  lemma {:induction false} CancelledNeverFires<T>(s: Timers<T>, ops: seq<Op<T>>, t: T)
    requires WellTimed(s) && (t in s.pending ==> s.pending[t].cancelled)
    requires forall i :: 0 <= i < |ops| ==> !(ops[i].Add? && ops[i].t == t)
    ensures Firings(ApplyAll(s, ops), t) == Firings(s, t)
    decreases ops
  {
    if ops != [] {
      var s1 := Apply(s, ops[0]);
      if !Mentions(ops[0], t) {
        TickUntouched(s, ops[0], t);
      }
      CancelledNeverFires(s1, ops[1..], t);
    }
  }

  /** An add or a refresh, then anything that leaves the task alone: it fires after exactly its wait. */
  lemma TouchedTaskFires<T>(s: Timers<T>, touch: Op<T>, ops: seq<Op<T>>, t: T, wait: Wait)
    requires WellTimed(s) && forall i :: 0 <= i < |ops| ==> !Mentions(ops[i], t)
    requires touch == Add(t, wait)
          || (touch == Refresh(t, wait) && t in s.pending && !s.pending[t].cancelled && s.pending[t].deadline <= s.now + wait)
    ensures var s' := ApplyAll(Apply(s, touch), ops);
      && (t in s'.pending <==> s'.now < s.now + wait)
      && Firings(s', t) == Firings(s, t) + if s'.now < s.now + wait then iset{} else iset{s.now + wait}
  {
    FiresExactlyAtDeadline(Apply(s, touch), ops, t);
  }

  lemma {:induction false} ApplyOneMore<T>(s: Timers<T>, ops: seq<Op<T>>, op: Op<T>)
    ensures ApplyAll(s, ops + [op]) == Apply(ApplyAll(s, ops), op)
    decreases ops
  {
    if ops == [] {
      assert ops + [op] == [op];
    } else {
      assert (ops + [op])[1..] == ops[1..] + [op];
      ApplyOneMore(Apply(s, ops[0]), ops[1..], op);
    }
  }

  // ---------- The wheel ----------

  /** `TimerTask`. */
  class TimerTask {
    const id: nat
    const timeout: nat
    var cancelled: bool

    constructor (id: nat, timeout: nat)
      ensures this.id == id && this.timeout == timeout && !cancelled
    {
      this.id, this.timeout, cancelled := id, timeout, false;
    }
  }

  lemma {:induction false} SlotAfter(now: nat, w: nat)
    requires w <= 60
    ensures var a := SlotOf(now, 60) + w; SlotOf(now + w, 60) == if a < 60 then a else if a < 120 then a - 60 else 0
  {
    if now >= 60 {
      SlotAfter(now - 60, w);
    } else {
      assert now + w < 120;
    }
  }

  /** After the wait for a position, the tick clears that position. */
  lemma WaitReaches(now: nat, p: nat, d: nat)
    requires p < 60 && d == now + WaitFor(SlotOf(now, 60), p)
    ensures SlotOf(d, 60) == p
  {
    SlotAfter(now, WaitFor(SlotOf(now, 60), p));
  }

  /** Slot `p` is cleared by tick `d`, counting from `now`. */
  ghost predicate ClearedBy(now: nat, d: nat, p: nat) {
    exists k :: now < k <= d && SlotOf(k, 60) == p
  }

  type Wheel = seq<seq<TimerTask>>

  /** Slot `p` holds an owner of `t`. */
  ghost predicate Holds(wheel: Wheel, p: nat, older t: TimerTask) {
    p < |wheel| && t in wheel[p]
  }

  /** How long a task waits at most after it is added or refreshed. */
  function Longest(timeout: nat): (w: Wait) {
    if Steady(timeout) then Delay(timeout) else 60
  }

  /** The owners of a live task are cleared by its deadline, the last one exactly then. */
  ghost predicate Slots(now: nat, wheel: Wheel, pending: map<TimerTask, Timer>) {
    && |wheel| == 60
    && (forall p: nat, t {:trigger Holds(wheel, p, t)} :: Holds(wheel, p, t) ==>
          t in pending && ClearedBy(now, pending[t].deadline, p))
    && (forall t {:trigger pending[t]} :: t in pending ==>
          now < pending[t].deadline <= now + Longest(t.timeout) && Holds(wheel, SlotOf(pending[t].deadline, 60), t))
  }

  /** A weak pointer never dangles. */
  ghost predicate Pointers(timers: map<nat, TimerTask>, pending: map<TimerTask, Timer>) {
    forall i :: i in timers ==> timers[i] in pending && timers[i].id == i
  }

  /** Every live task is the one its id leads to. */
  ghost predicate Reachable(timers: map<nat, TimerTask>, pending: map<TimerTask, Timer>) {
    forall t :: t in pending ==> t.id in timers && timers[t.id] == t
  }

  /** Callbacks have run for tasks that are gone. */
  ghost predicate Past(fired: set<(TimerTask, nat)>, pending: map<TimerTask, Timer>) {
    forall e :: e in fired ==> e.0 !in pending
  }

  /** Adding under an id keeps every live task reachable exactly when the id was free. */
  lemma FreshIdReachable(timers: map<nat, TimerTask>, pending: map<TimerTask, Timer>, task: TimerTask, r: Timer)
    requires Reachable(timers, pending) && Pointers(timers, pending) && task !in pending
    ensures Reachable(timers[task.id := task], pending[task := r]) <==> task.id !in timers
  {
    if task.id in timers {
      var other := timers[task.id];
      assert other in pending[task := r] && timers[task.id := task][other.id] == task;
    }
  }

  /** The same, if every live task was reachable. */
  lemma UsedIdCost(timers: map<nat, TimerTask>, pending: map<TimerTask, Timer>, task: TimerTask, r: Timer)
    requires Pointers(timers, pending) && task !in pending
    ensures Reachable(timers, pending) ==> (Reachable(timers[task.id := task], pending[task := r]) <==> task.id !in timers)
  {
    if Reachable(timers, pending) { FreshIdReachable(timers, pending, task, r); }
  }

  /** The deadline of a task with one more owner: the later one of its old deadline and the new owner's. */
  ghost function Extended(pending: map<TimerTask, Timer>, t: TimerTask, d: nat): (e: nat)
    ensures d <= e && (t in pending ==> pending[t].deadline <= e)
  {
    if t in pending then Later(pending[t].deadline, d) else d
  }

  /** One more owner in the slot that tick `d` clears, for a new task or one that is refreshed. */
  lemma OwnerAdded(now: nat, wheel: Wheel, pending: map<TimerTask, Timer>, t: TimerTask, p: nat, d: nat, r: Timer)
    requires Slots(now, wheel, pending) && now < d <= now + Longest(t.timeout) && p == SlotOf(d, 60)
    requires r.deadline == Extended(pending, t, d)
    ensures Slots(now, wheel[p := wheel[p] + [t]], pending[t := r])
  {
    var wheel', pending' := wheel[p := wheel[p] + [t]], pending[t := r];
    forall q: nat, u: TimerTask | Holds(wheel', q, u) ensures u in pending' && ClearedBy(now, pending'[u].deadline, q) {
      OwnerCleared(now, wheel, pending, t, p, d, r, q, u);
    }
    forall u: TimerTask | u in pending' ensures Holds(wheel', SlotOf(pending'[u].deadline, 60), u) {
      if u in pending { assert Holds(wheel, SlotOf(pending[u].deadline, 60), u); }
    }
  }

  /** Every owner is cleared by its task's deadline. */
  lemma OwnerCleared(now: nat, wheel: Wheel, pending: map<TimerTask, Timer>, t: TimerTask, p: nat, d: nat, r: Timer,
                     q: nat, u: TimerTask)
    requires Slots(now, wheel, pending) && now < d && p == SlotOf(d, 60) && r.deadline == Extended(pending, t, d)
    requires Holds(wheel[p := wheel[p] + [t]], q, u)
    ensures u in pending[t := r] && ClearedBy(now, pending[t := r][u].deadline, q)
  {
    if u == t && q == p {
      assert ClearedBy(now, d, q);
      ClearedLater(now, d, r.deadline, q);
    } else {
      OldOwner(wheel, t, p, q, u);
      ClearedLater(now, pending[u].deadline, if u == t then r.deadline else pending[u].deadline, q);
    }
  }

  lemma OldOwner(wheel: Wheel, t: TimerTask, p: nat, q: nat, u: TimerTask)
    requires p < |wheel| && Holds(wheel[p := wheel[p] + [t]], q, u) && !(u == t && q == p)
    ensures Holds(wheel, q, u)
  {}

  lemma ClearedLater(now: nat, d: nat, d': nat, p: nat)
    requires ClearedBy(now, d, p) && d <= d'
    ensures ClearedBy(now, d', p)
  {
    var k :| now < k <= d && SlotOf(k, 60) == p;
  }

  predicate Owned(wheel: Wheel, t: TimerTask) {
    exists q :: 0 <= q < |wheel| && t in wheel[q]
  }

  /** In the slot of the next tick, a due task has all its owners, any other task has one elsewhere. */
  lemma OwnersLeft(table: Timers<TimerTask>, wheel: Wheel, p: nat, rest: seq<TimerTask>, t: TimerTask)
    requires Slots(table.now, wheel, table.pending) && p == SlotOf(table.now + 1, 60) && Holds(wheel, p, t)
    requires rest != [] && rest[0] == t
    ensures t in table.pending
    ensures Owned(wheel[p := rest[1..]], t) <==> !Due(table, t) || t in rest[1..]
  {
    var d, wheel' := table.pending[t].deadline, wheel[p := rest[1..]];
    if Due(table, t) {
      forall q | 0 <= q < 60 && t in wheel'[q] ensures t in rest[1..] {
        if q != p {
          assert Holds(wheel, q, t);
          var k :| table.now < k <= d && SlotOf(k, 60) == q;
        }
      }
      if t in rest[1..] { assert t in wheel'[p]; }
    } else {
      SlotApart(table.now + 1, d, 60);
      assert Holds(wheel, SlotOf(d, 60), t);
      assert t in wheel'[SlotOf(d, 60)];
    }
  }

  lemma SlotCleared(table: Timers<TimerTask>, wheel: Wheel, wheel': Wheel, p: nat)
    requires Slots(table.now, wheel, table.pending) && p == SlotOf(table.now + 1, 60) && wheel' == wheel[p := []]
    ensures Slots(table.now + 1, wheel', Apply(table, Tick).pending)
  {
    var pending' := Apply(table, Tick).pending;
    forall q: nat, t: TimerTask | Holds(wheel', q, t)
      ensures t in pending' && ClearedBy(table.now + 1, pending'[t].deadline, q)
    {
      assert Holds(wheel, q, t);
      var k :| table.now < k <= table.pending[t].deadline && SlotOf(k, 60) == q;
      assert k != table.now + 1;
    }
    forall t | t in pending'
      ensures table.now + 1 < pending'[t].deadline <= table.now + 1 + Longest(t.timeout)
      ensures Holds(wheel', SlotOf(pending'[t].deadline, 60), t)
    {
      SlotApart(table.now + 1, table.pending[t].deadline, 60);
      assert Holds(wheel, SlotOf(table.pending[t].deadline, 60), t);
    }
  }

  lemma TouchIs(s: Timers<TimerTask>, op: Op<TimerTask>, r: Timer)
    requires (op.Add? && op.t !in s.pending && !r.cancelled)
          || (op.Refresh? && op.t in s.pending && r.cancelled == s.pending[op.t].cancelled)
    requires r.deadline == Extended(s.pending, op.t, s.now + op.wait)
    ensures Apply(s, op) == s.(pending := s.pending[op.t := r])
  {}

  /** The wait of a new or refreshed timer, and that it is a wait the task may have. */
  lemma WaitAllowed(tick: nat, timeout: nat)
    requires tick < 60 && timeout <= UINT_MAX
    ensures WaitFor(tick, AddPosition(tick, timeout)) <= Longest(timeout)
    ensures Refreshable(tick, timeout) ==> WaitFor(tick, RefreshPosition(tick, timeout)) <= Longest(timeout)
  {
    if Steady(timeout) { SteadyWaits(tick, timeout); }
  }

  /** Refreshing a steady task makes it due after exactly its delay. */
  lemma SteadyRefresh(s: Timers<TimerTask>, wheel: Wheel, t: TimerTask, tick: nat)
    requires Slots(s.now, wheel, s.pending) && t in s.pending && tick < 60 && Refreshable(tick, t.timeout)
    ensures var s' := Apply(s, Refresh(t, WaitFor(tick, RefreshPosition(tick, t.timeout))));
      t in s'.pending && (Steady(t.timeout) ==> s'.pending[t].deadline == s.now + Delay(t.timeout))
  {
    if Steady(t.timeout) { SteadyWaits(tick, t.timeout); }
  }

  class TimerWheel {
    var tick: nat
    var wheel: Wheel
    var timers: map<nat, TimerTask>        // weak pointers by id
    ghost var ran: set<(TimerTask, nat)>   // the callbacks run, each with its tick
    ghost var table: Timers<TimerTask>     // the deadlines the wheel stands for

    ghost predicate Valid()
      reads this, table.pending.Keys
    {
      && tick == SlotOf(table.now, 60) && Slots(table.now, wheel, table.pending)
      && Pointers(timers, table.pending) && ran == table.fired && Past(ran, table.pending) && Flags()
    }

    ghost predicate Flags()
      reads this, table.pending.Keys
    {
      forall t :: t in table.pending ==> table.pending[t].cancelled == t.cancelled && t.timeout <= UINT_MAX
    }

    constructor ()
      ensures Valid() && table == Timers(0, map[], {}) && timers == map[]
    {
      tick, wheel, timers, ran := 0, seq(60, _ => []), map[], {};
      table := Timers(0, map[], {});
    }

    /** `_wheel[pos].push_back(pt)` for a new task or one that is refreshed. */
    method PushOwner(task: TimerTask, pos: nat, ghost op: Op<TimerTask>)
      requires Valid() && pos < 60 && task.timeout <= UINT_MAX && WaitFor(tick, pos) <= Longest(task.timeout)
      requires (op == Refresh(task, WaitFor(tick, pos)) && task in table.pending)
            || (op == Add(task, WaitFor(tick, pos)) && !task.cancelled && task !in table.pending
                && forall e :: e in ran ==> e.0 != task)
      modifies this`wheel, this`table
      ensures Valid() && table == Apply(old(table), op)
    {
      ghost var d := table.now + WaitFor(tick, pos);
      ghost var r := Timer(Extended(table.pending, task, d), task.cancelled);
      WaitReaches(table.now, pos, d);
      OwnerAdded(table.now, wheel, table.pending, task, pos, d, r);
      wheel := wheel[pos := wheel[pos] + [task]];
      TouchIs(table, op, r);
      table := Apply(table, op);
    }

    /**
     `TimerAddInLoop`, for every 32-bit timeout. The id is meant to be free; the last
     clause says what a used one costs.
     */
    method TimerAdd(id: nat, timeout: nat) returns (task: TimerTask)
      requires Valid() && timeout <= UINT_MAX
      modifies this
      ensures Valid() && fresh(task) && task.id == id && task.timeout == timeout
      ensures tick == old(tick) && table == Apply(old(table), Add(task, WaitFor(tick, AddPosition(tick, timeout))))
      ensures timers == old(timers)[id := task]
      ensures old(Reachable(timers, table.pending)) ==> (Reachable(timers, table.pending) <==> id !in old(timers))
      ensures FreeId(id, old(table).pending) ==>
        Follows(task, Fate(table.now, table.now + WaitFor(tick, AddPosition(tick, timeout)), false, true), table, timers)
    {
      task := new TimerTask(id, timeout);
      WaitAllowed(tick, timeout);
      var pos := AddPosition(tick, timeout);
      ghost var before := table.pending;
      PushOwner(task, pos, Add(task, WaitFor(tick, pos)));
      UsedIdCost(timers, before, task, table.pending[task]);
      NewFollows(task, old(table), timers, WaitFor(tick, pos));
      timers := timers[id := task];
    }

    /**
     `TimerRefreshInLoop`: one more owner. A timeout for which the position overflows or
     is negative is one the source must not be given; a steady timer is then due after
     exactly its delay from now.
     */
    method TimerRefresh(id: nat)
      requires Valid() && (id in timers ==> Refreshable(tick, timers[id].timeout))
      modifies this`wheel, this`table
      ensures Valid()
      ensures table == if id in timers then
          Apply(old(table), Refresh(timers[id], WaitFor(tick, RefreshPosition(tick, timers[id].timeout)))) else old(table)
      ensures id in timers ==> DueAfterDelay(timers[id])
    {
      if id !in timers {
        return;
      }
      assert timers[id] in table.pending;  // the weak pointer locks
      RefreshTask(timers[id]);
    }

    ghost predicate DueAfterDelay(t: TimerTask)
      reads this
    {
      t in table.pending && (Steady(t.timeout) ==> table.pending[t].deadline == table.now + Delay(t.timeout))
    }

    method RefreshTask(task: TimerTask)
      requires Valid() && task in table.pending && Refreshable(tick, task.timeout)
      modifies this`wheel, this`table
      ensures Valid() && table == Apply(old(table), Refresh(task, WaitFor(tick, RefreshPosition(tick, task.timeout))))
      ensures DueAfterDelay(task)
    {
      WaitAllowed(tick, task.timeout);
      var pos := RefreshPosition(tick, task.timeout);
      SteadyRefresh(table, wheel, task, tick);
      PushOwner(task, pos, Refresh(task, WaitFor(tick, pos)));
    }

    /** `TimerCancelInLoop`. */
    method TimerCancel(id: nat)
      requires Valid()
      modifies this`table, if id in timers then {timers[id]} else {}
      ensures Valid()
      ensures table == if id in timers then Apply(old(table), Cancel(timers[id])) else old(table)
      ensures id in timers ==> timers[id].cancelled && timers[id] in table.pending && table.pending[timers[id]].cancelled
    {
      if id !in timers {
        return;
      }
      var task := timers[id];
      task.cancelled := true;
      table := Apply(table, Cancel(task));
    }

    /** `_wheel[_tick].clear()`: the owners in the slot go one by one; a task whose last owner goes is destroyed. */
    method ClearSlot()
      requires Slots(table.now, wheel, table.pending) && Flags() && tick == SlotOf(table.now + 1, 60)
      requires Past(ran, table.pending)
      modifies this`wheel, this`timers, this`ran
      ensures wheel == old(wheel)[tick := []]
      ensures Clearing(table, old(wheel)[tick], [], old(ran), ran, old(timers), timers)
    {
      ghost var before := wheel;
      ClearingStart(table, wheel[tick], ran, timers);
      while wheel[tick] != []
        invariant |wheel| == 60 && wheel == before[tick := wheel[tick]]
        invariant Clearing(table, before[tick], wheel[tick], old(ran), ran, old(timers), timers)
        decreases |wheel[tick]|
      {
        var task := wheel[tick][0];
        ghost var rest := wheel[tick];
        wheel := wheel[tick := wheel[tick][1..]];
        assert wheel == before[tick := rest[1..]];
        OwnerDropped(table, before, tick, rest, old(ran), ran, old(timers), timers);
        if !Owned(wheel, task) {
          Destroy(task);
        }
      }
    }

    /** `~TimerTask`: the callback unless cancelled, then the release function, which is `Remove`. It never ran
        before. */
    method Destroy(task: TimerTask)
      requires forall e :: e in ran ==> e.0 != task
      modifies this`timers, this`ran
      ensures ran == old(ran) + if task.cancelled then {} else {(task, table.now + 1)}
      ensures timers == old(timers) - {task.id}
    {
      if !task.cancelled {
        ran := ran + {(task, table.now + 1)};
      }
      timers := timers - {task.id};
    }

    /** `RunTimerTask`: advances the hand and clears the slot it comes to. */
    method RunTimerTask()
      requires Valid()
      modifies this
      ensures Valid() && table == Apply(old(table), Tick)
      ensures timers == old(timers) - DueIds(old(table))
      ensures old(Reachable(timers, table.pending)) ==> Reachable(timers, table.pending)
    {
      SlotNext(table.now, 60);
      tick := (tick + 1) % 60;
      ClearSlot();
      SlotCleared(table, old(wheel), wheel, tick);
      ClearingDone(table, old(wheel), tick, old(ran), ran, old(timers), timers);
      table := Apply(table, Tick);
    }

    /** The source must not be given this call: it refreshes a timer whose position overflows or is negative. */
    predicate Undefined(c: Command)
      reads this
    {
      c.RefreshTimer? && c.id in timers && !Refreshable(tick, timers[c.id].timeout)
    }

    /** `TimerAdd`, as seen by `t`. */
    method ExecuteAdd(id: nat, timeout: nat, ghost t: TimerTask, ghost f: Fate) returns (ghost ops: seq<Op<TimerTask>>)
      requires Valid() && timeout <= UINT_MAX && Follows(t, f, table, timers)
      modifies this
      ensures Valid() && Follows(t, Fated(f, AddTimer(id, timeout), t.id, t.timeout), table, timers)
      ensures |ops| == 1 && table == Apply(old(table), ops[0])
      ensures forall u :: u in table.pending ==> u in old(table.pending) || fresh(u)
    {
      ghost var before, register := table, timers;
      var task := TimerAdd(id, timeout);
      ops := [Add(task, WaitFor(tick, AddPosition(tick, timeout)))];
      AddFollows(t, f, before, register, task, ops[0].wait);
    }

    /** `TimerRefresh`, as seen by `t`. */
    method ExecuteRefresh(id: nat, ghost t: TimerTask, ghost f: Fate) returns (ghost ops: seq<Op<TimerTask>>)
      requires Valid() && (id in timers ==> Refreshable(tick, timers[id].timeout)) && Follows(t, f, table, timers)
      modifies this`wheel, this`table
      ensures Valid() && Follows(t, Fated(f, RefreshTimer(id), t.id, t.timeout), table, timers)
      ensures |ops| <= 1 && table == (if ops == [] then old(table) else Apply(old(table), ops[0]))
      ensures table.pending.Keys == old(table.pending.Keys)
    {
      ops := [];
      if id in timers {
        ops := [Refresh(timers[id], WaitFor(tick, RefreshPosition(tick, timers[id].timeout)))];
      }
      RefreshFollows(t, f, table, timers, id, tick);
      TimerRefresh(id);
    }

    /** `TimerCancel`, as seen by `t`. */
    method ExecuteCancel(id: nat, ghost t: TimerTask, ghost f: Fate) returns (ghost ops: seq<Op<TimerTask>>)
      requires Valid() && Follows(t, f, table, timers)
      modifies this`table, if id in timers then {timers[id]} else {}
      ensures Valid() && Follows(t, Fated(f, CancelTimer(id), t.id, t.timeout), table, timers)
      ensures |ops| <= 1 && table == (if ops == [] then old(table) else Apply(old(table), ops[0]))
      ensures table.pending.Keys == old(table.pending.Keys)
    {
      ops := [];
      if id in timers {
        ops := [Cancel(timers[id])];
      }
      CancelFollows(t, f, table, timers, id);
      TimerCancel(id);
    }

    /** `RunTimerTask`, as seen by `t`. */
    method ExecuteTick(ghost t: TimerTask, ghost f: Fate)
      requires Valid() && Follows(t, f, table, timers)
      modifies this
      ensures Valid() && Follows(t, Fated(f, OneTick, t.id, t.timeout), table, timers)
      ensures table == Apply(old(table), Tick)
      ensures table.pending.Keys <= old(table.pending.Keys)
    {
      TickFollows(t, f, table, timers);
      RunTimerTask();
    }

    /** One call: at most one operation on the table, and the fate of any one task follows from the call alone. */
    method Execute(c: Command, ghost t: TimerTask, ghost f: Fate) returns (ghost ops: seq<Op<TimerTask>>)
      requires Valid() && !Undefined(c) && (c.AddTimer? ==> c.timeout <= UINT_MAX) && Follows(t, f, table, timers)
      modifies this, table.pending.Keys
      ensures Valid() && Follows(t, Fated(f, c, t.id, t.timeout), table, timers)
      ensures |ops| <= 1 && table == (if ops == [] then old(table) else Apply(old(table), ops[0]))
      ensures forall u :: u in table.pending ==> u in old(table.pending) || fresh(u)
    {
      match c {
        case AddTimer(id, timeout) => ops := ExecuteAdd(id, timeout, t, f);
        case RefreshTimer(id) => ops := ExecuteRefresh(id, t, f);
        case CancelTimer(id) => ops := ExecuteCancel(id, t, f);
        case OneTick =>
          ops := [Tick];
          ExecuteTick(t, f);
      }
    }

    /**
     Any run of calls by id, up to one that the source must not be given: the wheel does
     what operations on the deadline table do, and of any one task the clock, the calls
     about its own id and its timeout alone decide when its callback runs, which is once at
     most, and how long its id leads to it. Runs can be strung together.
     */
    method Play(commands: seq<Command>, ghost t: TimerTask, ghost f: Fate)
      returns (played: nat, ghost ops: seq<Op<TimerTask>>)
      requires Valid() && Follows(t, f, table, timers)
      requires forall i :: 0 <= i < |commands| && commands[i].AddTimer? ==> commands[i].timeout <= UINT_MAX
      modifies this, table.pending.Keys
      ensures Valid() && played <= |commands| && (played < |commands| ==> Undefined(commands[played]))
      ensures table == ApplyAll(old(table), ops)
      ensures Follows(t, FateAfter(f, commands[..played], t.id, t.timeout), table, timers)
      ensures var f' := FateAfter(f, commands[..played], t.id, t.timeout);
        forall k :: (t, k) in ran <==> f'.deadline <= f'.now && k == f'.deadline && !f'.cancelled
      ensures forall u :: u in table.pending ==> u in old(table.pending) || fresh(u)
    {
      played, ops := 0, [];
      while played < |commands|
        invariant played <= |commands| && Valid() && table == ApplyAll(old(table), ops)
        invariant Follows(t, FateAfter(f, commands[..played], t.id, t.timeout), table, timers)
        invariant forall u :: u in table.pending ==> u in old(table.pending) || fresh(u)
      {
        if Undefined(commands[played]) {
          break;
        }
        ghost var now := FateAfter(f, commands[..played], t.id, t.timeout);
        ghost var more := Execute(commands[played], t, now);
        ApplyMore(old(table), ops, more);
        var next := played + 1;
        FateOneMore(f, commands, played, next, t.id, t.timeout);
        ops, played := ops + more, next;
      }
    }
  }

  // ---------- Runs of the wheel ----------

  /** The calls that users of the wheel make; they know timers by their ids. */
  datatype Command = AddTimer(id: nat, timeout: nat) | RefreshTimer(id: nat) | CancelTimer(id: nat) | OneTick

  ghost predicate About(c: Command, id: nat) {
    !c.OneTick? && c.id == id
  }

  /** What becomes of one task: when it runs out, whether it is cancelled, whether its id still leads to it. */
  datatype Fate = Fate(now: nat, deadline: nat, cancelled: bool, led: bool)

  /** The wait that a refresh asks for at the time `now`. */
  ghost function RefreshWait(now: nat, timeout: nat): (w: Wait) {
    var tick := SlotOf(now, 60);
    if Refreshable(tick, timeout) then WaitFor(tick, RefreshPosition(tick, timeout)) else 60
  }

  /** One call, as seen by the task with this id and timeout. An add under its id takes the id away from it. */
  ghost function Fated(f: Fate, c: Command, id: nat, timeout: nat): Fate {
    match c
    case OneTick => f.(now := f.now + 1)
    case AddTimer(i, _) => if i == id then f.(led := false) else f
    case RefreshTimer(i) =>
      if i == id && f.led && f.now < f.deadline then f.(deadline := Later(f.deadline, f.now + RefreshWait(f.now, timeout)))
      else f
    case CancelTimer(i) => if i == id && f.led && f.now < f.deadline then f.(cancelled := true) else f
  }

  ghost function FateAfter(f: Fate, cs: seq<Command>, id: nat, timeout: nat): Fate {
    if cs == [] then f else Fated(FateAfter(f, cs[..|cs| - 1], id, timeout), cs[|cs| - 1], id, timeout)
  }

  lemma FateOneMore(f: Fate, cs: seq<Command>, i: nat, next: nat, id: nat, timeout: nat)
    requires i < |cs| && next == i + 1
    ensures FateAfter(f, cs[..next], id, timeout) == Fated(FateAfter(f, cs[..i], id, timeout), cs[i], id, timeout)
  {
    assert cs[..next][..i] == cs[..i];
  }

  ghost function Ticks(cs: seq<Command>): nat {
    if cs == [] then 0 else Ticks(cs[..|cs| - 1]) + if cs[|cs| - 1].OneTick? then 1 else 0
  }

  /** Calls about other ids only let the time pass. */
  lemma {:induction false} LeftAlone(f: Fate, cs: seq<Command>, id: nat, timeout: nat)
    requires forall i :: 0 <= i < |cs| ==> !About(cs[i], id)
    ensures FateAfter(f, cs, id, timeout) == f.(now := f.now + Ticks(cs))
  {
    if cs != [] { LeftAlone(f, cs[..|cs| - 1], id, timeout); }
  }

  lemma {:induction false} FateConcat(f: Fate, cs: seq<Command>, more: seq<Command>, id: nat, timeout: nat)
    ensures FateAfter(f, cs + more, id, timeout) == FateAfter(FateAfter(f, cs, id, timeout), more, id, timeout)
  {
    if more == [] {
      assert cs + more == cs;
    } else {
      assert (cs + more)[..|cs + more| - 1] == cs + more[..|more| - 1];
      FateConcat(f, cs, more[..|more| - 1], id, timeout);
    }
  }

  /** Whatever is called: time never runs backwards, the deadline never comes nearer, and a cancel is for good. */
  lemma {:induction false} FateGrows(f: Fate, cs: seq<Command>, id: nat, timeout: nat)
    ensures var f' := FateAfter(f, cs, id, timeout);
      && f'.now == f.now + Ticks(cs) && f'.deadline >= f.deadline && (f.cancelled ==> f'.cancelled)
  {
    if cs != [] { FateGrows(f, cs[..|cs| - 1], id, timeout); }
  }

  /** Once the deadline has passed, nothing changes any more. */
  lemma {:induction false} FateSealed(f: Fate, cs: seq<Command>, id: nat, timeout: nat)
    requires f.deadline <= f.now
    ensures var f' := FateAfter(f, cs, id, timeout);
      f'.deadline == f.deadline && f'.cancelled == f.cancelled && f'.deadline <= f'.now
  {
    if cs != [] { FateSealed(f, cs[..|cs| - 1], id, timeout); }
  }

  /** A steady task is never due later than its delay from now. */
  lemma {:induction false} FateWithin(f: Fate, cs: seq<Command>, id: nat, timeout: nat)
    requires Steady(timeout) && f.deadline <= f.now + Delay(timeout)
    ensures var f' := FateAfter(f, cs, id, timeout); f'.deadline <= f'.now + Delay(timeout)
  {
    if cs != [] {
      FateWithin(f, cs[..|cs| - 1], id, timeout);
      RefreshDelay(FateAfter(f, cs[..|cs| - 1], id, timeout).now, timeout);
    }
  }

  lemma RefreshDelay(now: nat, timeout: nat)
    requires Steady(timeout)
    ensures RefreshWait(now, timeout) == Delay(timeout)
  {
    SteadyWaits(SlotOf(now, 60), timeout);
  }

  /**
   The last touch decides: if a steady task still lives under its id when it is refreshed,
   and later calls are about other ids, it runs out exactly its delay after that refresh,
   whatever was called before.
   */
  lemma LastTouch(f: Fate, cs: seq<Command>, more: seq<Command>, id: nat, timeout: nat)
    requires Steady(timeout) && f.deadline <= f.now + Delay(timeout)
    requires var g := FateAfter(f, cs, id, timeout); g.led && g.now < g.deadline
    requires forall i :: 0 <= i < |more| ==> !About(more[i], id)
    ensures var g, f' := FateAfter(f, cs, id, timeout), FateAfter(f, cs + [RefreshTimer(id)] + more, id, timeout);
      && f'.now == f.now + Ticks(cs) + Ticks(more) && f'.led && f'.cancelled == g.cancelled
      && f'.deadline == f.now + Ticks(cs) + Delay(timeout)
  {
    FateConcat(f, cs + [RefreshTimer(id)], more, id, timeout);
    FateOneMore(f, cs + [RefreshTimer(id)], |cs|, |cs| + 1, id, timeout);
    assert (cs + [RefreshTimer(id)])[..|cs|] == cs && (cs + [RefreshTimer(id)])[..|cs| + 1] == cs + [RefreshTimer(id)];
    FateGrows(f, cs, id, timeout);
    FateWithin(f, cs, id, timeout);
    RefreshDelay(FateAfter(f, cs, id, timeout).now, timeout);
    LeftAlone(FateAfter(f, cs + [RefreshTimer(id)], id, timeout), more, id, timeout);
  }

  /** A task that still lives under its id when it is cancelled never runs, whatever is called before or after. */
  lemma CancelHolds(f: Fate, cs: seq<Command>, more: seq<Command>, id: nat, timeout: nat)
    requires var g := FateAfter(f, cs, id, timeout); g.led && g.now < g.deadline
    ensures FateAfter(f, cs + [CancelTimer(id)] + more, id, timeout).cancelled
  {
    var run := cs + [CancelTimer(id)];
    FateOneMore(f, run, |cs|, |cs| + 1, id, timeout);
    assert run[..|cs|] == cs && run[..|cs| + 1] == run;
    FateConcat(f, run, more, id, timeout);
    FateGrows(FateAfter(f, run, id, timeout), more, id, timeout);
  }

  /** Its id leads to the task. */
  ghost predicate Leads(timers: map<nat, TimerTask>, t: TimerTask) {
    t.id in timers && timers[t.id] == t
  }

  /** The only live task with its id, and registered under it. */
  ghost predicate Sole(t: TimerTask, timers: map<nat, TimerTask>, pending: map<TimerTask, Timer>) {
    t in pending && Leads(timers, t) && forall u :: u in pending && u.id == t.id ==> u == t
  }

  ghost predicate FreeId(id: nat, pending: map<TimerTask, Timer>) {
    forall u :: u in pending ==> u.id != id
  }

  /** Gone, and its id free. */
  ghost predicate Gone(t: TimerTask, timers: map<nat, TimerTask>, pending: map<TimerTask, Timer>) {
    t.id !in timers && FreeId(t.id, pending)
  }

  /** Registered alone, or gone. */
  ghost predicate Settled(t: TimerTask, timers: map<nat, TimerTask>, pending: map<TimerTask, Timer>) {
    if t in pending then Sole(t, timers, pending) else Gone(t, timers, pending)
  }

  lemma SameKeysSettled(t: TimerTask, timers: map<nat, TimerTask>, pending: map<TimerTask, Timer>,
                        pending': map<TimerTask, Timer>)
    requires pending'.Keys == pending.Keys
    ensures Settled(t, timers, pending) ==> Settled(t, timers, pending')
  {}

  /** The table and the register give the task this fate. */
  ghost predicate Follows(t: TimerTask, f: Fate, table: Timers<TimerTask>, timers: map<nat, TimerTask>) {
    && table.now == f.now && (t in table.pending <==> f.now < f.deadline)
    && (t in table.pending ==> table.pending[t] == Timer(f.deadline, f.cancelled))
    && (forall k :: (t, k) in table.fired <==> f.deadline <= f.now && k == f.deadline && !f.cancelled)
    && if f.led then Settled(t, timers, table.pending) else !Leads(timers, t)
  }

  /** A task added under a free id has its fate before it. */
  lemma NewFollows(t: TimerTask, table: Timers<TimerTask>, timers: map<nat, TimerTask>, wait: Wait)
    requires t !in table.pending && (forall e :: e in table.fired ==> e.0 != t)
    ensures FreeId(t.id, table.pending) ==>
      Follows(t, Fate(table.now, table.now + wait, false, true), Apply(table, Add(t, wait)), timers[t.id := t])
  {}

  lemma AddFollows(t: TimerTask, f: Fate, table: Timers<TimerTask>, timers: map<nat, TimerTask>, task: TimerTask,
                   wait: Wait)
    requires Follows(t, f, table, timers) && task != t
    ensures Follows(t, Fated(f, AddTimer(task.id, task.timeout), t.id, t.timeout),
                    Apply(table, Add(task, wait)), timers[task.id := task])
  {}

  /** A call by id is about the task exactly if the id leads to it. */
  lemma LedTo(t: TimerTask, f: Fate, table: Timers<TimerTask>, timers: map<nat, TimerTask>, id: nat)
    requires Follows(t, f, table, timers) && Pointers(timers, table.pending)
    ensures (id in timers && timers[id] == t) <==> (id == t.id && f.led && f.now < f.deadline)
  {}

  lemma RefreshFollows(t: TimerTask, f: Fate, table: Timers<TimerTask>, timers: map<nat, TimerTask>, id: nat, tick: nat)
    requires Follows(t, f, table, timers) && Pointers(timers, table.pending) && tick == SlotOf(table.now, 60)
    requires id in timers ==> Refreshable(tick, timers[id].timeout)
    ensures Follows(t, Fated(f, RefreshTimer(id), t.id, t.timeout),
                    if id in timers then
                      Apply(table, Refresh(timers[id], WaitFor(tick, RefreshPosition(tick, timers[id].timeout))))
                    else table, timers)
  {
    LedTo(t, f, table, timers, id);
    if id in timers {
      var wait := WaitFor(tick, RefreshPosition(tick, timers[id].timeout));
      SameKeysSettled(t, timers, table.pending, Apply(table, Refresh(timers[id], wait)).pending);
    }
  }

  lemma CancelFollows(t: TimerTask, f: Fate, table: Timers<TimerTask>, timers: map<nat, TimerTask>, id: nat)
    requires Follows(t, f, table, timers) && Pointers(timers, table.pending)
    ensures Follows(t, Fated(f, CancelTimer(id), t.id, t.timeout),
                    if id in timers then Apply(table, Cancel(timers[id])) else table, timers)
  {
    LedTo(t, f, table, timers, id);
  }

  lemma TickFollows(t: TimerTask, f: Fate, table: Timers<TimerTask>, timers: map<nat, TimerTask>)
    requires Follows(t, f, table, timers) && WellTimed(table)
    ensures Follows(t, Fated(f, OneTick, t.id, t.timeout), Apply(table, Tick), timers - DueIds(table))
  {
    if f.led { TickSettled(t, timers, table); }
    TickUntouched(table, Tick, t);
    assert forall k :: (t, k) in Apply(table, Tick).fired <==> k in Firings(Apply(table, Tick), t);
    assert forall k :: (t, k) in table.fired <==> k in Firings(table, t);
  }

  lemma TickSettled(t: TimerTask, timers: map<nat, TimerTask>, table: Timers<TimerTask>)
    requires Settled(t, timers, table.pending)
    ensures Settled(t, timers - DueIds(table), Apply(table, Tick).pending)
  {
    if t in table.pending && Due(table, t) {
      assert t.id in DueIds(table);
    }
  }

  lemma ApplyMore<T>(s: Timers<T>, done: seq<Op<T>>, ops: seq<Op<T>>)
    requires |ops| <= 1
    ensures ApplyAll(s, done + ops) == if ops == [] then ApplyAll(s, done) else Apply(ApplyAll(s, done), ops[0])
  {
    if ops == [] {
      assert done + ops == done;
    } else {
      assert ops == [ops[0]];
      ApplyOneMore(s, done, ops[0]);
    }
  }

  /** The ids of the tasks that run out at the next tick. */
  ghost function DueIds(table: Timers<TimerTask>): set<nat> {
    set t: TimerTask | t in table.pending && Due(table, t) :: t.id
  }

  /** Tasks destroyed so far: those that are due and have no owner left in the slot. */
  ghost function Destroyed(table: Timers<TimerTask>, slot: seq<TimerTask>, rest: seq<TimerTask>): set<TimerTask> {
    set t | t in table.pending && Due(table, t) && t in slot && t !in rest
  }

  ghost function Ids(ts: set<TimerTask>): set<nat> {
    set t: TimerTask | t in ts :: t.id
  }

  /** The callbacks of destroyed tasks: none for a cancelled one. */
  ghost function Calls(table: Timers<TimerTask>, ts: set<TimerTask>): set<(TimerTask, nat)>
    requires ts <= table.pending.Keys
  {
    set t | t in ts && !table.pending[t].cancelled :: (t, table.now + 1)
  }

  ghost predicate Suffix(slot: seq<TimerTask>, rest: seq<TimerTask>) {
    |rest| <= |slot| && rest == slot[|slot| - |rest|..]
  }

  lemma RestInSlot(slot: seq<TimerTask>, rest: seq<TimerTask>)
    requires Suffix(slot, rest) && rest != []
    ensures rest[0] in slot && Suffix(slot, rest[1..])
  {
    assert rest[0] == slot[|slot| - |rest|];
  }

  /** Half-way through clearing a slot: exactly the destroyed tasks have run or been dropped, and are unregistered. */
  ghost predicate Clearing(table: Timers<TimerTask>, slot: seq<TimerTask>, rest: seq<TimerTask>,
                           ran0: set<(TimerTask, nat)>, ran: set<(TimerTask, nat)>,
                           timers0: map<nat, TimerTask>, timers: map<nat, TimerTask>) {
    && Suffix(slot, rest)
    && ran == ran0 + Calls(table, Destroyed(table, slot, rest))
    && timers == timers0 - Ids(Destroyed(table, slot, rest))
  }

  lemma ClearingStart(table: Timers<TimerTask>, slot: seq<TimerTask>, ran: set<(TimerTask, nat)>,
                      timers: map<nat, TimerTask>)
    ensures Clearing(table, slot, slot, ran, ran, timers, timers)
  {
    assert Destroyed(table, slot, slot) == {};
  }

  /** One owner fewer: the task is destroyed with its last one, and had not run before. */
  lemma ClearingStep(table: Timers<TimerTask>, slot: seq<TimerTask>, rest: seq<TimerTask>,
                     ran0: set<(TimerTask, nat)>, ran: set<(TimerTask, nat)>,
                     timers0: map<nat, TimerTask>, timers: map<nat, TimerTask>)
    requires Clearing(table, slot, rest, ran0, ran, timers0, timers) && rest != [] && rest[0] in table.pending
    requires Past(ran0, table.pending)
    ensures forall e :: e in ran ==> e.0 != rest[0]
    ensures var t, rest' := rest[0], rest[1..];
      if Due(table, t) && t !in rest' then
        Clearing(table, slot, rest', ran0, ran + (if table.pending[t].cancelled then {} else {(t, table.now + 1)}),
                 timers0, timers - {t.id})
      else
        Clearing(table, slot, rest', ran0, ran, timers0, timers)
  {
    var t, rest' := rest[0], rest[1..];
    RestInSlot(slot, rest);
    assert rest == [t] + rest';
    var a, b := Destroyed(table, slot, rest), Destroyed(table, slot, rest');
    assert t !in a;
    if Due(table, t) && t !in rest' {
      assert b == a + {t};
      assert Ids(b) == Ids(a) + {t.id};
      assert Calls(table, b) == Calls(table, a) + if table.pending[t].cancelled then {} else {(t, table.now + 1)};
    } else {
      assert b == a;
    }
  }

  /** The same, told by whether an owner is left anywhere in the wheel. */
  lemma OwnerDropped(table: Timers<TimerTask>, wheel: Wheel, p: nat, rest: seq<TimerTask>,
                     ran0: set<(TimerTask, nat)>, ran: set<(TimerTask, nat)>,
                     timers0: map<nat, TimerTask>, timers: map<nat, TimerTask>)
    requires Slots(table.now, wheel, table.pending) && p == SlotOf(table.now + 1, 60) && Past(ran0, table.pending)
    requires Clearing(table, wheel[p], rest, ran0, ran, timers0, timers) && rest != []
    ensures rest[0] in table.pending && forall e :: e in ran ==> e.0 != rest[0]
    ensures var t := rest[0];
      if Owned(wheel[p := rest[1..]], t) then
        Clearing(table, wheel[p], rest[1..], ran0, ran, timers0, timers)
      else
        Clearing(table, wheel[p], rest[1..], ran0, ran + (if table.pending[t].cancelled then {} else {(t, table.now + 1)}),
                 timers0, timers - {t.id})
  {
    RestInSlot(wheel[p], rest);
    assert Holds(wheel, p, rest[0]);
    OwnersLeft(table, wheel, p, rest, rest[0]);
    ClearingStep(table, wheel[p], rest, ran0, ran, timers0, timers);
  }

  lemma NotDue(table: Timers<TimerTask>, t: TimerTask)
    requires t in table.pending && t.id !in DueIds(table)
    ensures !Due(table, t)
  {}

  /** When the slot is empty, exactly the due tasks have been destroyed. */
  lemma ClearingDone(table: Timers<TimerTask>, wheel: Wheel, p: nat, ran0: set<(TimerTask, nat)>,
                     ran: set<(TimerTask, nat)>,
                     timers0: map<nat, TimerTask>, timers: map<nat, TimerTask>)
    requires Slots(table.now, wheel, table.pending) && p == SlotOf(table.now + 1, 60)
    requires Pointers(timers0, table.pending) && ran0 == table.fired && Past(ran0, table.pending)
    requires Clearing(table, wheel[p], [], ran0, ran, timers0, timers)
    ensures timers == timers0 - DueIds(table)
    ensures Pointers(timers, Apply(table, Tick).pending)
    ensures ran == Apply(table, Tick).fired && Past(ran, Apply(table, Tick).pending)
    ensures Reachable(timers0, table.pending) ==> Reachable(timers, Apply(table, Tick).pending)
  {
    var due := Destroyed(table, wheel[p], []);
    forall t: TimerTask | t in table.pending ensures t in due <==> Due(table, t) {
      if Due(table, t) { assert Holds(wheel, SlotOf(table.pending[t].deadline, 60), t); }
    }
    assert Ids(due) == DueIds(table);
    forall i | i in timers ensures timers[i] in Apply(table, Tick).pending {
      NotDue(table, timers0[i]);
    }
  }
}
