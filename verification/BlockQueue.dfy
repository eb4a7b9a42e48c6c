/**
 `lesson6/BlockQueue/BlockQueue.hpp` as a step machine: a bounded queue with one
 mutex and two condition variables. The machine runs a chain of `n` such queues,
 with any number of threads on each of the stages 0..n: stage 0 pushes into queue
 0, stage `s` pops from queue `s - 1` and pushes what it makes of the value into
 queue `s`, and stage `n` only pops. With `n == 1` these are plain producers and
 consumers of one queue; with `n == 2` it is the pipeline of
 `lesson6/BlockQueue/main.cc`.

 A step is one statement of one thread. `pthread_cond_signal` wakes at least one
 parked thread if there is one, and may wake more; a parked thread may also wake
 for no reason, as POSIX allows.
 */
module BlockQueue {
  import opened Common

  datatype Op = Push | Pop

  /** Where a thread is inside `push` or `pop`. `Act` is `_q.push(val)`, or `*out = _q.front(); _q.pop()`. */
  datatype Phase = Lock | Test | Parked | Woken | Act | Signal | Unlock

  /** The queue and operation a thread is in, and the value to push or the value popped. */
  datatype Pc = Pc(queue: nat, op: Op, phase: Phase, val: int)

  datatype Queue = Queue(items: seq<int>, owner: Option<Tid>, pushed: seq<int>, popped: seq<int>)

  /** The chain: capacity of each queue, stage of each thread, what a stage makes of a value. */
  datatype Config = Config(caps: seq<nat>, stage: map<Tid, nat>, work: (nat, int) -> int)

  datatype State = State(queues: seq<Queue>, pc: map<Tid, Pc>)

  function Other(op: Op): Op {
    if op.Push? then Pop else Push
  }

  function Stages(c: Config): nat { |c.caps| }

  ghost predicate ValidConfig(c: Config) {
    && Stages(c) >= 1
    && (forall q :: 0 <= q < |c.caps| ==> c.caps[q] >= 1)
    && (forall t :: t in c.stage ==> c.stage[t] <= Stages(c))
  }

  /** Every stage has at least one thread. */
  ghost predicate Staffed(c: Config) {
    forall s: nat {:trigger Worker(c, s)} :: s <= Stages(c) ==> Worker(c, s)
  }

  ghost predicate Worker(c: Config, s: nat) {
    exists t :: t in c.stage && c.stage[t] == s
  }

  /** The queue a thread of stage `s` works on: its own for a push, the one before for a pop. */
  predicate RightQueue(s: nat, p: Pc) {
    s == p.queue + if p.op.Push? then 0 else 1
  }

  predicate Holds(p: Phase) {
    p == Test || p == Act || p == Signal || p == Unlock
  }

  /** `is_full()` for a push, `is_empty()` for a pop. */
  predicate Blocked(c: Config, s: State, q: nat, op: Op)
    requires q < |s.queues| && q < |c.caps|
  {
    if op.Push? then |s.queues[q].items| == c.caps[q] else s.queues[q].items == []
  }

  predicate Is(p: Pc, q: nat, op: Op, g: Group) {
    && p.queue == q && p.op == op
    && match g
       case Asleep => p.phase == Parked
       case Claiming => p.phase == Woken || p.phase == Test || p.phase == Act
       case Owing => p.phase == Signal
  }

  ghost function Who(s: State, q: nat, op: Op, g: Group): set<Tid> {
    set t | t in s.pc && Is(s.pc[t], q, op, g)
  }

  // ---------- Steps ----------

  /** The first operation of a thread: producers start with some value to push. */
  ghost predicate FirstPc(c: Config, t: Tid, p: Pc)
    requires t in c.stage
  {
    RightQueue(c.stage[t], p) && p.phase == Lock && p.op == if c.stage[t] == 0 then Push else Pop
  }

  /** What a thread does after finishing an operation. */
  ghost predicate NextPc(c: Config, t: Tid, p: Pc, p': Pc)
    requires t in c.stage
  {
    && RightQueue(c.stage[t], p') && p'.phase == Lock
    && (p.op.Push? ==> p'.op == if c.stage[t] == 0 then Push else Pop)
    && (p.op.Pop? && c.stage[t] < Stages(c) ==> p'.op == Push && p'.val == c.work(c.stage[t], p.val))
    && (p.op.Pop? && c.stage[t] >= Stages(c) ==> p'.op == Pop)
  }

  ghost predicate Init(c: Config, s: State) {
    && s.queues == seq(Stages(c), _ => Queue([], None, [], []))
    && s.pc.Keys == c.stage.Keys
    && forall t :: t in s.pc ==> FirstPc(c, t, s.pc[t])
  }

  ghost predicate TypeOk(c: Config, s: State) {
    && |s.queues| == Stages(c)
    && s.pc.Keys == c.stage.Keys
    && forall t :: t in s.pc ==> RightQueue(c.stage[t], s.pc[t]) && s.pc[t].queue < Stages(c)
  }

  /** `s'` differs from `s` in thread `t`, in queue `q`, and in threads woken by a signal. */
  ghost predicate Moved(c: Config, s: State, s': State, t: Tid, queue: Queue, p: Pc)
    requires TypeOk(c, s) && t in s.pc
  {
    s' == State(s.queues[s.pc[t].queue := queue], s.pc[t := p])
  }

  ghost function Acted(queue: Queue, p: Pc): (Queue, Pc)
    requires p.op.Pop? ==> queue.items != []
  {
    if p.op.Push? then
      (queue.(items := queue.items + [p.val], pushed := queue.pushed + [p.val]), p.(phase := Signal))
    else
      (queue.(items := queue.items[1..], popped := queue.popped + [queue.items[0]]), p.(phase := Signal, val := queue.items[0]))
  }

  ghost function WakeAll(pc: map<Tid, Pc>, w: set<Tid>): map<Tid, Pc> {
    map t | t in pc :: if t in w then pc[t].(phase := Woken) else pc[t]
  }

  /** One statement of thread `t`; a signal wakes the threads `w`. */
  ghost predicate Step(c: Config, s: State, s': State, t: Tid, w: set<Tid>)
    requires TypeOk(c, s) && t in s.pc
  {
    var p, q := s.pc[t], s.pc[t].queue;
    var queue := s.queues[q];
    match p.phase
    case Lock => queue.owner == None && Moved(c, s, s', t, queue.(owner := Some(t)), p.(phase := Test))
    case Test =>
      if Blocked(c, s, q, p.op) then Moved(c, s, s', t, queue.(owner := None), p.(phase := Parked))
      else Moved(c, s, s', t, queue, p.(phase := Act))
    case Parked => false
    case Woken => queue.owner == None && Moved(c, s, s', t, queue.(owner := Some(t)), p.(phase := Test))
    case Act =>
      && (p.op.Pop? ==> queue.items != [])
      && Moved(c, s, s', t, Acted(queue, p).0, Acted(queue, p).1)
    case Signal =>
      var waiting := Who(s, q, Other(p.op), Asleep);
      && w <= waiting && (waiting != {} ==> w != {})
      && s' == State(s.queues, WakeAll(s.pc, w)[t := p.(phase := Unlock)])
    case Unlock => exists p' :: NextPc(c, t, p, p') && Moved(c, s, s', t, queue.(owner := None), p')
  }

  /** A wake-up without a signal. */
  ghost predicate Spurious(s: State, s': State, t: Tid)
    requires t in s.pc
  {
    s.pc[t].phase == Parked && s' == s.(pc := s.pc[t := s.pc[t].(phase := Woken)])
  }

  /** Thread `t` moves; `w` are the threads its signal wakes. */
  ghost predicate Move(c: Config, s: State, s': State, t: Tid, w: set<Tid>)
    requires TypeOk(c, s)
  {
    t in s.pc && (Step(c, s, s', t, w) || Spurious(s, s', t))
  }

  ghost predicate Next(c: Config, s: State, s': State) {
    TypeOk(c, s) && exists t, w :: Move(c, s, s', t, w)
  }

  // ---------- The invariant ----------

  /** A mutex is held exactly by the thread that is between its lock and its unlock. */
  ghost predicate Mutexes(c: Config, s: State)
    requires TypeOk(c, s)
  {
    && (forall t :: t in s.pc ==> (Holds(s.pc[t].phase) <==> s.queues[s.pc[t].queue].owner == Some(t)))
    && (forall q :: 0 <= q < |s.queues| && s.queues[q].owner.Some? ==>
          s.queues[q].owner.value in s.pc && s.pc[s.queues[q].owner.value].queue == q)
  }

  /** Bounded, first in first out, and a thread that acts is not blocked. */
  ghost predicate Contents(c: Config, s: State)
    requires TypeOk(c, s)
  {
    && (forall q :: 0 <= q < |s.queues| ==> |s.queues[q].items| <= c.caps[q])
    && (forall q :: 0 <= q < |s.queues| ==> s.queues[q].popped + s.queues[q].items == s.queues[q].pushed)
    && (forall t :: t in s.pc && s.pc[t].phase == Act ==> !Blocked(c, s, s.pc[t].queue, s.pc[t].op))
  }

  /** How many operations of one kind the queue has room for. */
  ghost function Room(c: Config, s: State, q: nat, op: Op): int
    requires q < |s.queues| && q < |c.caps|
  {
    if op.Push? then c.caps[q] - |s.queues[q].items| else |s.queues[q].items|
  }

  /**
   No wake-up is lost: while a thread is parked for `op`, every operation the queue
   has room for is accounted for by a thread that is awake for it or by a signal
   still to be sent.
   */
  ghost predicate NoLostWakeup(c: Config, s: State, q: nat, op: Op)
    requires q < |s.queues| && q < |c.caps|
  {
    Who(s, q, op, Asleep) != {} ==>
      Room(c, s, q, op) <= |Who(s, q, op, Claiming)| + |Who(s, q, Other(op), Owing)|
  }

  ghost predicate Inv(c: Config, s: State) {
    && TypeOk(c, s) && Mutexes(c, s) && Contents(c, s)
    && forall q: nat, op {:trigger NoLostWakeup(c, s, q, op)} :: q < |s.queues| ==> NoLostWakeup(c, s, q, op)
  }

  lemma InitInv(c: Config, s: State)
    requires ValidConfig(c) && Init(c, s)
    ensures Inv(c, s)
  {
    forall q: nat, op | q < |s.queues| ensures NoLostWakeup(c, s, q, op) {
      assert Who(s, q, op, Asleep) == {};
    }
  }

  ghost predicate Basics(c: Config, s: State) {
    TypeOk(c, s) && Mutexes(c, s) && Contents(c, s)
  }

  /** A thread that may touch its queue moves on, with its mutex held exactly if it is still inside. */
  ghost predicate GoodMove(c: Config, s: State, s': State, t: Tid, queue: Queue, p: Pc) {
    && Basics(c, s) && t in s.pc && Moved(c, s, s', t, queue, p)
    && RightQueue(c.stage[t], p) && p.queue < Stages(c)
    && var q := s.pc[t].queue;
    && (s.queues[q].owner == None || s.queues[q].owner == Some(t))
    && (if Holds(p.phase) then p.op == s.pc[t].op && queue.owner == Some(t) else queue.owner == None)
    && |queue.items| <= c.caps[q] && queue.popped + queue.items == queue.pushed
    && (p.phase == Act ==> !Blocked(c, s', q, p.op))
  }

  lemma MovedType(c: Config, s: State, s': State, t: Tid, queue: Queue, p: Pc)
    requires GoodMove(c, s, s', t, queue, p)
    ensures TypeOk(c, s')
    ensures forall u :: u in s.pc && u != t ==> s'.pc[u] == s.pc[u] && s'.pc[u].queue == s.pc[u].queue
    ensures forall u :: u in s.pc && u != t && s.pc[u].queue == s.pc[t].queue ==> !Holds(s.pc[u].phase)
  {}

  lemma MovedMutexes(c: Config, s: State, s': State, t: Tid, queue: Queue, p: Pc)
    requires GoodMove(c, s, s', t, queue, p) && TypeOk(c, s')
    ensures Mutexes(c, s')
  {
    forall u | u in s'.pc ensures Holds(s'.pc[u].phase) <==> s'.queues[s'.pc[u].queue].owner == Some(u) {
      MovedHolds(c, s, s', t, queue, p, u);
    }
    forall q | 0 <= q < |s'.queues| && s'.queues[q].owner.Some?
      ensures s'.queues[q].owner.value in s'.pc && s'.pc[s'.queues[q].owner.value].queue == q
    {
      MovedOwner(c, s, s', t, queue, p, q);
    }
  }

  lemma MovedHolds(c: Config, s: State, s': State, t: Tid, queue: Queue, p: Pc, u: Tid)
    requires GoodMove(c, s, s', t, queue, p) && TypeOk(c, s') && u in s'.pc
    ensures Holds(s'.pc[u].phase) <==> s'.queues[s'.pc[u].queue].owner == Some(u)
  {
    MovedType(c, s, s', t, queue, p);
    if u == t && s'.pc[t].queue != s.pc[t].queue {
      assert !Holds(p.phase);
    }
  }

  lemma MovedOwner(c: Config, s: State, s': State, t: Tid, queue: Queue, p: Pc, q: nat)
    requires GoodMove(c, s, s', t, queue, p) && TypeOk(c, s') && q < |s'.queues| && s'.queues[q].owner.Some?
    ensures s'.queues[q].owner.value in s'.pc && s'.pc[s'.queues[q].owner.value].queue == q
  {
    MovedType(c, s, s', t, queue, p);
  }

  lemma MovedContents(c: Config, s: State, s': State, t: Tid, queue: Queue, p: Pc)
    requires GoodMove(c, s, s', t, queue, p) && TypeOk(c, s')
    ensures Contents(c, s')
  {
    forall u | u in s'.pc && s'.pc[u].phase == Act
      ensures !Blocked(c, s', s'.pc[u].queue, s'.pc[u].op)
    {
      MovedActs(c, s, s', t, queue, p, u);
    }
  }

  /** A thread about to act still finds its queue ready. */
  lemma MovedActs(c: Config, s: State, s': State, t: Tid, queue: Queue, p: Pc, u: Tid)
    requires GoodMove(c, s, s', t, queue, p) && TypeOk(c, s') && u in s'.pc && s'.pc[u].phase == Act
    ensures !Blocked(c, s', s'.pc[u].queue, s'.pc[u].op)
  {
    MovedType(c, s, s', t, queue, p);
    if u != t {
      assert s.pc[u].queue != s.pc[t].queue;
    }
  }

  lemma MovedBasics(c: Config, s: State, s': State, t: Tid, queue: Queue, p: Pc)
    requires GoodMove(c, s, s', t, queue, p)
    ensures Basics(c, s')
  {
    MovedType(c, s, s', t, queue, p);
    MovedMutexes(c, s, s', t, queue, p);
    MovedContents(c, s, s', t, queue, p);
  }

  /** Signals and wake-ups leave every thread inside or outside its mutex. */
  ghost predicate SameSides(s: State, s': State) {
    && s'.queues == s.queues && s'.pc.Keys == s.pc.Keys
    && forall u :: u in s.pc ==>
      && s'.pc[u].queue == s.pc[u].queue && s'.pc[u].op == s.pc[u].op
      && Holds(s'.pc[u].phase) == Holds(s.pc[u].phase) && (s'.pc[u].phase == Act ==> s.pc[u].phase == Act)
  }

  lemma SamePlaces(c: Config, s: State, s': State)
    requires Basics(c, s) && SameSides(s, s')
    ensures Basics(c, s')
  {}

  lemma ActBasics(c: Config, s: State, s': State, t: Tid)
    requires Basics(c, s) && t in s.pc && s.pc[t].phase == Act
    requires Step(c, s, s', t, {})
    ensures Basics(c, s')
  {
    var p, q := s.pc[t], s.pc[t].queue;
    var queue, a := s.queues[q], Acted(s.queues[q], s.pc[t]);
    assert !Blocked(c, s, q, p.op);
    if p.op.Push? {
      assert a.0.popped + a.0.items == queue.popped + queue.items + [p.val];
    } else {
      assert a.0.popped + a.0.items == queue.popped + ([queue.items[0]] + queue.items[1..]);
    }
    MovedBasics(c, s, s', t, a.0, a.1);
  }

  lemma SignalBasics(c: Config, s: State, s': State, t: Tid, w: set<Tid>)
    requires Basics(c, s) && t in s.pc && s.pc[t].phase == Signal && Step(c, s, s', t, w)
    ensures Basics(c, s')
  {
    SignalSides(c, s, s', t, w);
    SamePlaces(c, s, s');
  }

  lemma SignalSides(c: Config, s: State, s': State, t: Tid, w: set<Tid>)
    requires TypeOk(c, s) && t in s.pc && s.pc[t].phase == Signal && Step(c, s, s', t, w)
    ensures SameSides(s, s')
  {}

  lemma UnlockBasics(c: Config, s: State, s': State, t: Tid)
    requires ValidConfig(c) && Basics(c, s) && t in s.pc && s.pc[t].phase == Unlock && Step(c, s, s', t, {})
    ensures Basics(c, s')
  {
    var p, queue := s.pc[t], s.queues[s.pc[t].queue];
    var p' :| NextPc(c, t, p, p') && Moved(c, s, s', t, queue.(owner := None), p');
    MovedBasics(c, s, s', t, queue.(owner := None), p');
  }

  lemma StepBasics(c: Config, s: State, s': State, t: Tid, w: set<Tid>)
    requires ValidConfig(c) && Basics(c, s) && t in s.pc && Step(c, s, s', t, w)
    ensures Basics(c, s')
  {
    var p, q := s.pc[t], s.pc[t].queue;
    var queue := s.queues[q];
    match p.phase
    case Lock => MovedBasics(c, s, s', t, queue.(owner := Some(t)), p.(phase := Test));
    case Woken => MovedBasics(c, s, s', t, queue.(owner := Some(t)), p.(phase := Test));
    case Test =>
      if Blocked(c, s, q, p.op) {
        MovedBasics(c, s, s', t, queue.(owner := None), p.(phase := Parked));
      } else {
        MovedBasics(c, s, s', t, queue, p.(phase := Act));
      }
    case Act => ActBasics(c, s, s', t);
    case Signal => SignalBasics(c, s, s', t, w);
    case Unlock => UnlockBasics(c, s, s', t);
  }

  // ---------- No lost wake-up ----------

  /** When one thread moves, it is the only one that can enter or leave a group. */
  lemma WhoMoved(s: State, s': State, t: Tid, p: Pc, q: nat, op: Op, g: Group)
    requires t in s.pc && s'.pc == s.pc[t := p]
    ensures |Who(s', q, op, g)| == |Who(s, q, op, g)| + Bit(Is(p, q, op, g)) - Bit(Is(s.pc[t], q, op, g))
    ensures Who(s', q, op, g) != {} && Who(s, q, op, g) == {} ==> Is(p, q, op, g)
  {
    var a, b := Who(s, q, op, g), Who(s', q, op, g);
    assert forall u :: u in s.pc && u != t ==> s'.pc[u] == s.pc[u];
    assert a - {t} == b - {t};
    OneElement(a, b, t);
  }

  /** A move is safe if a newly parked thread had no room, and new room is matched by a new claim or a new debt. */
  lemma Accounted(c: Config, s: State, s': State, t: Tid, p: Pc, q: nat, op: Op)
    requires t in s.pc && s'.pc == s.pc[t := p] && q < |s.queues| == |s'.queues| && q < |c.caps|
    requires NoLostWakeup(c, s, q, op)
    requires Is(p, q, op, Asleep) ==> Room(c, s', q, op) <= 0
    requires
      || Room(c, s', q, op) <= 0
      || Room(c, s', q, op) - Room(c, s, q, op) <=
           Bit(Is(p, q, op, Claiming)) - Bit(Is(s.pc[t], q, op, Claiming))
           + Bit(Is(p, q, Other(op), Owing)) - Bit(Is(s.pc[t], q, Other(op), Owing))
    ensures NoLostWakeup(c, s', q, op)
  {
    WhoMoved(s, s', t, p, q, op, Asleep);
    WhoMoved(s, s', t, p, q, op, Claiming);
    WhoMoved(s, s', t, p, q, Other(op), Owing);
  }

  /** Every step but a signal. */
  lemma MovedWakeups(c: Config, s: State, s': State, t: Tid, w: set<Tid>, q: nat, op: Op)
    requires Basics(c, s) && t in s.pc && s.pc[t].phase != Signal && q < |s.queues|
    requires Step(c, s, s', t, w)
    requires NoLostWakeup(c, s, q, op)
    ensures NoLostWakeup(c, s', q, op)
  {
    var from := s.pc[t];
    match from.phase
    case Lock => Accounted(c, s, s', t, from.(phase := Test), q, op);
    case Woken => Accounted(c, s, s', t, from.(phase := Test), q, op);
    case Test => Accounted(c, s, s', t, from.(phase := if Blocked(c, s, from.queue, from.op) then Parked else Act), q, op);
    case Act => Accounted(c, s, s', t, Acted(s.queues[from.queue], from).1, q, op);
    case Unlock =>
      var p' :| NextPc(c, t, from, p') && Moved(c, s, s', t, s.queues[from.queue].(owner := None), p');
      Accounted(c, s, s', t, p', q, op);
  }

  lemma SpuriousWakeups(c: Config, s: State, s': State, t: Tid, q: nat, op: Op)
    requires TypeOk(c, s) && t in s.pc && Spurious(s, s', t) && q < |s.queues|
    requires NoLostWakeup(c, s, q, op)
    ensures NoLostWakeup(c, s', q, op)
  {
    Accounted(c, s, s', t, s.pc[t].(phase := Woken), q, op);
  }

  /** A signal hands the claim of the operation just done to at least one parked thread. */
  lemma SignalWakeups(c: Config, s: State, s': State, t: Tid, w: set<Tid>, q: nat, op: Op)
    requires TypeOk(c, s) && t in s.pc && s.pc[t].phase == Signal && q < |s.queues|
    requires Step(c, s, s', t, w)
    requires NoLostWakeup(c, s, q, op)
    ensures NoLostWakeup(c, s', q, op)
  {
    var m, p := s.(pc := WakeAll(s.pc, w)), s.pc[t].(phase := Unlock);
    WhoWoken(s, m, w, s.pc[t].queue, Other(s.pc[t].op), q, op);
    WhoMoved(m, s', t, p, q, op, Asleep);
    WhoMoved(m, s', t, p, q, op, Claiming);
    WhoMoved(m, s', t, p, q, Other(op), Owing);
  }

  lemma Regrouped(a: set<Tid>, b: set<Tid>, w: set<Tid>)
    requires b - w == a - w
    ensures a !! w && w <= b ==> |b| == |a| + |w|
    ensures b !! w ==> b == a - w
    ensures a !! w && b !! w ==> a == b
  {
    assert a - w <= a;
    if a !! w {
      assert a - w == a;
      if w <= b { assert b == a + w; }
    }
    if b !! w { assert b - w == b; }
  }

  lemma WhoWoken(s: State, m: State, w: set<Tid>, my: nat, wop: Op, q: nat, op: Op)
    requires m == s.(pc := WakeAll(s.pc, w)) && w <= Who(s, my, wop, Asleep)
    ensures Who(m, q, Other(op), Owing) == Who(s, q, Other(op), Owing)
    ensures if q == my && op == wop then
              && Who(m, q, op, Asleep) == Who(s, q, op, Asleep) - w
              && |Who(m, q, op, Claiming)| == |Who(s, q, op, Claiming)| + |w|
            else
              && Who(m, q, op, Asleep) == Who(s, q, op, Asleep)
              && Who(m, q, op, Claiming) == Who(s, q, op, Claiming)
  {
    WokenGroup(s, m, w, my, wop, q, Other(op), Owing);
    Regrouped(Who(s, q, Other(op), Owing), Who(m, q, Other(op), Owing), w);
    WokenGroup(s, m, w, my, wop, q, op, Asleep);
    Regrouped(Who(s, q, op, Asleep), Who(m, q, op, Asleep), w);
    WokenGroup(s, m, w, my, wop, q, op, Claiming);
    Regrouped(Who(s, q, op, Claiming), Who(m, q, op, Claiming), w);
  }

  lemma WokenGroup(s: State, m: State, w: set<Tid>, my: nat, wop: Op, q: nat, op: Op, g: Group)
    requires m == s.(pc := WakeAll(s.pc, w)) && w <= Who(s, my, wop, Asleep)
    ensures Who(m, q, op, g) - w == Who(s, q, op, g) - w
    ensures q == my && op == wop ==>
      && (g == Claiming ==> Who(s, q, op, g) !! w && w <= Who(m, q, op, g))
      && (g == Asleep ==> Who(m, q, op, g) !! w)
    ensures !(q == my && op == wop && g != Owing) ==> Who(s, q, op, g) !! w && Who(m, q, op, g) !! w
  {
    assert forall u :: u in w ==> u in s.pc && Is(s.pc[u], my, wop, Asleep) && Is(m.pc[u], my, wop, Claiming);
    assert forall u :: u in s.pc && u !in w ==> m.pc[u] == s.pc[u];
  }

  // ---------- Whole runs ----------

  lemma MoveBasics(c: Config, s: State, s': State, t: Tid, w: set<Tid>)
    requires ValidConfig(c) && Basics(c, s) && t in s.pc && (Step(c, s, s', t, w) || Spurious(s, s', t))
    ensures Basics(c, s')
  {
    if Spurious(s, s', t) {
      SamePlaces(c, s, s');
    } else {
      StepBasics(c, s, s', t, w);
    }
  }

  lemma MoveWakeups(c: Config, s: State, s': State, t: Tid, w: set<Tid>, q: nat, op: Op)
    requires Basics(c, s) && t in s.pc && (Step(c, s, s', t, w) || Spurious(s, s', t)) && q < |s.queues|
    requires NoLostWakeup(c, s, q, op)
    ensures |s'.queues| == |s.queues| && NoLostWakeup(c, s', q, op)
  {
    if Spurious(s, s', t) {
      SpuriousWakeups(c, s, s', t, q, op);
    } else if s.pc[t].phase == Signal {
      SignalWakeups(c, s, s', t, w, q, op);
    } else {
      MovedWakeups(c, s, s', t, w, q, op);
    }
  }

  /** Every step of every thread keeps the invariant. */
  lemma MoveInv(c: Config, s: State, s': State, t: Tid, w: set<Tid>)
    requires ValidConfig(c) && Inv(c, s) && t in s.pc && (Step(c, s, s', t, w) || Spurious(s, s', t))
    ensures Inv(c, s')
  {
    MoveBasics(c, s, s', t, w);
    forall q: nat, op | q < |s'.queues| ensures NoLostWakeup(c, s', q, op) {
      assert NoLostWakeup(c, s, q, op);
      MoveWakeups(c, s, s', t, w, q, op);
    }
  }

  /** A run, step by step. */
  datatype Run = Start(last: State) | Then(before: Run, last: State)

  ghost predicate IsRun(c: Config, r: Run) {
    match r
    case Start(s) => Init(c, s)
    case Then(b, s) => IsRun(c, b) && Next(c, b.last, s)
  }

  lemma {:induction false} RunInv(c: Config, r: Run)
    requires ValidConfig(c) && IsRun(c, r)
    ensures Inv(c, r.last)
    decreases r
  {
    match r
    case Start(s) => InitInv(c, s);
    case Then(b, s) =>
      RunInv(c, b);
      var t, w :| Move(c, b.last, s, t, w);
      MoveInv(c, b.last, s, t, w);
  }

  /** Bounded, and first in first out, after any interleaving. */
  lemma BoundedFifo(c: Config, r: Run, q: nat)
    requires ValidConfig(c) && IsRun(c, r) && q < Stages(c)
    ensures var s := r.last;
      && |s.queues| == Stages(c)
      && |s.queues[q].items| <= c.caps[q]
      && s.queues[q].popped + s.queues[q].items == s.queues[q].pushed
  {
    RunInv(c, r);
  }

  /** A thread that can move without a spurious wake-up. */
  ghost predicate CanStep(c: Config, s: State, t: Tid) {
    TypeOk(c, s) && t in s.pc && exists w, s' :: Step(c, s, s', t, w)
  }

  lemma HolderCanStep(c: Config, s: State, t: Tid)
    requires Inv(c, s) && ValidConfig(c) && t in s.pc && Holds(s.pc[t].phase)
    ensures CanStep(c, s, t)
  {
    var p, q := s.pc[t], s.pc[t].queue;
    var queue := s.queues[q];
    match p.phase
    case Test =>
      var m := if Blocked(c, s, q, p.op) then (queue.(owner := None), p.(phase := Parked)) else (queue, p.(phase := Act));
      assert Step(c, s, State(s.queues[q := m.0], s.pc[t := m.1]), t, {});
    case Act =>
      var a := Acted(queue, p);
      assert Step(c, s, State(s.queues[q := a.0], s.pc[t := a.1]), t, {});
    case Signal =>
      var w := Who(s, q, Other(p.op), Asleep);
      assert Step(c, s, State(s.queues, WakeAll(s.pc, w)[t := p.(phase := Unlock)]), t, w);
    case Unlock =>
      var n := c.stage[t];
      var p' := if p.op.Push? then (if n == 0 then Pc(0, Push, Lock, 0) else Pc(n - 1, Pop, Lock, 0))
                else if n < Stages(c) then Pc(n, Push, Lock, c.work(n, p.val)) else Pc(n - 1, Pop, Lock, 0);
      assert NextPc(c, t, p, p');
      assert Step(c, s, State(s.queues[q := queue.(owner := None)], s.pc[t := p']), t, {});
  }

  lemma WaiterCanStep(c: Config, s: State, t: Tid)
    requires Inv(c, s) && t in s.pc && (s.pc[t].phase == Lock || s.pc[t].phase == Woken)
    requires s.queues[s.pc[t].queue].owner == None
    ensures CanStep(c, s, t)
  {
    var p, q := s.pc[t], s.pc[t].queue;
    assert Step(c, s, State(s.queues[q := s.queues[q].(owner := Some(t))], s.pc[t := p.(phase := Test)]), t, {});
  }

  /** If every thread is parked, the queues are empty from the last one back to the first. */
  lemma {:induction false} AllParkedEmpty(c: Config, s: State, q: nat)
    requires ValidConfig(c) && Staffed(c) && Inv(c, s) && q < Stages(c)
    requires forall t :: t in s.pc ==> s.pc[t].phase == Parked
    ensures s.queues[q].items == []
    decreases Stages(c) - q
  {
    assert Worker(c, q + 1);
    var t :| t in c.stage && c.stage[t] == q + 1;
    if s.pc[t].op.Push? {
      AllParkedEmpty(c, s, q + 1);
      ParkedRoom(c, s, t);
    } else {
      ParkedRoom(c, s, t);
    }
  }

  lemma ParkedRoom(c: Config, s: State, t: Tid)
    requires Inv(c, s) && t in s.pc && forall t :: t in s.pc ==> s.pc[t].phase == Parked
    ensures Room(c, s, s.pc[t].queue, s.pc[t].op) <= 0
  {
    var q, op := s.pc[t].queue, s.pc[t].op;
    assert NoLostWakeup(c, s, q, op);
    assert t in Who(s, q, op, Asleep);
    assert Who(s, q, op, Claiming) == {} && Who(s, q, Other(op), Owing) == {};
  }

  lemma NotAllParked(c: Config, s: State)
    requires ValidConfig(c) && Staffed(c) && Inv(c, s)
    ensures exists t :: t in s.pc && s.pc[t].phase != Parked
  {
    if forall t :: t in s.pc ==> s.pc[t].phase == Parked {
      assert Worker(c, 0);
      var t :| t in c.stage && c.stage[t] == 0;
      AllParkedEmpty(c, s, 0);
      ParkedRoom(c, s, t);
    }
  }

  /** No interleaving ever leaves all threads stuck, even if no thread ever wakes without a signal. */
  lemma DeadlockFree(c: Config, r: Run)
    requires ValidConfig(c) && Staffed(c) && IsRun(c, r)
    ensures exists t :: CanStep(c, r.last, t)
  {
    var s := r.last;
    RunInv(c, r);
    NotAllParked(c, s);
    var t :| t in s.pc && s.pc[t].phase != Parked;
    var owner := s.queues[s.pc[t].queue].owner;
    if owner.Some? {
      HolderCanStep(c, s, owner.value);
    } else {
      WaiterCanStep(c, s, t);
    }
  }

  // ---------- What comes out of the chain ----------

  /** One thread on each stage between the first and the last, as in `main.cc`. */
  ghost predicate SoleWorkers(c: Config) {
    forall t, u :: t in c.stage && u in c.stage && c.stage[t] == c.stage[u] && 1 <= c.stage[t] < Stages(c) ==> t == u
  }

  ghost function Worked(c: Config, k: nat, vs: seq<int>): (r: seq<int>) {
    seq(|vs|, i requires 0 <= i < |vs| => c.work(k, vs[i]))
  }

  /** A value between its pop from one queue and its push into the next. */
  ghost function InHand(c: Config, k: nat, p: Pc): seq<int> {
    if p.op.Pop? && (p.phase == Signal || p.phase == Unlock) then [c.work(k, p.val)]
    else if p.op.Push? && p.phase != Signal && p.phase != Unlock then [p.val]
    else []
  }

  /** The worker `t` has pushed what it made of everything it popped, except what it has in hand. */
  ghost predicate Relays(c: Config, s: State, t: Tid)
    requires TypeOk(c, s) && t in s.pc && 1 <= c.stage[t] < Stages(c)
  {
    var k := c.stage[t];
    s.queues[k].pushed + InHand(c, k, s.pc[t]) == Worked(c, k, s.queues[k - 1].popped)
  }

  /** How one move changes the histories of the queues and what threads have in hand. */
  ghost predicate Effect(c: Config, s: State, s': State, t: Tid)
    requires TypeOk(c, s) && TypeOk(c, s') && t in s.pc
  {
    var p, p', k := s.pc[t], s'.pc[t], c.stage[t];
    && (forall q :: 0 <= q < |s.queues| && q != p.queue ==> s'.queues[q] == s.queues[q])
    && (forall u :: u in s.pc && u != t ==> InHand(c, c.stage[u], s'.pc[u]) == InHand(c, c.stage[u], s.pc[u]))
    && var a, b := s.queues[p.queue], s'.queues[p.queue];
    if p.phase == Act && p.op.Push? then
      b.pushed == a.pushed + [p.val] && b.popped == a.popped && InHand(c, k, p') == []
    else if p.phase == Act then
      && a.items != [] && b.pushed == a.pushed && b.popped == a.popped + [a.items[0]]
      && InHand(c, k, p') == [c.work(k, a.items[0])]
    else
      b.pushed == a.pushed && b.popped == a.popped && (1 <= k < Stages(c) ==> InHand(c, k, p') == InHand(c, k, p))
  }

  lemma MoveEffect(c: Config, s: State, s': State, t: Tid, w: set<Tid>)
    requires Basics(c, s) && TypeOk(c, s') && t in s.pc && (Step(c, s, s', t, w) || Spurious(s, s', t))
    ensures Effect(c, s, s', t)
  {
    match s.pc[t].phase
    case Signal => SignalEffect(c, s, s', t, w);
    case Unlock => UnlockEffect(c, s, s', t, w);
    case Act =>
      var a := Acted(s.queues[s.pc[t].queue], s.pc[t]);
      MovedEffect(c, s, s', t, a.0, a.1);
    case Parked => ParkedEffect(c, s, s', t);
    case _ => QuietEffect(c, s, s', t, w);
  }

  lemma ParkedEffect(c: Config, s: State, s': State, t: Tid)
    requires TypeOk(c, s) && TypeOk(c, s') && t in s.pc && s.pc[t].phase == Parked && Spurious(s, s', t)
    ensures Effect(c, s, s', t)
  {}

  lemma UnlockEffect(c: Config, s: State, s': State, t: Tid, w: set<Tid>)
    requires TypeOk(c, s) && TypeOk(c, s') && t in s.pc && s.pc[t].phase == Unlock && Step(c, s, s', t, w)
    ensures Effect(c, s, s', t)
  {
    var p, queue := s.pc[t], s.queues[s.pc[t].queue];
    var p' :| NextPc(c, t, p, p') && Moved(c, s, s', t, queue.(owner := None), p');
    MovedEffect(c, s, s', t, queue.(owner := None), p');
  }

  lemma QuietEffect(c: Config, s: State, s': State, t: Tid, w: set<Tid>)
    requires TypeOk(c, s) && TypeOk(c, s') && t in s.pc && Step(c, s, s', t, w)
    requires s.pc[t].phase == Lock || s.pc[t].phase == Woken || s.pc[t].phase == Test
    ensures Effect(c, s, s', t)
  {
    MovedEffect(c, s, s', t, s'.queues[s.pc[t].queue], s'.pc[t]);
  }

  lemma SignalEffect(c: Config, s: State, s': State, t: Tid, w: set<Tid>)
    requires TypeOk(c, s) && TypeOk(c, s') && t in s.pc && s.pc[t].phase == Signal && Step(c, s, s', t, w)
    ensures Effect(c, s, s', t)
  {}

  lemma MovedEffect(c: Config, s: State, s': State, t: Tid, queue: Queue, p: Pc)
    requires TypeOk(c, s) && TypeOk(c, s') && t in s.pc && Moved(c, s, s', t, queue, p)
    requires var a, p0, k := s.queues[s.pc[t].queue], s.pc[t], c.stage[t];
      if p0.phase == Act then (p0.op.Pop? ==> a.items != []) && queue == Acted(a, p0).0 && p == Acted(a, p0).1
      else queue.pushed == a.pushed && queue.popped == a.popped && (1 <= k < Stages(c) ==> InHand(c, k, p) == InHand(c, k, p0))
    ensures Effect(c, s, s', t)
  {}

  lemma OwnMoveRelays(c: Config, s: State, s': State, t: Tid)
    requires TypeOk(c, s) && TypeOk(c, s') && t in s.pc && 1 <= c.stage[t] < Stages(c)
    requires Effect(c, s, s', t) && Relays(c, s, t)
    ensures Relays(c, s', t)
  {
    var k, p := c.stage[t], s.pc[t];
    if p.phase == Act && p.op.Pop? {
      var v, vs := s.queues[k - 1].items[0], s.queues[k - 1].popped;
      WorkedOneMore(c, k, vs, v);
    }
  }

  lemma WorkedOneMore(c: Config, k: nat, vs: seq<int>, v: int)
    ensures Worked(c, k, vs + [v]) == Worked(c, k, vs) + [c.work(k, v)]
  {}

  lemma OtherMoveRelays(c: Config, s: State, s': State, t: Tid, u: Tid)
    requires TypeOk(c, s) && TypeOk(c, s') && t in s.pc && u in s.pc && c.stage[t] != c.stage[u]
    requires 1 <= c.stage[u] < Stages(c) && Relays(c, s, u) && Effect(c, s, s', t)
    ensures Relays(c, s', u)
  {
    var k := c.stage[u];
    assert s'.queues[k].pushed == s.queues[k].pushed;
    assert s'.queues[k - 1].popped == s.queues[k - 1].popped;
  }

  lemma {:induction false} RunRelays(c: Config, r: Run, u: Tid)
    requires ValidConfig(c) && SoleWorkers(c) && IsRun(c, r)
    requires u in c.stage && 1 <= c.stage[u] < Stages(c)
    ensures TypeOk(c, r.last) && Relays(c, r.last, u)
    decreases r
  {
    match r
    case Start(s) => assert Worked(c, c.stage[u], []) == [];
    case Then(b, s) =>
      RunRelays(c, b, u);
      var t, w := LastMove(c, b, s);
      MoveRelays(c, b.last, s, t, w, u);
  }

  /** The thread that made the last step of a run. */
  lemma LastMove(c: Config, b: Run, s: State) returns (t: Tid, w: set<Tid>)
    requires ValidConfig(c) && IsRun(c, Then(b, s))
    ensures Basics(c, b.last) && TypeOk(c, s) && t in b.last.pc && (Step(c, b.last, s, t, w) || Spurious(b.last, s, t))
  {
    RunInv(c, b);
    RunInv(c, Then(b, s));
    t, w :| Move(c, b.last, s, t, w);
  }

  lemma MoveRelays(c: Config, s: State, s': State, t: Tid, w: set<Tid>, u: Tid)
    requires SoleWorkers(c) && Basics(c, s) && TypeOk(c, s') && t in s.pc && u in s.pc
    requires (Step(c, s, s', t, w) || Spurious(s, s', t)) && 1 <= c.stage[u] < Stages(c) && Relays(c, s, u)
    ensures Relays(c, s', u)
  {
    MoveEffect(c, s, s', t, w);
    if u == t { OwnMoveRelays(c, s, s', t); } else { OtherMoveRelays(c, s, s', t, u); }
  }

  /** What all stages up to `k` make of a value put in at the front. */
  ghost function Through(c: Config, k: nat, v: int): int {
    if k == 0 then v else c.work(k, Through(c, k - 1, v))
  }

  /** All workers relay, in a state with its queues in order. */
  ghost predicate AllRelay(c: Config, s: State) {
    && TypeOk(c, s) && Contents(c, s)
    && forall u :: u in c.stage && 1 <= c.stage[u] < Stages(c) ==> Relays(c, s, u)
  }

  lemma RunAllRelay(c: Config, r: Run)
    requires ValidConfig(c) && SoleWorkers(c) && IsRun(c, r)
    ensures AllRelay(c, r.last)
  {
    RunInv(c, r);
    forall u | u in c.stage && 1 <= c.stage[u] < Stages(c) ensures Relays(c, r.last, u) {
      RunRelays(c, r, u);
    }
  }

  /** Everything pushed into queue `k` comes, in order, from the values pushed into queue 0. */
  lemma {:induction false} PushedThrough(c: Config, s: State, k: nat, i: nat)
    requires Staffed(c) && AllRelay(c, s) && k < Stages(c) && i < |s.queues[k].pushed|
    ensures i < |s.queues[0].pushed| && s.queues[k].pushed[i] == Through(c, k, s.queues[0].pushed[i])
    decreases k
  {
    if k > 0 {
      var t := StageWorker(c, k);
      SamePlace(c, k, s.queues[k].pushed, InHand(c, k, s.pc[t]), s.queues[k - 1], i);
      PushedThrough(c, s, k - 1, i);
    }
  }

  lemma StageWorker(c: Config, k: nat) returns (t: Tid)
    requires Staffed(c) && k < Stages(c)
    ensures t in c.stage && c.stage[t] == k
  {
    assert Worker(c, k);
    t :| t in c.stage && c.stage[t] == k;
  }

  /** What is pushed at a place was made of the value at the same place of the queue before. */
  lemma SamePlace(c: Config, k: nat, pushed: seq<int>, hand: seq<int>, before: Queue, i: nat)
    requires pushed + hand == Worked(c, k, before.popped) && before.popped + before.items == before.pushed
    requires i < |pushed|
    ensures i < |before.pushed| && pushed[i] == c.work(k, before.pushed[i])
  {
    assert pushed[i] == (pushed + hand)[i] && |pushed + hand| == |before.popped|;
    assert before.pushed[i] == before.popped[i];
  }

  /** The values leaving the last queue are the first values entering the first one, each worked on by every stage. */
  lemma PipelineOutput(c: Config, r: Run, i: nat)
    requires ValidConfig(c) && Staffed(c) && SoleWorkers(c) && IsRun(c, r)
    requires TypeOk(c, r.last) && i < |r.last.queues[Stages(c) - 1].popped|
    ensures i < |r.last.queues[0].pushed|
    ensures r.last.queues[Stages(c) - 1].popped[i] == Through(c, Stages(c) - 1, r.last.queues[0].pushed[i])
  {
    RunAllRelay(c, r);
    OutputThrough(c, r.last, i);
  }

  lemma OutputThrough(c: Config, s: State, i: nat)
    requires ValidConfig(c) && Staffed(c) && AllRelay(c, s) && i < |s.queues[Stages(c) - 1].popped|
    ensures i < |s.queues[0].pushed|
    ensures s.queues[Stages(c) - 1].popped[i] == Through(c, Stages(c) - 1, s.queues[0].pushed[i])
  {
    var k := Stages(c) - 1;
    assert s.queues[k].popped[i] == s.queues[k].pushed[i];
    PushedThrough(c, s, k, i);
  }
}
