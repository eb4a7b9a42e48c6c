/**
 `my_Http/ThreadPool.hpp` as a step machine: any number of workers run
 `ThreadRoutine`, any number of pushers run `Push_task`. The pusher signals after
 it has released the lock, so between the two another thread may take the task.
 Wake-ups are as in the block queue: a signal wakes at least one parked worker if
 there is one, and a worker may wake without a signal.
 */
module ThreadPool {
  import opened Common

  /** Where a thread is. Worker phases first, then pusher phases. */
  datatype Place =
    | WorkerLock | WorkerTest | WorkerParked | WorkerWoken | WorkerTake | WorkerUnlock | WorkerProcess
    | PusherLock | PusherAdd | PusherUnlock | PusherSignal

  /** `task` is the task to push, or the task a worker holds. */
  datatype Thread = Thread(place: Place, task: int)

  /** Besides the queue: `called` are the tasks that `Push_task` was called with, `pushed` and `popped` those that
      entered and left the queue, `processed` those whose `Process_on` has returned. */
  datatype Pool = Pool(threads: map<Tid, Thread>, queue: seq<int>, owner: Option<Tid>, pushed: seq<int>, popped: seq<int>,
                       called: multiset<int>, processed: multiset<int>)

  predicate IsWorker(p: Place) {
    p in {WorkerLock, WorkerTest, WorkerParked, WorkerWoken, WorkerTake, WorkerUnlock, WorkerProcess}
  }

  predicate Inside(p: Place) {
    p == WorkerTest || p == WorkerTake || p == WorkerUnlock || p == PusherAdd || p == PusherUnlock
  }

  /** Parked; sure to look at the queue again before parking; has added a task and not signalled yet. */
  predicate InGroup(p: Place, g: Group) {
    match g
    case Asleep => p == WorkerParked
    case Claiming => p == WorkerWoken || p == WorkerTest || p == WorkerTake
    case Owing => p == PusherUnlock || p == PusherSignal
  }

  ghost function Those(s: Pool, g: Group): set<Tid> {
    set t | t in s.threads && InGroup(s.threads[t].place, g)
  }

  /** With a caller that has not added its task yet; with a worker that has not finished it. */
  datatype Hand = Caller | Runner

  predicate Carries(p: Place, h: Hand) {
    match h
    case Caller => p == PusherLock || p == PusherAdd
    case Runner => p == WorkerUnlock || p == WorkerProcess
  }

  ghost predicate CarriedBy(threads: map<Tid, Thread>, t: Tid, h: Hand, task: int) {
    t in threads && Carries(threads[t].place, h) && threads[t].task == task
  }

  /** How often a task is in those hands, among the threads below `n`. */
  ghost function Carried(threads: map<Tid, Thread>, h: Hand, task: int, n: nat): nat {
    if n == 0 then 0 else Carried(threads, h, task, n - 1) + Bit(CarriedBy(threads, n - 1, h, task))
  }

  ghost predicate Below(s: Pool, n: nat) {
    forall t :: t in s.threads ==> t < n
  }

  // ---------- Steps ----------

  ghost predicate Initial(s: Pool) {
    && s.queue == [] && s.owner == None && s.pushed == [] && s.popped == []
    && s.processed == multiset{} && (forall n, task :: Below(s, n) ==> s.called[task] == Carried(s.threads, Caller, task, n))
    && forall t :: t in s.threads ==> s.threads[t].place == WorkerLock || s.threads[t].place == PusherLock
  }

  ghost function Put(s: Pool, t: Tid, th: Thread): Pool {
    s.(threads := s.threads[t := th])
  }

  ghost function Awake(s: Pool, w: set<Tid>): Pool {
    s.(threads := map t | t in s.threads :: if t in w then s.threads[t].(place := WorkerWoken) else s.threads[t])
  }

  /** One statement of thread `t`; a signal wakes the workers `w`. */
  ghost predicate PoolStep(s: Pool, s': Pool, t: Tid, w: set<Tid>)
    requires t in s.threads
  {
    var th := s.threads[t];
    match th.place
    case WorkerLock => s.owner == None && s' == Put(s, t, th.(place := WorkerTest)).(owner := Some(t))
    case WorkerTest =>
      if s.queue == [] then s' == Put(s, t, th.(place := WorkerParked)).(owner := None)
      else s' == Put(s, t, th.(place := WorkerTake))
    case WorkerParked => false
    case WorkerWoken => s.owner == None && s' == Put(s, t, th.(place := WorkerTest)).(owner := Some(t))
    case WorkerTake =>
      && s.queue != []
      && s' == Put(s, t, Thread(WorkerUnlock, s.queue[0])).(queue := s.queue[1..], popped := s.popped + [s.queue[0]])
    case WorkerUnlock => s' == Put(s, t, th.(place := WorkerProcess)).(owner := None)
    case WorkerProcess => s' == Put(s, t, th.(place := WorkerLock)).(processed := s.processed + multiset{th.task})
    case PusherLock => s.owner == None && s' == Put(s, t, th.(place := PusherAdd)).(owner := Some(t))
    case PusherAdd =>
      s' == Put(s, t, th.(place := PusherUnlock)).(queue := s.queue + [th.task], pushed := s.pushed + [th.task])
    case PusherUnlock => s' == Put(s, t, th.(place := PusherSignal)).(owner := None)
    case PusherSignal =>
      && w <= Those(s, Asleep) && (Those(s, Asleep) != {} ==> w != {})
      && exists task :: s' == Signalled(s, t, w, task)
  }

  /** The signal has been sent and the pusher comes with its next task. */
  ghost function Signalled(s: Pool, t: Tid, w: set<Tid>, task: int): Pool {
    Put(Awake(s, w), t, Thread(PusherLock, task)).(called := s.called + multiset{task})
  }

  ghost predicate PoolSpurious(s: Pool, s': Pool, t: Tid)
    requires t in s.threads
  {
    s.threads[t].place == WorkerParked && s' == Put(s, t, s.threads[t].(place := WorkerWoken))
  }

  ghost predicate PoolMove(s: Pool, s': Pool, t: Tid, w: set<Tid>) {
    t in s.threads && (PoolStep(s, s', t, w) || PoolSpurious(s, s', t))
  }

  ghost predicate PoolNext(s: Pool, s': Pool) {
    exists t, w :: PoolMove(s, s', t, w)
  }

  ghost predicate StepOf(s: Pool, s': Pool, t: Tid, w: set<Tid>) {
    t in s.threads && PoolStep(s, s', t, w)
  }

  /** Some thread moves, and not by a wake-up without a signal. */
  ghost predicate Stepped(s: Pool, s': Pool) {
    exists t, w :: StepOf(s, s', t, w)
  }

  lemma SteppedIsNext(s: Pool, s': Pool)
    requires Stepped(s, s')
    ensures PoolNext(s, s')
  {
    var t, w :| StepOf(s, s', t, w);
    assert PoolMove(s, s', t, w);
  }

  // ---------- The invariant ----------

  /** The lock is held exactly by the thread inside; tasks leave once each, in push order. */
  ghost predicate Orderly(s: Pool) {
    && (forall t :: t in s.threads ==> (Inside(s.threads[t].place) <==> s.owner == Some(t)))
    && (s.owner.Some? ==> s.owner.value in s.threads)
    && s.popped + s.queue == s.pushed
    && (forall t :: t in s.threads && s.threads[t].place == WorkerTake ==> s.queue != [])
  }

  /** While a worker is parked, every queued task has an awake worker or a signal still owed. */
  ghost predicate Covered(s: Pool) {
    Those(s, Asleep) != {} ==> |s.queue| <= |Those(s, Claiming)| + |Those(s, Owing)|
  }

  ghost predicate PoolInv(s: Pool) {
    Orderly(s) && Covered(s)
  }

  lemma PutGroup(s: Pool, s': Pool, t: Tid, th: Thread, g: Group)
    requires t in s.threads && s'.threads == s.threads[t := th]
    ensures |Those(s', g)| == |Those(s, g)| + Bit(InGroup(th.place, g)) - Bit(InGroup(s.threads[t].place, g))
    ensures Those(s', g) != {} && Those(s, g) == {} ==> InGroup(th.place, g)
  {
    var a, b := Those(s, g), Those(s', g);
    assert forall u :: u in s.threads && u != t ==> s'.threads[u] == s.threads[u];
    assert a - {t} == b - {t};
    OneElement(a, b, t);
  }

  /** One thread moves and the queue grows or shrinks to match. */
  lemma PutCovered(s: Pool, s': Pool, t: Tid, th: Thread)
    requires t in s.threads && s'.threads == s.threads[t := th] && Covered(s)
    requires InGroup(th.place, Asleep) ==> s'.queue == []
    requires
      || s'.queue == []
      || |s'.queue| - |s.queue| <= Bit(InGroup(th.place, Claiming)) - Bit(InGroup(s.threads[t].place, Claiming))
                                   + Bit(InGroup(th.place, Owing)) - Bit(InGroup(s.threads[t].place, Owing))
    ensures Covered(s')
  {
    PutGroup(s, s', t, th, Asleep);
    PutGroup(s, s', t, th, Claiming);
    PutGroup(s, s', t, th, Owing);
  }

  lemma AwakeGroups(s: Pool, w: set<Tid>)
    requires w <= Those(s, Asleep)
    ensures Those(Awake(s, w), Asleep) == Those(s, Asleep) - w
    ensures |Those(Awake(s, w), Claiming)| == |Those(s, Claiming)| + |w|
    ensures Those(Awake(s, w), Owing) == Those(s, Owing)
  {
    AwakeClaiming(s, w);
  }

  lemma AwakeClaiming(s: Pool, w: set<Tid>)
    requires w <= Those(s, Asleep)
    ensures |Those(Awake(s, w), Claiming)| == |Those(s, Claiming)| + |w|
  {
    assert Those(s, Claiming) !! w;
    assert Those(Awake(s, w), Claiming) == Those(s, Claiming) + w;
  }

  /** A signal after the unlock: the debt is paid by a worker that is now awake, or nobody was parked. */
  lemma SignalCovered(s: Pool, s': Pool, t: Tid, w: set<Tid>)
    requires t in s.threads && s.threads[t].place == PusherSignal && PoolStep(s, s', t, w) && Covered(s)
    ensures Covered(s')
  {
    var m := Awake(s, w);
    var task :| s' == Signalled(s, t, w, task);
    AwakeGroups(s, w);
    assert t !in w;
    PutGroup(m, s', t, Thread(PusherLock, task), Asleep);
    PutGroup(m, s', t, Thread(PusherLock, task), Claiming);
    PutGroup(m, s', t, Thread(PusherLock, task), Owing);
  }

  lemma StepCovered(s: Pool, s': Pool, t: Tid, w: set<Tid>)
    requires t in s.threads && (PoolStep(s, s', t, w) || PoolSpurious(s, s', t)) && PoolInv(s)
    ensures Covered(s')
  {
    if s.threads[t].place == PusherSignal {
      SignalCovered(s, s', t, w);
    } else {
      PutCovered(s, s', t, s'.threads[t]);
    }
  }

  /** Threads that are inside or outside stay so unless they are the one that moves. */
  lemma PutOrderly(s: Pool, s': Pool, t: Tid, th: Thread)
    requires Orderly(s) && t in s.threads && s'.threads == s.threads[t := th]
    requires s.owner == None || s.owner == Some(t) || (s'.owner == s.owner && !Inside(th.place) && s'.queue == s.queue)
    requires s'.owner == if Inside(th.place) then Some(t) else if s.owner == Some(t) then None else s.owner
    requires s'.popped + s'.queue == s'.pushed && (th.place == WorkerTake ==> s'.queue != [])
    ensures Orderly(s')
  {
    assert forall u :: u in s.threads && u != t ==> s'.threads[u] == s.threads[u];
  }

  lemma AwakeOrderly(s: Pool, w: set<Tid>)
    requires Orderly(s) && w <= Those(s, Asleep)
    ensures Orderly(Awake(s, w))
  {
    var s' := Awake(s, w);
    forall u | u in s.threads
      ensures Inside(s'.threads[u].place) == Inside(s.threads[u].place)
      ensures s'.threads[u].place == WorkerTake ==> s.threads[u].place == WorkerTake
    {
      if u in w { assert u in Those(s, Asleep); }
    }
  }

  lemma SignalOrderly(s: Pool, s': Pool, t: Tid, w: set<Tid>)
    requires t in s.threads && s.threads[t].place == PusherSignal && PoolStep(s, s', t, w) && Orderly(s)
    ensures Orderly(s')
  {
    var task :| s' == Signalled(s, t, w, task);
    AwakeOrderly(s, w);
    PutOrderly(Awake(s, w), s', t, Thread(PusherLock, task));
  }

  lemma StepOrderly(s: Pool, s': Pool, t: Tid, w: set<Tid>)
    requires t in s.threads && (PoolStep(s, s', t, w) || PoolSpurious(s, s', t)) && Orderly(s)
    ensures Orderly(s')
  {
    var th := s.threads[t];
    match th.place
    case PusherSignal => SignalOrderly(s, s', t, w);
    case WorkerTake => TakeOrderly(s, s', t);
    case PusherAdd => AddOrderly(s, s', t);
    case _ => PutOrderly(s, s', t, s'.threads[t]);
  }

  lemma TakeOrderly(s: Pool, s': Pool, t: Tid)
    requires t in s.threads && s.threads[t].place == WorkerTake && PoolStep(s, s', t, {}) && Orderly(s)
    ensures Orderly(s')
  {
    assert s'.popped + s'.queue == s.popped + ([s.queue[0]] + s.queue[1..]);
    PutOrderly(s, s', t, Thread(WorkerUnlock, s.queue[0]));
  }

  lemma AddOrderly(s: Pool, s': Pool, t: Tid)
    requires t in s.threads && s.threads[t].place == PusherAdd && PoolStep(s, s', t, {}) && Orderly(s)
    ensures Orderly(s')
  {
    assert s'.popped + s'.queue == s.popped + s.queue + [s.threads[t].task];
    PutOrderly(s, s', t, s.threads[t].(place := PusherUnlock));
  }

  // ---------- Where every task is ----------

  ghost predicate Conserved(s: Pool, task: int, n: nat) {
    && multiset(s.pushed)[task] + Carried(s.threads, Caller, task, n) == s.called[task]
    && s.processed[task] + Carried(s.threads, Runner, task, n) == multiset(s.popped)[task]
  }

  /** One thread takes up or lays down a task. */
  lemma {:induction false} CarriedPut(a: map<Tid, Thread>, b: map<Tid, Thread>, t: Tid, h: Hand, task: int, n: nat)
    requires forall u :: u != t ==> CarriedBy(b, u, h, task) == CarriedBy(a, u, h, task)
    ensures Carried(b, h, task, n) ==
      Carried(a, h, task, n) + if t < n then Bit(CarriedBy(b, t, h, task)) - Bit(CarriedBy(a, t, h, task)) else 0
  {
    if n > 0 { CarriedPut(a, b, t, h, task, n - 1); }
  }

  /** In every step, only the thread that moves changes what it carries. */
  lemma StepCarried(s: Pool, s': Pool, t: Tid, w: set<Tid>, h: Hand, task: int, n: nat)
    requires PoolMove(s, s', t, w) && t < n
    ensures Carried(s'.threads, h, task, n) ==
      Carried(s.threads, h, task, n) + Bit(CarriedBy(s'.threads, t, h, task)) - Bit(CarriedBy(s.threads, t, h, task))
  {
    forall u | u != t ensures CarriedBy(s'.threads, u, h, task) == CarriedBy(s.threads, u, h, task) {
      OtherCarries(s, s', t, w, h, task, u);
    }
    CarriedPut(s.threads, s'.threads, t, h, task, n);
  }

  lemma OtherCarries(s: Pool, s': Pool, t: Tid, w: set<Tid>, h: Hand, task: int, u: Tid)
    requires PoolMove(s, s', t, w) && u != t
    ensures CarriedBy(s'.threads, u, h, task) == CarriedBy(s.threads, u, h, task)
  {
    if s.threads[t].place == PusherSignal {
      if u in w { assert u in Those(s, Asleep); }
    }
  }

  /** A move takes at most one task along, and only from one place to the next. */
  lemma StepConserved(s: Pool, s': Pool, t: Tid, w: set<Tid>, task: int, n: nat)
    requires PoolMove(s, s', t, w) && t < n && Conserved(s, task, n)
    ensures Conserved(s', task, n)
  {
    StepCarried(s, s', t, w, Caller, task, n);
    StepCarried(s, s', t, w, Runner, task, n);
    TaskMoves(s, s', t, w, task);
  }

  /** What the logs gain is what the thread lays down. */
  ghost predicate Moved(s: Pool, s': Pool, t: Tid, task: int) {
    && multiset(s'.pushed)[task] + Bit(CarriedBy(s'.threads, t, Caller, task)) - s'.called[task]
       == multiset(s.pushed)[task] + Bit(CarriedBy(s.threads, t, Caller, task)) - s.called[task]
    && s'.processed[task] + Bit(CarriedBy(s'.threads, t, Runner, task)) - multiset(s'.popped)[task]
       == s.processed[task] + Bit(CarriedBy(s.threads, t, Runner, task)) - multiset(s.popped)[task]
  }

  lemma OneMore(a: seq<int>, x: int, task: int)
    ensures multiset(a + [x])[task] == multiset(a)[task] + Bit(x == task)
  {}

  lemma TaskMoves(s: Pool, s': Pool, t: Tid, w: set<Tid>, task: int)
    requires PoolMove(s, s', t, w)
    ensures Moved(s, s', t, task)
  {
    var th := s.threads[t];
    match th.place
    case WorkerTake => OneMore(s.popped, s.queue[0], task); TakeMoves(s, s', t, task);
    case PusherAdd => OneMore(s.pushed, th.task, task); AddMoves(s, s', t, task);
    case WorkerProcess => ProcessMoves(s, s', t, task);
    case PusherSignal => CallMoves(s, s', t, w, task);
    case _ => QuietMoves(s, s', t, w, task);
  }

  lemma TakeMoves(s: Pool, s': Pool, t: Tid, task: int)
    requires t in s.threads && s.threads[t].place == WorkerTake && PoolStep(s, s', t, {})
    requires multiset(s.popped + [s.queue[0]])[task] == multiset(s.popped)[task] + Bit(s.queue[0] == task)
    ensures Moved(s, s', t, task)
  {}

  lemma AddMoves(s: Pool, s': Pool, t: Tid, task: int)
    requires t in s.threads && s.threads[t].place == PusherAdd && PoolStep(s, s', t, {})
    requires multiset(s.pushed + [s.threads[t].task])[task] == multiset(s.pushed)[task] + Bit(s.threads[t].task == task)
    ensures Moved(s, s', t, task)
  {}

  lemma ProcessMoves(s: Pool, s': Pool, t: Tid, task: int)
    requires t in s.threads && s.threads[t].place == WorkerProcess && PoolStep(s, s', t, {})
    ensures Moved(s, s', t, task)
  {}

  lemma CallMoves(s: Pool, s': Pool, t: Tid, w: set<Tid>, task: int)
    requires t in s.threads && s.threads[t].place == PusherSignal && PoolStep(s, s', t, w)
    ensures Moved(s, s', t, task)
  {}

  ghost predicate Quiet(p: Place) {
    p != WorkerTake && p != PusherAdd && p != WorkerProcess && p != PusherSignal
  }

  lemma QuietStep(s: Pool, s': Pool, t: Tid, w: set<Tid>)
    requires PoolMove(s, s', t, w) && Quiet(s.threads[t].place)
    ensures s'.pushed == s.pushed && s'.popped == s.popped && s'.called == s.called && s'.processed == s.processed
    ensures t in s'.threads && s'.threads[t].task == s.threads[t].task
    ensures forall h :: Carries(s'.threads[t].place, h) == Carries(s.threads[t].place, h)
  {}

  lemma QuietMoves(s: Pool, s': Pool, t: Tid, w: set<Tid>, task: int)
    requires PoolMove(s, s', t, w) && Quiet(s.threads[t].place)
    ensures Moved(s, s', t, task)
  {
    QuietStep(s, s', t, w);
    assert forall h :: CarriedBy(s'.threads, t, h, task) == CarriedBy(s.threads, t, h, task);
  }

  // ---------- Whole runs ----------

  datatype History = Fresh(now: Pool) | After(before: History, now: Pool)

  ghost predicate IsHistory(r: History) {
    match r
    case Fresh(s) => Initial(s)
    case After(b, s) => IsHistory(b) && PoolNext(b.now, s)
  }

  lemma {:induction false} HistoryInv(r: History)
    requires IsHistory(r)
    ensures PoolInv(r.now)
  {
    match r
    case Fresh(s) => assert Those(s, Asleep) == {};
    case After(b, s) =>
      HistoryInv(b);
      var t, w :| PoolMove(b.now, s, t, w);
      StepOrderly(b.now, s, t, w);
      StepCovered(b.now, s, t, w);
  }

  /** Each task is taken at most once, and tasks are taken in the order they were pushed. */
  lemma TakenInOrder(r: History)
    requires IsHistory(r)
    ensures r.now.popped + r.now.queue == r.now.pushed
  {
    HistoryInv(r);
  }

  lemma SameThreads(s: Pool, s': Pool, t: Tid, w: set<Tid>)
    requires PoolMove(s, s', t, w)
    ensures s'.threads.Keys == s.threads.Keys
  {}

  lemma {:induction false} HistoryConserved(r: History, task: int, n: nat)
    requires IsHistory(r) && Below(r.now, n)
    ensures Conserved(r.now, task, n)
  {
    match r
    case Fresh(s) => NoRunner(s.threads, task, n);
    case After(b, s) =>
      var t, w :| PoolMove(b.now, s, t, w);
      SameThreads(b.now, s, t, w);
      HistoryConserved(b, task, n);
      StepConserved(b.now, s, t, w, task, n);
  }

  lemma {:induction false} NoRunner(threads: map<Tid, Thread>, task: int, n: nat)
    requires forall t :: t in threads ==> !Carries(threads[t].place, Runner)
    ensures Carried(threads, Runner, task, n) == 0
  {
    if n > 0 { NoRunner(threads, task, n - 1); }
  }

  /**
   As often as `Push_task` was called with a task, so often it is found with its caller, in
   the queue, with a worker, or processed: none is lost, doubled or exchanged for another.
   */
  lemma EveryTaskOnce(r: History, task: int, n: nat)
    requires IsHistory(r) && Below(r.now, n)
    ensures r.now.called[task] == Carried(r.now.threads, Caller, task, n) + multiset(r.now.queue)[task]
                                  + Carried(r.now.threads, Runner, task, n) + r.now.processed[task]
  {
    HistoryConserved(r, task, n);
    TakenInOrder(r);
    assert multiset(r.now.popped + r.now.queue) == multiset(r.now.popped) + multiset(r.now.queue);
  }

  /** No task is stranded: if one is queued while every worker sleeps, a pusher still owes a signal. */
  lemma NoStrandedTask(r: History)
    requires IsHistory(r) && r.now.queue != []
    requires exists t :: t in r.now.threads && IsWorker(r.now.threads[t].place)
    requires forall t :: t in r.now.threads && IsWorker(r.now.threads[t].place) ==> r.now.threads[t].place == WorkerParked
    ensures exists t :: t in r.now.threads && InGroup(r.now.threads[t].place, Owing)
  {
    var s := r.now;
    HistoryInv(r);
    var t :| t in s.threads && IsWorker(s.threads[t].place);
    assert t in Those(s, Asleep);
    assert Those(s, Claiming) == {};
    assert Those(s, Owing) != {};
    var u :| u in Those(s, Owing);
  }

  // ---------- A queued task can always be taken ----------

  ghost predicate Waiting(p: Place) {
    p == WorkerLock || p == WorkerWoken
  }

  /** How many steps the task at the front of the queue is from being taken, at most. */
  ghost function Rank(s: Pool): (rank: nat)
    ensures rank <= 6
  {
    if s.owner.Some? && s.owner.value in s.threads then
      match s.threads[s.owner.value].place
      case WorkerTake => 1
      case WorkerTest => 2
      case PusherAdd => 6
      case _ => 5
    else if exists t :: t in s.threads && Waiting(s.threads[t].place) then 3
    else 4
  }

  ghost predicate HasWorker(s: Pool) {
    exists t :: t in s.threads && IsWorker(s.threads[t].place)
  }

  /** A worker has just taken this task off the queue. */
  ghost predicate HeldByWorker(s: Pool, task: int) {
    exists t :: t in s.threads && s.threads[t] == Thread(WorkerUnlock, task)
  }

  /** `task` has been taken, as the next one after `before`. */
  ghost predicate Handed(s: Pool, before: seq<int>, task: int) {
    s.popped == before + [task] && HeldByWorker(s, task)
  }

  /** A step that takes the task at the front of the queue, or brings it nearer to being taken. */
  ghost predicate Helps(s: Pool, s': Pool) {
    && s.queue != [] && HasWorker(s')
    && (|| Handed(s', s.popped, s.queue[0])
        || (s'.popped == s.popped && s'.queue != [] && s'.queue[0] == s.queue[0] && Rank(s') < Rank(s)))
  }

  /** The holder of the lock takes the task, or goes on to let another thread in. */
  lemma HolderHelps(s: Pool) returns (s': Pool)
    requires PoolInv(s) && s.queue != [] && HasWorker(s) && s.owner.Some?
    ensures Stepped(s, s') && Helps(s, s')
  {
    var t := s.owner.value;
    var th := s.threads[t];
    match th.place {
      case WorkerTest => s' := Put(s, t, th.(place := WorkerTake));
      case WorkerTake =>
        s' := Put(s, t, Thread(WorkerUnlock, s.queue[0])).(queue := s.queue[1..], popped := s.popped + [s.queue[0]]);
      case WorkerUnlock => s' := Put(s, t, th.(place := WorkerProcess)).(owner := None);
      case PusherAdd =>
        s' := Put(s, t, th.(place := PusherUnlock)).(queue := s.queue + [th.task], pushed := s.pushed + [th.task]);
      case PusherUnlock => s' := Put(s, t, th.(place := PusherSignal)).(owner := None);
    }
    assert StepOf(s, s', t, {});
    assert th.place == WorkerTake ==> s'.threads[t] == Thread(WorkerUnlock, s.queue[0]);
    StillWorker(s, s', t);
  }

  lemma StillWorker(s: Pool, s': Pool, t: Tid)
    requires HasWorker(s) && t in s.threads && s'.threads.Keys == s.threads.Keys
    requires forall u :: u in s.threads && u != t && IsWorker(s.threads[u].place) ==> IsWorker(s'.threads[u].place)
    requires IsWorker(s.threads[t].place) ==> IsWorker(s'.threads[t].place)
    ensures HasWorker(s')
  {
    var u :| u in s.threads && IsWorker(s.threads[u].place);
    assert u in s'.threads && IsWorker(s'.threads[u].place);
  }

  lemma LockHelps(s: Pool, t: Tid) returns (s': Pool)
    requires PoolInv(s) && s.queue != [] && HasWorker(s) && s.owner == None && t in s.threads
    requires Waiting(s.threads[t].place)
    ensures Stepped(s, s') && Helps(s, s')
  {
    s' := Put(s, t, s.threads[t].(place := WorkerTest)).(owner := Some(t));
    assert StepOf(s, s', t, {});
    StillWorker(s, s', t);
  }

  lemma ProcessHelps(s: Pool, t: Tid) returns (s': Pool)
    requires PoolInv(s) && s.queue != [] && HasWorker(s) && s.owner == None && t in s.threads
    requires s.threads[t].place == WorkerProcess
    requires forall u :: u in s.threads ==> !Waiting(s.threads[u].place)
    ensures Stepped(s, s') && Helps(s, s')
  {
    s' := Put(s, t, s.threads[t].(place := WorkerLock)).(processed := s.processed + multiset{s.threads[t].task});
    assert StepOf(s, s', t, {});
    assert t in s'.threads && Waiting(s'.threads[t].place);
    StillWorker(s, s', t);
  }

  lemma SignalHelps(s: Pool, u: Tid) returns (s': Pool)
    requires PoolInv(s) && s.queue != [] && HasWorker(s) && s.owner == None && u in s.threads
    requires s.threads[u].place == PusherSignal
    requires Those(s, Asleep) != {} && forall t :: t in s.threads ==> !Waiting(s.threads[t].place)
    ensures Stepped(s, s') && Helps(s, s')
  {
    var w := Those(s, Asleep);
    s' := Signalled(s, u, w, 0);
    assert StepOf(s, s', u, w);
    var t :| t in w;
    assert t in s'.threads && Waiting(s'.threads[t].place);
    StillWorker(s, s', u);
  }

  /** With the lock free, an awake worker gets nearer to the lock, or a pusher signals. */
  lemma OtherHelps(s: Pool) returns (s': Pool)
    requires PoolInv(s) && s.queue != [] && HasWorker(s) && s.owner == None
    ensures Stepped(s, s') && Helps(s, s')
  {
    if t :| t in s.threads && Waiting(s.threads[t].place) {
      s' := LockHelps(s, t);
    } else if t :| t in s.threads && s.threads[t].place == WorkerProcess {
      s' := ProcessHelps(s, t);
    } else {
      var u := OwingPusher(s);
      s' := SignalHelps(s, u);
    }
  }

  /** If all workers are parked while a task is queued, a pusher is about to signal. */
  lemma OwingPusher(s: Pool) returns (u: Tid)
    requires PoolInv(s) && s.queue != [] && HasWorker(s) && s.owner == None
    requires forall t :: t in s.threads ==> !Waiting(s.threads[t].place) && s.threads[t].place != WorkerProcess
    ensures u in s.threads && s.threads[u].place == PusherSignal && Those(s, Asleep) != {}
  {
    var t :| t in s.threads && IsWorker(s.threads[t].place);
    assert t in Those(s, Asleep);
    assert Those(s, Claiming) == {};
    assert Those(s, Owing) != {};
    u :| u in Those(s, Owing);
  }

  /** `r'` continues `r` by `n` steps, none of them a wake-up without a signal. */
  ghost predicate Continues(r: History, r': History, n: nat) {
    if n == 0 then r' == r else r'.After? && Stepped(r'.before.now, r'.now) && Continues(r, r'.before, n - 1)
  }

  lemma {:induction false} ContinuesFrom(r: History, s: Pool, r': History, n: nat, n': nat)
    requires Stepped(r.now, s) && Continues(After(r, s), r', n) && n' == n + 1
    ensures Continues(r, r', n')
  {
    if n == 0 {
      assert Continues(r, r'.before, 0);
    } else {
      ContinuesFrom(r, s, r'.before, n - 1, n);
    }
  }

  lemma HelpfulStep(r: History) returns (s': Pool)
    requires IsHistory(r) && r.now.queue != [] && HasWorker(r.now)
    ensures Stepped(r.now, s') && Helps(r.now, s') && IsHistory(After(r, s'))
  {
    HistoryInv(r);
    if r.now.owner.Some? { s' := HolderHelps(r.now); } else { s' := OtherHelps(r.now); }
    SteppedIsNext(r.now, s');
  }

  lemma {:induction false} TakenWithin(r: History, before: seq<int>, task: int) returns (r': History, n: nat)
    requires IsHistory(r) && r.now.queue != [] && HasWorker(r.now) && r.now.popped == before && r.now.queue[0] == task
    ensures IsHistory(r') && Continues(r, r', n) && n <= Rank(r.now) && Handed(r'.now, before, task)
    decreases Rank(r.now)
  {
    var s' := HelpfulStep(r);
    var next := After(r, s');
    if Handed(s', before, task) {
      assert Continues(next, next, 0);
      ContinuesFrom(r, s', next, 0, 1);
      r', n := next, 1;
    } else {
      var m;
      r', m := TakenWithin(next, before, task);
      n := m + 1;
      ContinuesFrom(r, s', r', m, n);
    }
  }

  /**
   Whatever has happened, a queued task is never out of reach: as long as there is a
   worker, at most six further steps, none of them a wake-up without a signal, hand the
   task at the front of the queue to a worker.
   */
  lemma QueuedTaskTaken(r: History) returns (r': History, n: nat)
    requires IsHistory(r) && r.now.queue != [] && HasWorker(r.now)
    ensures IsHistory(r') && Continues(r, r', n) && n <= Rank(r.now) <= 6
    ensures r'.now.popped == r.now.popped + [r.now.queue[0]]
    ensures exists t :: t in r'.now.threads && r'.now.threads[t] == Thread(WorkerUnlock, r.now.queue[0])
  {
    r', n := TakenWithin(r, r.now.popped, r.now.queue[0]);
  }
}
