/**
 The sending side of a `Connection` of `Reactor_http/source/server.hpp`: data to send is
 appended to an output buffer and write events are monitored; each write event hands
 bytes to the socket; the connection is released once it is shutting down and the buffer
 is empty, or when writing fails. How many bytes the socket takes, whether unread input
 is waiting and what the callbacks send are inputs of the model.
 */
module ConnectionOutput {
  import opened ByteBuffer

  datatype Status = Disconnected | Connecting | Connected | Disconnecting

  /** The sending side as a value: `watching` is the channel's `WriteAble()`, `closed` says that the socket was
      closed and the channel removed, `sent` is what the socket took, `queued` all that was accepted for sending. */
  datatype Out =
    Out(status: Status, watching: bool, closed: bool, pending: seq<Byte>, sent: seq<Byte>, queued: seq<Byte>)

  /** `Writable(n, …)`: the socket would take up to `n` bytes, or fails when `n` is negative. `replies`
      is what the callback sends if it is called; the message callback is when input is waiting. */
  datatype Event =
    | Establish(replies: seq<seq<Byte>>)
    | Send(data: seq<Byte>)
    | Writable(n: int, input: bool, replies: seq<seq<Byte>>)
    | Shutdown(input: bool, replies: seq<seq<Byte>>)
    | Close(input: bool, replies: seq<seq<Byte>>)

  ghost function Sent(s: Out, data: seq<Byte>): Out {
    if s.status == Disconnected then s
    else s.(pending := s.pending + data, queued := s.queued + data, watching := true)
  }

  ghost function SentAll(s: Out, replies: seq<seq<Byte>>): Out
    decreases |replies|
  {
    if replies == [] then s else SentAll(Sent(s, replies[0]), replies[1..])
  }

  /** The message callback, when there is input for it. */
  ghost function Answered(s: Out, input: bool, replies: seq<seq<Byte>>): Out {
    if input then SentAll(s, replies) else s
  }

  /** Removing the channel leaves its flags as they are. */
  ghost function Released(s: Out): Out {
    s.(status := Disconnected, closed := true)
  }

  ghost function Taken(s: Out, k: nat): Out
    requires k <= |s.pending|
  {
    s.(sent := s.sent + s.pending[..k], pending := s.pending[k..])
  }

  /** The `assert` of `EsTablishedInLoop` fails. */
  predicate Aborts(status: Status, e: Event) {
    e.Establish? && status != Connecting
  }

  ghost function Step(s: Out, e: Event): Out
    requires !Aborts(s.status, e)
  {
    match e
    case Establish(replies) => SentAll(s.(status := Connected), replies)
    case Send(data) => Sent(s, data)
    case Writable(n, input, replies) =>
      if n < 0 then Released(Answered(s, input, replies))
      else
        var s1 := Taken(s, if n <= |s.pending| then n else |s.pending|);
        if s1.pending != [] then s1
        else if s1.status == Disconnecting then Released(s1.(watching := false))
        else s1.(watching := false)
    case Shutdown(input, replies) =>
      var s1 := Answered(s.(status := Disconnecting), input, replies);
      if s1.pending == [] then Released(s1) else s1.(watching := true)
    case Close(input, replies) => Released(Answered(s, input, replies))
  }

  /** Events until there are no more or the program aborts. */
  ghost function Run(s: Out, events: seq<Event>): Out
    decreases |events|
  {
    if events == [] || Aborts(s.status, events[0]) then s else Run(Step(s, events[0]), events[1..])
  }

  /** All bytes are accounted for and waiting bytes are flagged. A closed connection is
      disconnected, or was told to shut down after that, with bytes it cannot send. */
  ghost predicate Inv(s: Out) {
    && s.sent + s.pending == s.queued
    && (s.pending != [] ==> s.watching)
    && (s.status == Disconnected ==> s.closed)
    && (s.closed && s.status != Disconnected ==> s.status == Disconnecting && s.pending != [])
  }

  lemma SentInv(s: Out, data: seq<Byte>)
    requires s.sent + s.pending == s.queued && (s.pending != [] ==> s.watching)
    ensures var s' := Sent(s, data); s'.sent + s'.pending == s'.queued && (s'.pending != [] ==> s'.watching)
  {
    assert s.sent + (s.pending + data) == s.sent + s.pending + data;
  }

  /** Sending accounts for all bytes, flags waiting ones and changes neither status nor socket. */
  lemma {:induction false} SentAllInv(s: Out, replies: seq<seq<Byte>>)
    requires s.sent + s.pending == s.queued && (s.pending != [] ==> s.watching)
    ensures var s' := SentAll(s, replies);
      && s'.sent + s'.pending == s'.queued && (s'.pending != [] ==> s'.watching)
      && s'.status == s.status && s'.closed == s.closed
      && (s'.pending != [] <==> s.pending != [] || (s.status != Disconnected && Something(replies)))
    decreases |replies|
  {
    if replies != [] {
      SentInv(s, replies[0]);
      SentAllInv(Sent(s, replies[0]), replies[1..]);
    }
  }

  /** The bytes of all replies, in order. */
  ghost function Joined(replies: seq<seq<Byte>>): seq<Byte>
    decreases |replies|
  {
    if replies == [] then [] else replies[0] + Joined(replies[1..])
  }

  /** Sending replies one by one queues their bytes in order, unless the connection is released. */
  lemma {:induction false} SentAllJoined(s: Out, replies: seq<seq<Byte>>)
    ensures SentAll(s, replies) ==
      if s.status == Disconnected || replies == [] then s
      else s.(pending := s.pending + Joined(replies), queued := s.queued + Joined(replies), watching := true)
    decreases |replies|
  {
    if replies != [] {
      SentAllJoined(Sent(s, replies[0]), replies[1..]);
      assert s.pending + replies[0] + Joined(replies[1..]) == s.pending + Joined(replies);
      assert s.queued + replies[0] + Joined(replies[1..]) == s.queued + Joined(replies);
      if replies[1..] == [] { assert replies[0] + [] == replies[0]; }
    }
  }

  /** Some byte string is not empty. */
  ghost predicate Something(replies: seq<seq<Byte>>)
    decreases |replies|
  {
    replies != [] && (replies[0] != [] || Something(replies[1..]))
  }

  lemma TakenInv(s: Out, k: nat)
    requires s.sent + s.pending == s.queued && k <= |s.pending|
    ensures Taken(s, k).sent + Taken(s, k).pending == s.queued
  {
    assert s.pending == s.pending[..k] + s.pending[k..];
    assert s.sent + s.pending[..k] + s.pending[k..] == s.sent + s.pending;
  }

  lemma StepInv(s: Out, e: Event)
    requires Inv(s) && !Aborts(s.status, e)
    ensures Inv(Step(s, e))
  {
    match e
    case Establish(replies) => SentAllInv(s.(status := Connected), replies);
    case Send(data) => SentInv(s, data);
    case Writable(n, input, replies) =>
      SentAllInv(s, replies);
      if n >= 0 { TakenInv(s, if n <= |s.pending| then n else |s.pending|); }
    case Shutdown(input, replies) => SentAllInv(s.(status := Disconnecting), replies);
    case Close(input, replies) => SentAllInv(s, replies);
  }

  /** On every run: what the socket took, then what is waiting, is all that was queued; and waiting bytes are
      flagged. */
  lemma {:induction false} RunInv(s: Out, events: seq<Event>)
    requires Inv(s)
    ensures Inv(Run(s, events))
    decreases |events|
  {
    if events != [] && !Aborts(s.status, events[0]) {
      StepInv(s, events[0]);
      RunInv(Step(s, events[0]), events[1..]);
    }
  }

  /** Bytes that wait on a connection that is not released are on an open socket whose write events are monitored. */
  ghost predicate Attended(s: Out) {
    s.status != Disconnected && s.pending != [] ==> s.watching && !s.closed
  }

  /** A shutdown that reaches a released connection with bytes left, or an answer to give. */
  ghost predicate Late(s: Out, e: Event) {
    e.Shutdown? && s.closed && (s.pending != [] || (e.input && Something(e.replies)))
  }

  lemma StepAttended(s: Out, e: Event)
    requires Inv(s) && Attended(s) && !Aborts(s.status, e)
    ensures Attended(Step(s, e)) <==> !Late(s, e)
  {
    StepInv(s, e);
    match e
    case Establish(replies) => SentAllInv(s.(status := Connected), replies);
    case Send(data) =>
    case Writable(n, input, replies) =>
    case Shutdown(input, replies) => SentAllInv(s.(status := Disconnecting), replies);
    case Close(input, replies) =>
  }

  ghost predicate AlwaysAttended(s: Out, events: seq<Event>)
    decreases |events|
  {
    && Attended(s)
    && (events != [] && !Aborts(s.status, events[0]) ==> AlwaysAttended(Step(s, events[0]), events[1..]))
  }

  ghost predicate NeverLate(s: Out, events: seq<Event>)
    decreases |events|
  {
    events != [] && !Aborts(s.status, events[0]) ==>
      !Late(s, events[0]) && NeverLate(Step(s, events[0]), events[1..])
  }

  /** Waiting bytes are attended to throughout a run exactly if no shutdown comes late. */
  lemma {:induction false} RunAttended(s: Out, events: seq<Event>)
    requires Inv(s) && Attended(s)
    ensures AlwaysAttended(s, events) <==> NeverLate(s, events)
    ensures NeverLate(s, events) ==> Attended(Run(s, events))
    decreases |events|
  {
    if events != [] && !Aborts(s.status, events[0]) {
      StepInv(s, events[0]);
      StepAttended(s, events[0]);
      if !Late(s, events[0]) {
        RunAttended(Step(s, events[0]), events[1..]);
      }
    }
  }

  /** A failed write releases the connection with a byte left; a shutdown after that leaves it closing, with a byte
      that no write event will come for. */
  lemma LateShutdown()
    ensures var s := Out(Connecting, false, false, [], [], []);
      var events := [Establish([]), Send([1]), Writable(-1, false, []), Shutdown(false, [])];
      Run(s, events) == Out(Disconnecting, true, true, [1], [], [1]) && !Attended(Run(s, events))
  {
    var s, b: Byte := Out(Connecting, false, false, [], [], []), 1;
    var e0, e1, e2, e3 := Establish([]), Send([b]), Writable(-1, false, []), Shutdown(false, []);
    var events := [e0, e1, e2, e3];
    assert events[1..] == [e1, e2, e3] && [e1, e2, e3][1..] == [e2, e3] && [e2, e3][1..] == [e3];
    var s1 := Step(s, e0);
    var s2 := Step(s1, e1);
    assert s2 == Out(Connected, true, false, [b], [], [b]);
    var s3 := Step(s2, e2);
    assert Run(s3, [e3]) == Run(Step(s3, e3), []);
    assert Run(s2, [e2, e3]) == Run(s3, [e3]);
    assert Run(s1, [e1, e2, e3]) == Run(s2, [e2, e3]);
  }

  /** No failed write and no hang-up. */
  ghost predicate Clean(e: Event) {
    !e.Close? && (e.Writable? ==> e.n >= 0)
  }

  /** On runs without a failed write or a hang-up, a released connection has sent all that was queued. */
  lemma {:induction false} NothingLost(s: Out, events: seq<Event>)
    requires Inv(s) && (s.status == Disconnected ==> s.pending == [])
    requires forall i :: 0 <= i < |events| ==> Clean(events[i])
    ensures var s' := Run(s, events); s'.status == Disconnected ==> s'.pending == [] && s'.sent == s'.queued
    decreases |events|
  {
    if events == [] || Aborts(s.status, events[0]) {
      assert s.sent + [] == s.sent;
    } else {
      StepInv(s, events[0]);
      CleanStep(s, events[0]);
      NothingLost(Step(s, events[0]), events[1..]);
    }
  }

  lemma CleanStep(s: Out, e: Event)
    requires Inv(s) && (s.status == Disconnected ==> s.pending == []) && Clean(e) && !Aborts(s.status, e)
    ensures Step(s, e).status == Disconnected ==> Step(s, e).pending == []
  {
    match e
    case Establish(replies) => SentAllInv(s.(status := Connected), replies);
    case Send(data) =>
    case Writable(n, input, replies) => if s.pending == [] { assert s.pending[0..] == []; }
    case Shutdown(input, replies) => SentAllInv(s.(status := Disconnecting), replies);
  }

  /** Data to send, or a write event that does not fail. */
  ghost predicate Flows(e: Event) {
    e.Send? || (e.Writable? && e.n >= 0)
  }

  /** What the events ask to send, in order. */
  ghost function Data(events: seq<Event>): seq<Byte>
    decreases |events|
  {
    if events == [] then [] else (if events[0].Send? then events[0].data else []) + Data(events[1..])
  }

  /** How many of `b` waiting bytes and those that come are left over by what the write events offer to take. */
  ghost function Backlog(b: nat, events: seq<Event>): nat
    decreases |events|
  {
    if events == [] then b
    else
      match events[0]
      case Send(data) => Backlog(b + |data|, events[1..])
      case Writable(n, _, _) => Backlog(if n <= 0 then b else if n < b then b - n else 0, events[1..])
      case _ => b
  }

  /** The data was queued, and `b` bytes are waiting. */
  ghost predicate Flowed(s: Out, s': Out, data: seq<Byte>, b: nat) {
    s'.status == s.status && s'.queued == s.queued + data && s'.sent + s'.pending == s'.queued && |s'.pending| == b
  }

  lemma FlowedTwice(s: Out, s1: Out, s2: Out, d1: seq<Byte>, d2: seq<Byte>, d: seq<Byte>, b1: nat, b2: nat)
    requires Flowed(s, s1, d1, b1) && Flowed(s1, s2, d2, b2) && d == d1 + d2
    ensures Flowed(s, s2, d, b2)
  {
    assert s.queued + d1 + d2 == s.queued + d;
  }

  /** All of the data was taken but the bytes waiting. */
  lemma FlowedSent(s: Out, s': Out, data: seq<Byte>, b: nat)
    requires Flowed(s, s', data, b)
    ensures b <= |s'.queued| && s'.sent == s'.queued[..|s'.queued| - b]
  {}

  /** As long as nothing fails or shuts down, what is queued is exactly the data sent, and the socket has taken all of
      it but the backlog. */
  lemma {:induction false} Flow(s: Out, events: seq<Event>)
    requires s.sent + s.pending == s.queued && (s.status == Connecting || s.status == Connected)
    requires forall i :: 0 <= i < |events| ==> Flows(events[i])
    ensures Flowed(s, Run(s, events), Data(events), Backlog(|s.pending|, events))
    decreases |events|
  {
    if events == [] {
      assert s.queued + [] == s.queued;
    } else {
      var s1 := Step(s, events[0]);
      FlowStep(s, events[0]);
      Flow(s1, events[1..]);
      var d1 := if events[0].Send? then events[0].data else [];
      FlowedTwice(s, s1, Run(s, events), d1, Data(events[1..]), Data(events), |s1.pending|, Backlog(|s.pending|, events));
    }
  }

  lemma FlowStep(s: Out, e: Event)
    requires s.sent + s.pending == s.queued && (s.status == Connecting || s.status == Connected) && Flows(e)
    ensures Flowed(s, Step(s, e), if e.Send? then e.data else [],
                   if e.Send? then |s.pending| + |e.data| else if e.n < |s.pending| then |s.pending| - e.n else 0)
  {
    if e.Send? {
      assert s.sent + (s.pending + e.data) == s.sent + s.pending + e.data;
    } else {
      TakenInv(s, if e.n <= |s.pending| then e.n else |s.pending|);
      assert s.queued + [] == s.queued;
    }
  }

  /** Only write events, none of which fails. */
  ghost predicate AllWrites(events: seq<Event>)
    decreases |events|
  {
    events == [] || (events[0].Writable? && events[0].n >= 0 && AllWrites(events[1..]))
  }

  /** How many bytes write events offer to take. */
  ghost function Offered(events: seq<Event>): nat
    requires AllWrites(events)
    decreases |events|
  {
    if events == [] then 0 else events[0].n + Offered(events[1..])
  }

  /** A connection that shuts down sends on, byte by byte in order, and is released with the last byte. */
  lemma {:induction false} ShutdownFlow(s: Out, events: seq<Event>)
    requires Inv(s) && s.status == Disconnecting && s.pending != []
    requires AllWrites(events)
    ensures var s', k := Run(s, events), Offered(events);
      && s'.queued == s.queued
      && if k < |s.pending| then s'.status == Disconnecting && s'.sent == s.sent + s.pending[..k]
         else s'.status == Disconnected && s'.closed && !s'.watching && s'.sent == s'.queued
    decreases |events|
  {
    if events == [] {
      assert s.sent + s.pending[..0] == s.sent;
    } else {
      var n, s1 := events[0].n, Step(s, events[0]);
      StepInv(s, events[0]);
      if n < |s.pending| {
        ShutdownFlow(s1, events[1..]);
        TakenTwice(s, n, Offered(events[1..]));
      } else {
        NothingLeft(s1, events[1..], s.queued);
        RunInv(s, events);
      }
    }
  }

  lemma TakenTwice(s: Out, n: nat, k: nat)
    requires n <= |s.pending|
    ensures n + k <= |s.pending| ==> s.sent + s.pending[..n] + s.pending[n..][..k] == s.sent + s.pending[..n + k]
  {
    if n + k <= |s.pending| { assert s.pending[..n] + s.pending[n..][..k] == s.pending[..n + k]; }
  }

  /** Released with nothing left. */
  ghost predicate Finished(s: Out, queued: seq<Byte>) {
    s.status == Disconnected && s.closed && |s.pending| == 0 && !s.watching && s.queued == queued
  }

  lemma IdleWrite(s: Out, e: Event, queued: seq<Byte>)
    requires Finished(s, queued) && e.Writable? && e.n >= 0
    ensures Finished(Step(s, e), queued)
  {
    WriteCounts(s, e);
  }

  /** What a write event does, but for the bytes. */
  lemma WriteCounts(s: Out, e: Event)
    requires e.Writable? && e.n >= 0
    ensures var s' := Step(s, e);
      && |s'.pending| == (if e.n < |s.pending| then |s.pending| - e.n else 0) && s'.queued == s.queued
      && (e.n < |s.pending| ==> s'.status == s.status && s'.closed == s.closed && s'.watching == s.watching)
      && (e.n >= |s.pending| ==> !s'.watching && (s.status == Disconnected ==> s'.status == Disconnected)
                                 && (s.closed || s.status == Disconnecting ==> s'.closed))
  {}

  /** Write events do nothing more to a released connection that has nothing left. */
  lemma {:induction false} NothingLeft(s: Out, events: seq<Event>, queued: seq<Byte>)
    requires Finished(s, queued) && AllWrites(events)
    ensures Finished(Run(s, events), queued)
    decreases |events|
  {
    if events != [] {
      IdleWrite(s, events[0], queued);
      NothingLeft(Step(s, events[0]), events[1..], queued);
    }
  }

  /** All that is promised of a run. */
  lemma RunFacts(s: Out, events: seq<Event>)
    requires Inv(s)
    ensures var s' := Run(s, events);
      && Inv(s') && (Attended(s) && NeverLate(s, events) ==> Attended(s'))
      && ((s.status == Disconnected ==> s.pending == []) && (forall i :: 0 <= i < |events| ==> Clean(events[i]))
          ==> (s'.status == Disconnected ==> s'.sent == s'.queued))
      && ((s.status == Connecting || s.status == Connected) && (forall i :: 0 <= i < |events| ==> Flows(events[i]))
          ==> var b := Backlog(|s.pending|, events);
              s'.queued == s.queued + Data(events) && b <= |s'.queued| && s'.sent == s'.queued[..|s'.queued| - b])
  {
    RunInv(s, events);
    if (s.status == Connecting || s.status == Connected) && forall i :: 0 <= i < |events| ==> Flows(events[i]) {
      Flow(s, events);
      FlowedSent(s, Run(s, events), Data(events), Backlog(|s.pending|, events));
    }
    if Attended(s) { RunAttended(s, events); }
    if (s.status == Disconnected ==> s.pending == []) && forall i :: 0 <= i < |events| ==> Clean(events[i]) {
      NothingLost(s, events);
    }
  }

  /** Nothing was handed to the socket; the replies, if they were accepted, are queued behind the bytes that wait. */
  ghost predicate Answers(s: Out, s': Out, accepted: bool, replies: seq<seq<Byte>>) {
    var more := if accepted then Joined(replies) else [];
    s'.sent == s.sent && s'.queued == s.queued + more && s'.pending == s.pending + more
  }

  lemma AnswersSentAll(s: Out, s': Out, replies: seq<seq<Byte>>)
    requires s' == SentAll(s, replies)
    ensures Answers(s, s', s.status != Disconnected, replies) && s'.status == s.status && s'.closed == s.closed
  {
    SentAllJoined(s, replies);
    assert s.queued + [] == s.queued && s.pending + [] == s.pending;
  }

  class Connection {
    var status: Status
    var watching: bool
    var closed: bool
    const out: Buffer
    ghost var sent: seq<Byte>
    ghost var queued: seq<Byte>

    ghost predicate Valid()
      reads this, out, out.bytes
    {
      out.Valid()
    }

    ghost function View(): Out
      requires Valid()
      reads this, out, out.bytes
    {
      Out(status, watching, closed, out.Contents(), sent, queued)
    }

    constructor ()
      ensures Valid() && View() == Out(Connecting, false, false, [], [], []) && fresh(out) && fresh(out.bytes)
    {
      out := new Buffer();
      status, watching, closed, sent, queued := Connecting, false, false, [], [];
    }

    /** `ReleaseInLoop`: the channel is removed from the poller and the socket closed. */
    method ReleaseInLoop()
      requires Valid()
      modifies this
      ensures Valid() && View() == Released(old(View()))
      ensures status == Disconnected && closed && watching == old(watching)
    {
      status, closed := Disconnected, true;
    }

    /** `SendInLoop`. */
    method SendInLoop(data: seq<Byte>)
      requires Valid()
      modifies this, out, out.bytes
      ensures Valid() && View() == Sent(old(View()), data) && (out.bytes == old(out.bytes) || fresh(out.bytes))
      ensures status == old(status) && closed == old(closed) && sent == old(sent)
      ensures old(status) == Disconnected ==> queued == old(queued) && out.Contents() == old(out.Contents())
      ensures old(status) != Disconnected ==>
        queued == old(queued) + data && out.Contents() == old(out.Contents()) + data && watching
    {
      if status == Disconnected {
        return;
      }
      out.WriteAndPush(data);
      queued := queued + data;
      if !watching {
        watching := true;
      }
    }

    /** A callback sends its replies. */
    method Answer(replies: seq<seq<Byte>>)
      requires Valid()
      modifies this, out, out.bytes
      ensures Valid() && View() == SentAll(old(View()), replies) && (out.bytes == old(out.bytes) || fresh(out.bytes))
      ensures Answers(old(View()), View(), old(status) != Disconnected, replies)
      ensures status == old(status) && closed == old(closed)
    {
      for i := 0 to |replies|
        invariant Valid() && (out.bytes == old(out.bytes) || fresh(out.bytes))
        invariant SentAll(View(), replies[i..]) == SentAll(old(View()), replies)
      {
        assert replies[i..][1..] == replies[i + 1..];
        SendInLoop(replies[i]);
      }
      AnswersSentAll(old(View()), View(), replies);
    }

    /** `EsTablishedInLoop`. */
    method EstablishedInLoop(replies: seq<seq<Byte>>)
      requires Valid() && status == Connecting
      modifies this, out, out.bytes
      ensures Valid() && View() == Step(old(View()), Establish(replies))
      ensures status == Connected && closed == old(closed) && Answers(old(View()), View(), true, replies)
      ensures out.bytes == old(out.bytes) || fresh(out.bytes)
    {
      status := Connected;
      Answer(replies);
    }

    /** `HandleWrite`. */
    method HandleWrite(n: int, input: bool, replies: seq<seq<Byte>>)
      requires Valid()
      modifies this, out, out.bytes
      ensures Valid() && View() == Step(old(View()), Writable(n, input, replies))
      ensures n < 0 ==> status == Disconnected && closed
      ensures n < 0 ==> Answers(old(View()), View(), input && old(status) != Disconnected, replies)
      ensures n >= 0 ==> var all := old(out.Contents()); var k := if n <= |all| then n else |all|;
        sent == old(sent) + all[..k] && out.Contents() == all[k..] && queued == old(queued)
      ensures n >= 0 && n < |old(out.Contents())| ==>
        status == old(status) && closed == old(closed) && watching == old(watching)
      ensures n >= |old(out.Contents())| ==> !watching
      ensures n >= |old(out.Contents())| ==>
        if old(status) == Disconnecting then status == Disconnected && closed
        else status == old(status) && closed == old(closed)
      ensures out.bytes == old(out.bytes) || fresh(out.bytes)
    {
      if n < 0 {
        if input {
          Answer(replies);
        }
        ReleaseInLoop();
        return;
      }
      var k := if n <= out.ReadableSize() then n else out.ReadableSize();
      sent := sent + out.Contents()[..k];
      out.MoveReadOffset(k);
      if out.ReadableSize() == 0 {
        watching := false;
        if status == Disconnecting {
          ReleaseInLoop();
        }
      }
    }

    /** `ShutdownInLoop`. */
    method ShutdownInLoop(input: bool, replies: seq<seq<Byte>>)
      requires Valid()
      modifies this, out, out.bytes
      ensures Valid() && View() == Step(old(View()), Shutdown(input, replies))
      ensures Answers(old(View()), View(), input, replies)
      ensures if out.Contents() == [] then status == Disconnected && closed
              else status == Disconnecting && closed == old(closed) && watching
      ensures out.bytes == old(out.bytes) || fresh(out.bytes)
    {
      status := Disconnecting;
      if input {
        Answer(replies);
      }
      if out.ReadableSize() > 0 {
        if !watching {
          watching := true;
        }
      }
      if out.ReadableSize() == 0 {
        ReleaseInLoop();
      }
    }

    /** `HandleClose`, and `HandleError`. */
    method HandleClose(input: bool, replies: seq<seq<Byte>>)
      requires Valid()
      modifies this, out, out.bytes
      ensures Valid() && View() == Step(old(View()), Close(input, replies))
      ensures status == Disconnected && closed
      ensures Answers(old(View()), View(), input && old(status) != Disconnected, replies)
      ensures out.bytes == old(out.bytes) || fresh(out.bytes)
    {
      if input {
        Answer(replies);
      }
      ReleaseInLoop();
    }

    /** One event. */
    method Handle(e: Event)
      requires Valid() && !Aborts(status, e)
      modifies this, out, out.bytes
      ensures Valid() && View() == Step(old(View()), e) && (out.bytes == old(out.bytes) || fresh(out.bytes))
    {
      match e
      case Establish(replies) => EstablishedInLoop(replies);
      case Send(data) => SendInLoop(data);
      case Writable(n, input, replies) => HandleWrite(n, input, replies);
      case Shutdown(input, replies) => ShutdownInLoop(input, replies);
      case Close(input, replies) => HandleClose(input, replies);
    }

    /**
     Any run of events. Bytes taken by the socket, then bytes waiting, are all bytes queued;
     waiting bytes are flagged, and attended to until release if no shutdown comes late;
     without a failed write or a hang-up, a connection that is released has sent everything;
     while nothing fails or shuts down, the socket has taken all data sent but the backlog.
     */
    method Play(events: seq<Event>) returns (handled: nat)
      requires Valid() && Inv(View())
      modifies this, out, out.bytes
      ensures Valid() && View() == Run(old(View()), events) && Inv(View())
      ensures handled <= |events| && (handled < |events| ==> Aborts(status, events[handled]))
      ensures sent + out.Contents() == queued && (out.Contents() != [] ==> watching)
      ensures old(Attended(View())) && NeverLate(old(View()), events)
        ==> (status != Disconnected && out.Contents() != [] ==> watching && !closed)
      ensures
        old(status == Disconnected ==> out.Contents() == []) && (forall i :: 0 <= i < |events| ==> Clean(events[i]))
        ==> (status == Disconnected ==> sent == queued)
      ensures old(status == Connecting || status == Connected) && (forall i :: 0 <= i < |events| ==> Flows(events[i]))
        ==> var b := Backlog(|old(out.Contents())|, events);
            queued == old(queued) + Data(events) && b <= |queued| && sent == queued[..|queued| - b]
    {
      handled := 0;
      while handled < |events| && !Aborts(status, events[handled])
        invariant handled <= |events| && Valid() && (out.bytes == old(out.bytes) || fresh(out.bytes))
        invariant Run(View(), events[handled..]) == Run(old(View()), events)
      {
        assert events[handled..][1..] == events[handled + 1..];
        Handle(events[handled]);
        handled := handled + 1;
      }
      RunFacts(old(View()), events);
    }
  }
}
