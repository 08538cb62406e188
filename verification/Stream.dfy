/** The event stream with a resume cursor (apps/cloud-api/src/stream.rs:73-156): a replay, then a live loop woken by
    notices that may be dropped, interleaved with appends, the notice fan-out and the client. */
module Stream {

  datatype Event = Event(offset: nat, body: string)

  // ---- the store -------------------------------------------------------------------------

  const I64_LIMIT: nat := 0x8000_0000_0000_0000
  const BATCH: nat := 500
  const QUEUE: nat := 4096

  /** A session's events carry the offsets 1, 2, 3, ... */
  ghost predicate IsLog(log: seq<Event>)
  {
    |log| < I64_LIMIT && forall i | 0 <= i < |log| :: log[i].offset == i + 1
  }

  /** The events an append adds after `from` of them (crates/event-store/src/cloud/mod.rs:1371-1374). */
  function NewEvents(from: nat, bodies: seq<string>): (r: seq<Event>)
    ensures |r| == |bodies| && forall i | 0 <= i < |r| :: r[i] == Event(from + i + 1, bodies[i])
  {
    seq(|bodies|, i requires 0 <= i < |bodies| => Event(from + i + 1, bodies[i]))
  }

  /** How many leading events a cursor covers before the log is consulted: the query casts the cursor to a signed
      64-bit integer, so one from 2^63 on is negative there and covers nothing. */
  function Start(cursor: nat): nat
  {
    if cursor < I64_LIMIT then cursor else 0
  }

  function Covered(log: seq<Event>, cursor: nat): (n: nat)
    ensures n <= |log|
  {
    if Start(cursor) < |log| then Start(cursor) else |log|
  }

  /** `events_after`: the events past the cursor, oldest first, at most one batch. */
  function EventsAfter(log: seq<Event>, cursor: nat): (batch: seq<Event>)
    ensures batch == [] <==> Covered(log, cursor) == |log|
    ensures batch <= log[Covered(log, cursor)..] && |batch| <= BATCH
  {
    var n := Covered(log, cursor);
    if |log| - n <= BATCH then log[n..] else log[n..n + BATCH]
  }

  // ---- the interleaved system -----------------------------------------------------------------

  /** Where the connection's task is. */
  datatype Phase =
    | Connecting                                 // not subscribed yet
    | Fetching                                   // about to call events_after
    | Sending(batch: seq<Event>)                 // inside the loop over a batch
    | Idle                                       // in the select
    | Closed

  /** `mine` notices are for this stream's session; the others are skipped. */
  datatype Notice = Mine | Other

  datatype State = State(
    log: seq<Event>,            // the session's committed events
    listening: bool,            // the process's notification connection is up
    pending: seq<Notice>,       // notified by the store, not yet fanned out
    phase: Phase,
    cursor: nat,
    queue: seq<Notice>,         // the receiver's retained notices
    lagged: bool,               // notices were dropped since the last receive
    wire: seq<Event>,           // sent, not yet seen by the client
    after: nat,                 // the cursor the client first connected with
    seen: seq<Event>)           // what the client has seen, over all its connections

  datatype Step =
    | Append(bodies: seq<string>) | AppendOther | ListenerFails
    | Fan | Subscribe | Fetch | FetchFails | Send | SendFails | Receive | Close
    | Deliver | Reconnect

  function LastSeen(s: State): nat
  {
    if s.seen == [] then s.after else s.seen[|s.seen|-1].offset
  }

  predicate Enabled(s: State, step: Step)
  {
    match step
    case Append(bodies) => |s.log| + |bodies| < I64_LIMIT
    case AppendOther => true
    case ListenerFails => s.listening
    case Fan => s.pending != []
    case Subscribe => s.phase.Connecting?
    case Fetch => s.phase.Fetching?
    case FetchFails => s.phase.Fetching?
    case Send => s.phase.Sending? && s.phase.batch != []
    case SendFails => s.phase.Sending? && s.phase.batch != []
    case Receive => s.phase.Idle? && (s.lagged || s.queue != [])
    case Close => !s.phase.Closed?
    case Deliver => s.wire != []
    case Reconnect => true
  }

  /** A notice reaches the receiver; past the channel's capacity the oldest is dropped and the receiver lags. */
  function Queued(s: State, n: Notice): State
  {
    if s.phase.Connecting? || s.phase.Closed? then s
    else if |s.queue| < QUEUE then s.(queue := s.queue + [n])
    else s.(queue := s.queue[1..] + [n], lagged := true)
  }

  function AfterBatch(rest: seq<Event>): Phase
  {
    if rest == [] then Fetching else Sending(rest)
  }

  function Do(s: State, step: Step): State
    requires Enabled(s, step)
  {
    match step
    case Append(bodies) =>
      s.(log := s.log + NewEvents(|s.log|, bodies), pending := if s.listening then s.pending + [Mine] else s.pending)
    case AppendOther => s.(pending := if s.listening then s.pending + [Other] else s.pending)
    case ListenerFails => s.(listening := false, pending := [])
    case Fan => Queued(s.(pending := s.pending[1..]), s.pending[0])
    case Subscribe => s.(phase := Fetching, queue := [], lagged := false)
    case Fetch =>
      var batch := EventsAfter(s.log, s.cursor);
      s.(phase := if batch == [] then Idle else Sending(batch))
    case FetchFails => s.(phase := Closed)
    case Send =>
      var e := s.phase.batch[0];
      s.(cursor := e.offset, wire := s.wire + [e], phase := AfterBatch(s.phase.batch[1..]))
    case SendFails => s.(cursor := s.phase.batch[0].offset, phase := Closed)
    case Receive =>
      if s.lagged then s.(lagged := false, phase := Fetching)
      else s.(queue := s.queue[1..], phase := if s.queue[0] == Mine then Fetching else Idle)
    case Close => s.(phase := Closed)
    case Deliver => s.(seen := s.seen + [s.wire[0]], wire := s.wire[1..])
    case Reconnect =>  // what was on the wire is lost; the client resumes at the last cursor it saw
      s.(phase := Connecting, cursor := LastSeen(s), wire := [], queue := [], lagged := false)
  }

  ghost predicate Init(s: State)
  {
    && IsLog(s.log) && s.listening && s.phase == Connecting && s.cursor == s.after
    && s.pending == [] && s.queue == [] && !s.lagged && s.wire == [] && s.seen == []
  }

  /** `t` follows from `s` by the enabled step. */
  predicate Takes(s: State, step: Step, t: State)
  {
    Enabled(s, step) && t == Do(s, step)
  }

  /** Each state of the run follows from the one before by an enabled step. */
  ghost predicate IsRun(run: seq<State>, steps: seq<Step>)
  {
    && |run| == |steps| + 1
    && forall i {:trigger steps[i]} | 0 <= i < |steps| :: Takes(run[i], steps[i], run[i+1])
  }

  // ---- the invariant --------------------------------------------------------------------------

  /** Everything sent to this client so far, seen or still on the wire. */
  function Sent(s: State): seq<Event>
  {
    s.seen + s.wire
  }

  /** `out` are consecutive events of the log from `start` on. */
  ghost predicate Consecutive(log: seq<Event>, start: nat, out: seq<Event>)
  {
    && (out != [] ==> start + |out| <= |log|)
    && forall i | 0 <= i < |out| :: out[i] == log[start + i]
  }

  /** The cursor after `n` events of a stream first asked for from `after`. */
  function CursorAt(after: nat, n: nat): nat
  {
    if n == 0 then after else Start(after) + n
  }

  ghost predicate Inv(s: State)
  {
    && IsLog(s.log)
    && Consecutive(s.log, Start(s.after), Sent(s))
    && (s.phase.Connecting? ==> s.wire == [])
    && (!s.phase.Closed? ==> s.cursor == CursorAt(s.after, |Sent(s)|))
    && (s.phase.Sending? ==> s.phase.batch != [] && Consecutive(s.log, Start(s.after), Sent(s) + s.phase.batch))
    && (s.phase.Idle? && s.listening ==>
          Covered(s.log, s.cursor) == |s.log| || Mine in s.pending || Mine in s.queue || s.lagged)
  }

  lemma InitInv(s: State)
    requires Init(s)
    ensures Inv(s)
  {
  }

  lemma CursorCovers(s: State)
    requires Inv(s) && !s.phase.Closed?
    ensures Sent(s) != [] ==> Covered(s.log, s.cursor) == Start(s.after) + |Sent(s)|
    ensures Sent(s) == [] ==> Covered(s.log, s.cursor) == Covered(s.log, s.after)
  {
  }

  lemma AppendKeeps(s: State, bodies: seq<string>)
    requires Inv(s) && Enabled(s, Append(bodies))
    ensures Inv(Do(s, Append(bodies)))
  {
    var t := Do(s, Append(bodies));
    if s.phase.Idle? && s.listening {
      assert t.pending[|s.pending|] == Mine;
    }
  }

  lemma FanKeeps(s: State)
    requires Inv(s) && Enabled(s, Fan)
    ensures Inv(Do(s, Fan))
  {
    var t := Do(s, Fan);
    assert s.pending == [s.pending[0]] + s.pending[1..];
    if s.phase.Idle? {
      assert t.queue[|t.queue|-1] == s.pending[0];
      if Mine in s.queue && !t.lagged { assert forall n | n in s.queue :: n in t.queue; }
    }
  }

  /** A batch continues what was sent before it. */
  lemma BatchContinues(log: seq<Event>, after: nat, out: seq<Event>)
    requires IsLog(log) && Consecutive(log, Start(after), out)
    ensures Consecutive(log, Start(after), out + EventsAfter(log, CursorAt(after, |out|)))
  {
    var batch := EventsAfter(log, CursorAt(after, |out|));
    var n := Covered(log, CursorAt(after, |out|));
    forall i | 0 <= i < |batch| ensures batch[i] == log[n + i] {
      assert batch[i] == log[n..][i];
    }
  }

  lemma FetchKeeps(s: State)
    requires Inv(s) && Enabled(s, Fetch)
    ensures Inv(Do(s, Fetch))
  {
    BatchContinues(s.log, s.after, Sent(s));
    var t := Do(s, Fetch);
    assert Sent(t) == Sent(s);
  }

  lemma SendKeeps(s: State)
    requires Inv(s) && Enabled(s, Send)
    ensures Inv(Do(s, Send))
  {
    var t := Do(s, Send);
    var batch := s.phase.batch;
    var k := |Sent(s)|;
    assert (Sent(s) + batch)[k] == batch[0];
    assert batch[0] == s.log[Start(s.after) + k];
    assert Sent(t) == Sent(s) + [batch[0]];
    assert Sent(t) + batch[1..] == Sent(s) + batch;
    forall i | 0 <= i < |Sent(t)| ensures Sent(t)[i] == s.log[Start(s.after) + i] {
      assert Sent(t)[i] == (Sent(s) + batch)[i];
    }
  }

  lemma DeliverKeeps(s: State)
    requires Inv(s) && Enabled(s, Deliver)
    ensures Inv(Do(s, Deliver)) && Sent(Do(s, Deliver)) == Sent(s)
  {
    assert s.seen + [s.wire[0]] + s.wire[1..] == s.seen + s.wire;
  }

  lemma ReconnectKeeps(s: State)
    requires Inv(s)
    ensures Inv(Do(s, Reconnect))
  {
    forall i | 0 <= i < |s.seen| ensures s.seen[i] == s.log[Start(s.after) + i] {
      assert Sent(s)[i] == s.seen[i];
    }
    assert s.seen + [] == s.seen;
  }

  lemma ReceiveKeeps(s: State)
    requires Inv(s) && Enabled(s, Receive)
    ensures Inv(Do(s, Receive))
  {
    if !s.lagged { assert s.queue == [s.queue[0]] + s.queue[1..]; }
  }

  lemma StepKeeps(s: State, step: Step)
    requires Inv(s) && Enabled(s, step)
    ensures Inv(Do(s, step))
  {
    match step
    case Append(bodies) => AppendKeeps(s, bodies);
    case AppendOther =>
    case ListenerFails =>
    case Fan => FanKeeps(s);
    case Subscribe =>
    case Fetch => FetchKeeps(s);
    case FetchFails =>
    case Send => SendKeeps(s);
    case SendFails =>
    case Receive => ReceiveKeeps(s);
    case Close =>
    case Deliver => DeliverKeeps(s);
    case Reconnect => ReconnectKeeps(s);
  }

  lemma {:induction false} RunKeeps(run: seq<State>, steps: seq<Step>)
    requires IsRun(run, steps) && Inv(run[0])
    ensures forall i | 0 <= i < |run| :: Inv(run[i])
  {
    if |steps| > 0 {
      var n := |steps| - 1;
      RunKeeps(run[..n+1], steps[..n]);
      assert run[..n+1][n] == run[n];
      StepKeeps(run[n], steps[n]);
      forall i | 0 <= i < |run| ensures Inv(run[i]) {
        if i <= n { assert run[..n+1][i] == run[i]; }
      }
    }
  }

  /** When nothing is left past the cursor, everything from the first cursor on was sent. */
  lemma NothingLeft(log: seq<Event>, after: nat, out: seq<Event>)
    requires IsLog(log) && Consecutive(log, Start(after), out)
    requires Covered(log, CursorAt(after, |out|)) == |log|
    ensures out == log[Covered(log, after)..]
  {
    if out != [] { assert Covered(log, after) == Start(after); }
  }

  // ---- the promises ---------------------------------------------------------------------------------

  /** On every run, over any number of reconnects, the client has seen consecutive events of the log from its
      first cursor on: in order, no gap, no duplicate. */
  lemma SeenIsConsecutive(run: seq<State>, steps: seq<Step>, i: nat)
    requires IsRun(run, steps) && Init(run[0]) && i < |run|
    ensures Consecutive(run[i].log, Start(run[i].after), run[i].seen)
    ensures run[i].after < I64_LIMIT && run[i].seen != [] ==>
      forall k | 0 <= k < |run[i].seen| :: run[i].seen[k].offset == run[i].after + k + 1
  {
    InitInv(run[0]);
    RunKeeps(run, steps);
    var s := run[i];
    assert Inv(s);
    forall k | 0 <= k < |s.seen| ensures s.seen[k] == s.log[Start(s.after) + k] {
      assert Sent(s)[k] == s.seen[k];
    }
  }

  /** A client whose first cursor is 2^63 or more is sent the log from its beginning, below its own cursor. */
  lemma WrappedCursorReplays(run: seq<State>, steps: seq<Step>, i: nat)
    requires IsRun(run, steps) && Init(run[0]) && i < |run|
    requires run[i].after >= I64_LIMIT && run[i].seen != []
    ensures run[i].seen[0].offset == 1 && run[i].seen[0].offset <= run[i].after
  {
    InitInv(run[0]);
    RunKeeps(run, steps);
    assert Inv(run[i]);
    SeenIsConsecutive(run, steps, i);
  }

  /** Nothing for this session is outstanding. */
  predicate Quiet(s: State)
  {
    Mine !in s.pending && Mine !in s.queue && !s.lagged
  }

  /** No lost wake-up: a stream that idles with nothing outstanding has sent everything past its cursor. */
  lemma IdleIsCaughtUp(run: seq<State>, steps: seq<Step>, i: nat)
    requires IsRun(run, steps) && Init(run[0]) && i < |run|
    requires run[i].phase.Idle? && Quiet(run[i]) && run[i].listening
    ensures Sent(run[i]) == run[i].log[Covered(run[i].log, run[i].after)..]
  {
    InitInv(run[0]);
    RunKeeps(run, steps);
    var s := run[i];
    assert Inv(s);
    NothingLeft(s.log, s.after, Sent(s));
  }

  // ---- progress --------------------------------------------------------------------------------------

  /** The steps the stream, the fan-out and the client take on their own. */
  predicate Internal(step: Step)
  {
    step.Fan? || step.Fetch? || step.Send? || step.Receive? || step.Deliver?
  }

  function Remaining(s: State): nat
  {
    |s.log| - Covered(s.log, s.cursor)
  }

  /** A bound on the internal steps left. */
  function Work(s: State): nat
  {
    3 * Remaining(s) + 3 * |s.pending| + 2 * (|s.queue| + if s.lagged then 1 else 0)
    + (if s.phase.Fetching? then 1 else 0) + |s.wire|
  }

  /** `t` is one internal step on: less work left, and the log, the first cursor and the listener as they were. */
  ghost predicate Progress(s: State, t: State)
  {
    && !t.phase.Closed? && Work(t) < Work(s)
    && t.log == s.log && t.after == s.after && t.listening == s.listening
  }

  lemma FanWorks(s: State)
    requires Enabled(s, Fan) && !s.phase.Closed?
    ensures Progress(s, Do(s, Fan))
  {
  }

  lemma FetchWorks(s: State)
    requires Enabled(s, Fetch)
    ensures Progress(s, Do(s, Fetch))
  {
  }

  lemma ReceiveWorks(s: State)
    requires Enabled(s, Receive)
    ensures Progress(s, Do(s, Receive))
  {
  }

  lemma DeliverWorks(s: State)
    requires Enabled(s, Deliver) && !s.phase.Closed?
    ensures Progress(s, Do(s, Deliver))
  {
  }

  lemma SendWorks(s: State)
    requires Inv(s) && Enabled(s, Send)
    ensures Progress(s, Do(s, Send))
  {
    var t := Do(s, Send);
    SendKeeps(s);
    CursorCovers(s);
    CursorCovers(t);
    assert Sent(t) == Sent(s) + [s.phase.batch[0]];
  }

  lemma InternalStepWorks(s: State, step: Step)
    requires Inv(s) && Enabled(s, step) && Internal(step) && !s.phase.Closed?
    ensures Progress(s, Do(s, step))
  {
    match step
    case Fan => FanWorks(s);
    case Fetch => FetchWorks(s);
    case Send => SendWorks(s);
    case Receive => ReceiveWorks(s);
    case Deliver => DeliverWorks(s);
  }

  /** Left alone, a connected stream takes at most `Work` internal steps ... */
  lemma {:induction false} InternalRunsEnd(run: seq<State>, steps: seq<Step>)
    requires IsRun(run, steps) && Inv(run[0]) && !run[0].phase.Closed?
    requires forall i | 0 <= i < |steps| :: Internal(steps[i])
    ensures |steps| + Work(run[|steps|]) <= Work(run[0])
    ensures Inv(run[|steps|]) && !run[|steps|].phase.Closed?
    ensures run[|steps|].log == run[0].log && run[|steps|].after == run[0].after
    ensures run[|steps|].listening == run[0].listening
  {
    if |steps| > 0 {
      var n := |steps| - 1;
      InternalRunsEnd(run[..n+1], steps[..n]);
      assert run[..n+1][n] == run[n] && run[..n+1][0] == run[0];
      StepKeeps(run[n], steps[n]);
      InternalStepWorks(run[n], steps[n]);
    }
  }

  /** ... and when no more is possible, the client has seen every event past its first cursor. */
  lemma StuckMeansDelivered(s: State)
    requires Inv(s) && s.listening && !s.phase.Closed? && !s.phase.Connecting?
    requires forall step: Step | Internal(step) :: !Enabled(s, step)
    ensures s.seen == s.log[Covered(s.log, s.after)..]
  {
    assert Internal(Fan) && Internal(Fetch) && Internal(Send) && Internal(Receive) && Internal(Deliver);
    assert s.pending == [] && s.phase.Idle? && s.queue == [] && !s.lagged && s.wire == [];
    assert Sent(s) == s.seen;
    NothingLeft(s.log, s.after, Sent(s));
  }

  lemma RunCons(s: State, step: Step, run: seq<State>, steps: seq<Step>)
    requires IsRun(run, steps) && Takes(s, step, run[0])
    ensures IsRun([s] + run, [step] + steps)
  {
    forall i | 0 <= i < |steps| + 1 ensures Takes(([s] + run)[i], ([step] + steps)[i], ([s] + run)[i+1]) {
      if i > 0 { assert Takes(run[i-1], steps[i-1], run[i]); }
    }
  }

  /** As long as something is missing a step can be taken, and taking them delivers everything past the first cursor. */
  lemma {:induction false} CanDeliver(s: State) returns (run: seq<State>, steps: seq<Step>)
    requires Inv(s) && s.listening && !s.phase.Closed? && !s.phase.Connecting?
    ensures IsRun(run, steps) && run[0] == s && forall i | 0 <= i < |steps| :: Internal(steps[i])
    ensures run[|steps|].log == s.log && run[|steps|].seen == s.log[Covered(s.log, s.after)..]
    decreases Work(s)
  {
    if step: Step :| Internal(step) && Enabled(s, step) {
      StepKeeps(s, step);
      InternalStepWorks(s, step);
      var t := Do(s, step);
      var rest, more := CanDeliver(t);
      RunCons(s, step, rest, more);
      run, steps := [s] + rest, [step] + more;
    } else {
      StuckMeansDelivered(s);
      run, steps := [s], [];
    }
  }

  /** Whatever happened to its connection, a client that reconnects can be brought up to date: it has seen every event past
      its first cursor, each once. */
  lemma ReconnectDelivers(run: seq<State>, steps: seq<Step>, i: nat) returns (rest: seq<State>, more: seq<Step>)
    requires IsRun(run, steps) && Init(run[0]) && i < |run| && run[i].listening
    ensures IsRun(rest, more) && rest[0] == run[i] && |more| >= 2 && more[..2] == [Reconnect, Subscribe]
    ensures rest[|more|].log == run[i].log
    ensures rest[|more|].seen == run[i].log[Covered(run[i].log, run[i].after)..]
  {
    InitInv(run[0]);
    RunKeeps(run, steps);
    assert Inv(run[i]);
    var s1 := Do(run[i], Reconnect);
    var s2 := Do(s1, Subscribe);
    StepKeeps(run[i], Reconnect);
    StepKeeps(s1, Subscribe);
    var tail, last := CanDeliver(s2);
    RunCons(s1, Subscribe, tail, last);
    RunCons(run[i], Reconnect, [s1] + tail, [Subscribe] + last);
    rest, more := [run[i]] + ([s1] + tail), [Reconnect] + ([Subscribe] + last);
  }

  /** Without the notification connection the promise fails: an idle stream is not told of an append. */
  lemma DeadListenerStalls(s: State, body: string)
    requires Inv(s) && s.phase.Idle? && Quiet(s) && !s.listening && Covered(s.log, s.cursor) == |s.log|
    requires |s.log| + 1 < I64_LIMIT && s.cursor <= |s.log|
    ensures var t := Do(s, Append([body]));
      Inv(t) && t.phase.Idle? && Quiet(t) && Remaining(t) > 0
  {
    StepKeeps(s, Append([body]));
  }

  /** That state is reached: a client that is up to date connects, the connection is lost, an event is committed. Nothing
      is left to do and the client has not seen the event. */
  lemma DeadListenerReached(log: seq<Event>, body: string) returns (run: seq<State>, steps: seq<Step>)
    requires IsLog(log) && |log| + 1 < I64_LIMIT
    ensures IsRun(run, steps) && Init(run[0]) && run[0].log == log
    ensures var s := run[|steps|];
      && s.phase.Idle? && s.seen == [] && s.log[Covered(s.log, s.after)..] == [Event(|log| + 1, body)]
      && forall step: Step | Internal(step) :: !Enabled(s, step)
  {
    var s0 := State(log, true, [], Connecting, |log|, [], false, [], |log|, []);
    steps := [Subscribe, Fetch, ListenerFails, Append([body])];
    var s1 := Do(s0, Subscribe);
    var s2 := Do(s1, Fetch);
    var s3 := Do(s2, ListenerFails);
    var s4 := Do(s3, Append([body]));
    run := [s0, s1, s2, s3, s4];
    assert s4.log[|log|..] == [Event(|log| + 1, body)];
  }

  // ---- the fetch-and-send loop as it runs ---------------------------------------------------------------

  /** The session's log as other tasks see it; `budget` bounds the appends still to come. */
  class Store {
    var log: seq<Event>
    var budget: nat

    constructor (log: seq<Event>, budget: nat)
      ensures this.log == log && this.budget == budget
    {
      this.log, this.budget := log, budget;
    }

    /** An await: any number of events may be committed meanwhile. */
    method Yield()
      requires IsLog(log)
      modifies this
      ensures IsLog(log) && old(log) <= log
      ensures budget < old(budget) || (budget == old(budget) && log == old(log))
    {
      var bodies: seq<string> := *;
      if budget > 0 && |log| + |bodies| < I64_LIMIT {
        log := log + NewEvents(|log|, bodies);
        budget := budget - 1;
      }
    }
  }

  lemma ConsecutiveGrows(log: seq<Event>, more: seq<Event>, start: nat, out: seq<Event>)
    requires log <= more && Consecutive(log, start, out)
    ensures Consecutive(more, start, out)
  {
  }

  /** The next event of a batch continues what was sent, and the cursor follows it. */
  lemma NextOfBatch(log: seq<Event>, after: nat, before: seq<Event>, batch: seq<Event>, i: nat)
    requires IsLog(log) && Consecutive(log, Start(after), before + batch) && i < |batch|
    ensures var sent := before + batch[..i];
      && sent + [batch[i]] == before + batch[..i+1]
      && Consecutive(log, Start(after), sent + [batch[i]])
      && batch[i].offset == CursorAt(after, |sent| + 1)
  {
    var all := before + batch;
    var sent := before + batch[..i];
    assert sent + [batch[i]] == all[..|before| + i + 1];
    assert batch[i] == all[|before| + i];
  }

  class Connection {
    var cursor: nat
    var sent: seq<Event>

    constructor (after: nat)
      ensures cursor == after && sent == []
    {
      cursor, sent := after, [];
    }

    /** What this connection has sent since cursor `after`, and where its cursor stands. */
    ghost predicate At(log: seq<Event>, after: nat)
      reads this
    {
      Consecutive(log, Start(after), sent) && cursor == CursorAt(after, |sent|)
    }

    /** Fetch and send until a fetch comes back empty, while the log keeps growing; `open` is false when the
        socket failed. */
    method Pump(store: Store, ghost after: nat) returns (open: bool)
      requires IsLog(store.log) && At(store.log, after)
      modifies this, store
      ensures IsLog(store.log) && old(store.log) <= store.log && old(sent) <= sent
      ensures Consecutive(store.log, Start(after), sent)
      ensures open ==> At(store.log, after) && sent == store.log[Covered(store.log, after)..]
    {
      while true
        invariant IsLog(store.log) && old(store.log) <= store.log && old(sent) <= sent
        invariant At(store.log, after)
        decreases store.budget, |store.log| - Covered(store.log, cursor)
      {
        ghost var was := store.log;
        store.Yield();
        ConsecutiveGrows(was, store.log, Start(after), sent);
        var batch := EventsAfter(store.log, cursor);
        if batch == [] {
          NothingLeft(store.log, after, sent);
          return true;
        }
        BatchContinues(store.log, after, sent);
        open := SendBatch(store, batch, after);
        if !open { return; }
      }
    }

    method SendBatch(store: Store, batch: seq<Event>, ghost after: nat) returns (open: bool)
      requires IsLog(store.log) && At(store.log, after) && batch != []
      requires Consecutive(store.log, Start(after), sent + batch)
      modifies this, store
      ensures IsLog(store.log) && old(store.log) <= store.log && old(sent) <= sent
      ensures Consecutive(store.log, Start(after), sent)
      ensures open ==> At(store.log, after) && sent == old(sent) + batch
      ensures store.budget < old(store.budget) || (store.budget == old(store.budget) && store.log == old(store.log))
    {
      for i := 0 to |batch|
        invariant IsLog(store.log) && old(store.log) <= store.log
        invariant sent == old(sent) + batch[..i]
        invariant At(store.log, after) && Consecutive(store.log, Start(after), old(sent) + batch)
        invariant store.budget < old(store.budget) || (store.budget == old(store.budget) && store.log == old(store.log))
      {
        var e := batch[i];
        NextOfBatch(store.log, after, old(sent), batch, i);
        cursor := e.offset;
        var ok: bool := *;
        if !ok { return false; }
        sent := sent + [e];
        ghost var was := store.log;
        store.Yield();
        ConsecutiveGrows(was, store.log, Start(after), sent);
        ConsecutiveGrows(was, store.log, Start(after), old(sent) + batch);
      }
      assert batch[..|batch|] == batch;
      open := true;
    }
  }
}
