/** Requests to a worker and their answers (apps/cloud-api/src/browser_view.rs:75-112, 150-212): the pending table and the
    bounded outbox of a link, under every interleaving of asks, acks, timeouts, callers that go away and the link's task. */
module AskTable {
  import opened Text

  type Value = string
  type AskId = nat

  datatype Outcome = Answered(value: Value) | Unlinked | TimedOut

  /** Where an ask stands. The request id of ask `i` is `i`: ids are never reused. */
  datatype Phase =
    | Sending                            // in the table, about to send to the worker
    | SendFailed                         // the link's channel is closed, about to leave the table
    | Waiting
    | Expired                            // the wait is over, about to leave the table
    | Done(outcome: Outcome)
    | Abandoned                          // its caller went away and the future was dropped

  /** `slot` is what the one-shot channel holds for the ask. */
  datatype Ask = Ask(phase: Phase, slot: Option<Value>)

  /** The messages a link holds for its task to send. */
  const OUTBOX: nat := 64

  /** `outbox` counts the queued messages; `ended` says that the link's task is over and dropped its receiver. */
  datatype State = State(asks: seq<Ask>, pending: set<AskId>, outbox: nat, ended: bool)

  const START := State([], {}, 0, false)

  datatype Step =
    | Begin
    | SendOk(id: AskId) | SendErr(id: AskId) | DropFailed(id: AskId)
    | Ack(id: AskId, value: Value)       // any request id a worker may name
    | Take(id: AskId) | Timeout(id: AskId) | DropExpired(id: AskId)
    | SenderGone(id: AskId)              // the one-shot's sender was dropped unused
    | Abandon(id: AskId)
    | Tell                               // a message that awaits no answer
    | Drain                              // the link's task takes a message to its socket
    | LinkEnds

  predicate InPhase(s: State, id: AskId, p: Phase)
  {
    id < |s.asks| && s.asks[id].phase == p
  }

  /** The ask's receiver still exists, so a value sent now is kept. */
  predicate Receiving(a: Ask)
  {
    a.phase == Sending || a.phase == SendFailed || a.phase == Waiting
  }

  predicate HasRoom(s: State)
  {
    !s.ended && s.outbox < OUTBOX
  }

  predicate Enabled(s: State, step: Step)
  {
    match step
    case Begin => true
    case SendOk(id) => InPhase(s, id, Sending) && HasRoom(s)   // a full outbox is waited for, outside the timeout
    case SendErr(id) => InPhase(s, id, Sending) && s.ended
    case DropFailed(id) => InPhase(s, id, SendFailed)
    case Ack(_, _) => !s.ended
    case Take(id) => InPhase(s, id, Waiting) && s.asks[id].slot.Some?
    case Timeout(id) => InPhase(s, id, Waiting) && s.asks[id].slot.None?  // a ready value wins over the timer
    case DropExpired(id) => InPhase(s, id, Expired)
    case SenderGone(id) => InPhase(s, id, Waiting) && s.asks[id].slot.None? && id !in s.pending
    case Abandon(id) => id < |s.asks| && !s.asks[id].phase.Done? && s.asks[id].phase != Abandoned
    case Tell => HasRoom(s)
    case Drain => s.outbox > 0 && !s.ended
    case LinkEnds => !s.ended
  }

  function Move(s: State, id: AskId, p: Phase): State
    requires id < |s.asks|
  {
    s.(asks := s.asks[id := s.asks[id].(phase := p)])
  }

  function Do(s: State, step: Step): State
    requires Enabled(s, step)
  {
    match step
    case Begin => s.(asks := s.asks + [Ask(Sending, None)], pending := s.pending + {|s.asks|})
    case SendOk(id) => Move(s, id, Waiting).(outbox := s.outbox + 1)
    case SendErr(id) => Move(s, id, SendFailed)
    case DropFailed(id) => Move(s, id, Done(Unlinked)).(pending := s.pending - {id})
    case Ack(id, v) =>
      if id !in s.pending || id >= |s.asks| then s.(pending := s.pending - {id})
      else
        var a := s.asks[id];
        s.(asks := s.asks[id := if Receiving(a) then a.(slot := Some(v)) else a], pending := s.pending - {id})
    case Take(id) => Move(s, id, Done(Answered(s.asks[id].slot.value)))
    case Timeout(id) => Move(s, id, Expired)
    case DropExpired(id) => Move(s, id, Done(TimedOut)).(pending := s.pending - {id})
    case SenderGone(id) => Move(s, id, Done(Unlinked))
    case Abandon(id) => Move(s, id, Abandoned)
    case Tell => s.(outbox := s.outbox + 1)
    case Drain => s.(outbox := s.outbox - 1)
    case LinkEnds => s.(ended := true)
  }

  /** `t` follows from `s` by the enabled step. */
  predicate Takes(s: State, step: Step, t: State)
  {
    Enabled(s, step) && t == Do(s, step)
  }

  ghost predicate IsRun(run: seq<State>, steps: seq<Step>)
  {
    && |run| == |steps| + 1
    && run[0] == START
    && forall i {:trigger steps[i]} | 0 <= i < |steps| :: Takes(run[i], steps[i], run[i+1])
  }

  // ---- what every run keeps ------------------------------------------------------------------------

  /** A table entry belongs to an unanswered ask that has not returned; an ask that waits has its entry or its value. */
  ghost predicate Inv(s: State)
  {
    && s.outbox <= OUTBOX
    && (forall id | id in s.pending :: id < |s.asks| && !s.asks[id].phase.Done? && s.asks[id].slot.None?)
    && (forall id | 0 <= id < |s.asks| && s.asks[id].phase in {Sending, Waiting} && s.asks[id].slot.None? ::
          id in s.pending)
  }

  lemma StepKeeps(s: State, step: Step)
    requires Inv(s) && Enabled(s, step)
    ensures Inv(Do(s, step))
  {
  }

  lemma {:induction false} RunKeeps(run: seq<State>, steps: seq<Step>, i: nat)
    requires IsRun(run, steps) && i < |run|
    ensures Inv(run[i])
  {
    if i > 0 {
      RunKeeps(run, steps, i - 1);
      StepKeeps(run[i-1], steps[i-1]);
    }
  }

  /** No finished ask has an entry, and an entry's ask is still under way unless its caller went away. */
  lemma NoStaleEntry(run: seq<State>, steps: seq<Step>, i: nat, id: AskId)
    requires IsRun(run, steps) && i < |run| && id in run[i].pending
    ensures id < |run[i].asks| && !run[i].asks[id].phase.Done?
  {
    RunKeeps(run, steps, i);
  }

  /** The "dropped its link" answer to a waiting ask is never given: the ask itself keeps its sender in the table
      alive, so when the link ends it waits out its time instead. */
  lemma SenderNeverGone(run: seq<State>, steps: seq<Step>, i: nat, id: AskId)
    requires IsRun(run, steps) && i < |run|
    ensures !Enabled(run[i], SenderGone(id))
  {
    RunKeeps(run, steps, i);
  }

  // ---- outcomes ----------------------------------------------------------------------------------------

  lemma DoneStays(s: State, step: Step, id: AskId)
    requires Enabled(s, step) && id < |s.asks| && s.asks[id].phase.Done?
    ensures id < |Do(s, step).asks| && Do(s, step).asks[id].phase == s.asks[id].phase
  {
  }

  /** An ask returns at most one outcome. */
  lemma {:induction false} OneOutcome(run: seq<State>, steps: seq<Step>, i: nat, j: nat, id: AskId)
    requires IsRun(run, steps) && i <= j < |run| && id < |run[i].asks| && run[i].asks[id].phase.Done?
    ensures id < |run[j].asks| && run[j].asks[id].phase == run[i].asks[id].phase
  {
    if i < j {
      OneOutcome(run, steps, i, j - 1, id);
      DoneStays(run[j-1], steps[j-1], id);
    }
  }

  /** Step `k` is the first ack with the request id of `id` since it was asked. */
  ghost predicate FirstAck(run: seq<State>, steps: seq<Step>, k: nat, id: AskId, v: Value)
    requires |run| == |steps| + 1
  {
    && k < |steps| && steps[k] == Ack(id, v) && id < |run[k].asks|
    && forall j | 0 <= j < k && steps[j].Ack? && steps[j].id == id :: id >= |run[j].asks|
  }

  /** The value an ask holds or returned. */
  predicate HasValue(s: State, id: AskId, v: Value)
  {
    id < |s.asks| && (s.asks[id].slot == Some(v) || s.asks[id].phase == Done(Answered(v)))
  }

  /** An entry was there before and the step was no ack with its id, or the ask has just begun. */
  lemma EntryFrom(s: State, step: Step, id: AskId)
    requires Enabled(s, step) && id in Do(s, step).pending
    ensures (id in s.pending && !(step.Ack? && step.id == id)) || (step == Begin && id == |s.asks|)
  {
  }

  /** While the entry is there, no ack with its id has come since the ask began. */
  lemma {:induction false} PendingUnacked(run: seq<State>, steps: seq<Step>, i: nat, id: AskId)
    requires IsRun(run, steps) && i < |run| && id in run[i].pending
    ensures forall j | 0 <= j < i && steps[j].Ack? && steps[j].id == id :: id >= |run[j].asks|
  {
    if i > 0 {
      assert Takes(run[i-1], steps[i-1], run[i]);
      EntryFrom(run[i-1], steps[i-1], id);
      if id in run[i-1].pending && !(steps[i-1].Ack? && steps[i-1].id == id) {
        PendingUnacked(run, steps, i - 1, id);
      } else {
        forall j | 0 <= j < i ensures id >= |run[j].asks| { AsksGrow(run, steps, j, i - 1); }
      }
    }
  }

  lemma {:induction false} AsksGrow(run: seq<State>, steps: seq<Step>, i: nat, j: nat)
    requires IsRun(run, steps) && i <= j < |run|
    ensures |run[i].asks| <= |run[j].asks|
  {
    if i < j {
      AsksGrow(run, steps, i, j - 1);
      assert Takes(run[j-1], steps[j-1], run[j]);
    }
  }

  /** An answer is the value of the first ack with the ask's own request id; no other ack ever answers it. */
  lemma {:induction false} AnswerIsFirstAck(run: seq<State>, steps: seq<Step>, i: nat, id: AskId, v: Value)
    returns (k: nat)
    requires IsRun(run, steps) && i < |run| && HasValue(run[i], id, v)
    ensures k < i && FirstAck(run, steps, k, id, v)
  {
    if HasValue(run[i-1], id, v) {
      k := AnswerIsFirstAck(run, steps, i - 1, id, v);
    } else {
      RunKeeps(run, steps, i - 1);
      assert steps[i-1] == Ack(id, v) && id in run[i-1].pending;
      PendingUnacked(run, steps, i - 1, id);
      k := i - 1;
    }
  }

  /** The value has reached a sent ask: ready to be taken, taken, or of no use because the caller went away. */
  predicate Reached(s: State, id: AskId, v: Value)
  {
    && id < |s.asks|
    && (s.asks[id] == Ask(Waiting, Some(v)) || s.asks[id].phase == Done(Answered(v)) || s.asks[id].phase == Abandoned)
  }

  lemma ReachedStays(s: State, step: Step, id: AskId, v: Value)
    requires Inv(s) && Reached(s, id, v) && Enabled(s, step)
    ensures Reached(Do(s, step), id, v)
  {
  }

  /** An ack that finds its ask waiting answers it: from then on the value is ready, and the timer never fires, until the
      ask returns it or its caller goes away. */
  lemma {:induction false} AckAnswers(run: seq<State>, steps: seq<Step>, k: nat, j: nat, id: AskId, v: Value)
    requires IsRun(run, steps) && k < j < |run| && steps[k] == Ack(id, v)
    requires id in run[k].pending && InPhase(run[k], id, Waiting)
    ensures Reached(run[j], id, v)
    ensures InPhase(run[j], id, Waiting) ==> Enabled(run[j], Take(id)) && !Enabled(run[j], Timeout(id))
    decreases j
  {
    if j == k + 1 {
      assert Takes(run[k], steps[k], run[j]);
    } else {
      AckAnswers(run, steps, k, j - 1, id, v);
      RunKeeps(run, steps, j - 1);
      ReachedStays(run[j-1], steps[j-1], id, v);
    }
  }

  /** Step `t` is the ask's timer, and no ack with its id came since it began. */
  ghost predicate FiredUnacked(run: seq<State>, steps: seq<Step>, t: nat, id: AskId)
    requires |run| == |steps| + 1
  {
    && t < |steps| && steps[t] == Timeout(id)
    && forall j | 0 <= j < t && steps[j].Ack? && steps[j].id == id :: id >= |run[j].asks|
  }

  /** An ask that reports a timeout was not acked between its beginning and its timer. */
  lemma {:induction false} TimedOutUnacked(run: seq<State>, steps: seq<Step>, i: nat, id: AskId) returns (t: nat)
    requires IsRun(run, steps) && i < |run| && (InPhase(run[i], id, Expired) || InPhase(run[i], id, Done(TimedOut)))
    ensures t < i && FiredUnacked(run, steps, t, id)
  {
    if InPhase(run[i-1], id, Expired) || InPhase(run[i-1], id, Done(TimedOut)) {
      t := TimedOutUnacked(run, steps, i - 1, id);
    } else {
      RunKeeps(run, steps, i - 1);
      t := i - 1;
      assert Takes(run[t], steps[t], run[i]);
      assert steps[t] == Timeout(id) && id in run[t].pending;
      PendingUnacked(run, steps, t, id);
    }
  }

  /** An ask that reports a dropped link found the link's task over when it sent. */
  lemma {:induction false} UnlinkedWasOver(run: seq<State>, steps: seq<Step>, i: nat, id: AskId) returns (t: nat)
    requires IsRun(run, steps) && i < |run| && (InPhase(run[i], id, SendFailed) || InPhase(run[i], id, Done(Unlinked)))
    ensures t < i && steps[t] == SendErr(id) && run[t].ended
  {
    if InPhase(run[i-1], id, SendFailed) || InPhase(run[i-1], id, Done(Unlinked)) {
      t := UnlinkedWasOver(run, steps, i - 1, id);
    } else {
      SenderNeverGone(run, steps, i - 1, id);
      t := i - 1;
      assert Takes(run[t], steps[t], run[i]);
    }
  }

  // ---- progress -----------------------------------------------------------------------------------------

  /** A step of ask `id` itself. */
  predicate Own(step: Step, id: AskId)
  {
    match step
    case SendOk(i) => i == id
    case SendErr(i) => i == id
    case DropFailed(i) => i == id
    case Take(i) => i == id
    case Timeout(i) => i == id
    case DropExpired(i) => i == id
    case SenderGone(i) => i == id
    case _ => false
  }

  /** A bound on the own steps an ask has left. */
  function Left(a: Ask): nat
  {
    match a.phase
    case Sending => 3
    case SendFailed => 1
    case Waiting => 2
    case Expired => 1
    case _ => 0
  }

  /** Every own step brings the ask closer to its end, and no other step takes it back. */
  lemma StepsLowerLeft(s: State, step: Step, id: AskId)
    requires Enabled(s, step) && id < |s.asks|
    ensures id < |Do(s, step).asks| && Left(Do(s, step).asks[id]) <= Left(s.asks[id])
    ensures Own(step, id) ==> Left(Do(s, step).asks[id]) < Left(s.asks[id])
  {
  }

  function OwnSteps(steps: seq<Step>, id: AskId): nat
  {
    if steps == [] then 0 else OwnSteps(steps[..|steps|-1], id) + if Own(steps[|steps|-1], id) then 1 else 0
  }

  /** An ask has at most `3 - n` own steps left after `n`, and took none before it began. */
  predicate Budget(s: State, id: AskId, n: nat)
  {
    if id < |s.asks| then n + Left(s.asks[id]) <= 3 else n == 0
  }

  lemma BudgetStep(s: State, step: Step, id: AskId, n: nat)
    requires Enabled(s, step) && Budget(s, id, n)
    ensures Budget(Do(s, step), id, n + if Own(step, id) then 1 else 0)
  {
    if id < |s.asks| { StepsLowerLeft(s, step, id); }
  }

  lemma {:induction false} OwnStepsCount(run: seq<State>, steps: seq<Step>, i: nat, id: AskId)
    requires IsRun(run, steps) && i < |run|
    ensures Budget(run[i], id, OwnSteps(steps[..i], id))
  {
    if i > 0 {
      OwnStepsCount(run, steps, i - 1, id);
      assert Takes(run[i-1], steps[i-1], run[i]);
      assert steps[..i][..i-1] == steps[..i-1];
      BudgetStep(run[i-1], steps[i-1], id, OwnSteps(steps[..i-1], id));
    }
  }

  /** On no run does an ask take more than three steps of its own. */
  lemma AtMostThreeOwnSteps(run: seq<State>, steps: seq<Step>, id: AskId)
    requires IsRun(run, steps)
    ensures OwnSteps(steps, id) <= 3
  {
    OwnStepsCount(run, steps, |steps|, id);
    assert steps[..|steps|] == steps;
  }

  ghost predicate CanProceed(s: State, id: AskId)
  {
    exists step :: Own(step, id) && Enabled(s, step)
  }

  /** An unfinished ask has no step of its own exactly when it has not sent yet, the outbox is full and the link's task
      is still there: the send waits for room, and the time limit covers only the wait for the answer. */
  lemma StuckIff(run: seq<State>, steps: seq<Step>, i: nat, id: AskId)
    requires IsRun(run, steps) && i < |run| && id < |run[i].asks| && Left(run[i].asks[id]) > 0
    ensures !CanProceed(run[i], id) <==>
      run[i].asks[id].phase == Sending && run[i].outbox == OUTBOX && !run[i].ended
  {
    RunKeeps(run, steps, i);
    var s := run[i];
    var a := s.asks[id];
    match a.phase
    case Sending =>
      assert Own(SendOk(id), id) && Own(SendErr(id), id);
      assert Enabled(s, SendOk(id)) || Enabled(s, SendErr(id)) || (s.outbox == OUTBOX && !s.ended);
    case SendFailed => assert Own(DropFailed(id), id) && Enabled(s, DropFailed(id));
    case Waiting =>
      assert Own(Take(id), id) && Own(Timeout(id), id);
      assert Enabled(s, Take(id)) || Enabled(s, Timeout(id));
    case Expired => assert Own(DropExpired(id), id) && Enabled(s, DropExpired(id));
  }

  /** Sixty-four messages the link's task does not get to, and then an ask: it is stuck. */
  lemma StuckReached() returns (run: seq<State>, steps: seq<Step>)
    ensures IsRun(run, steps)
    ensures var s := run[|steps|]; |s.asks| == 1 && Left(s.asks[0]) > 0 && !CanProceed(s, 0)
  {
    steps := seq(OUTBOX + 1, i => if i < OUTBOX then Tell else Begin);
    run := seq(OUTBOX + 2, i requires 0 <= i < OUTBOX + 2 =>
      if i <= OUTBOX then START.(outbox := i) else State([Ask(Sending, None)], {0}, OUTBOX, false));
    forall i | 0 <= i < |steps| ensures Takes(run[i], steps[i], run[i+1]) { }
    StuckIff(run, steps, |steps|, 0);
  }

  /** It stays stuck until the link's task takes a message or ends, or its caller goes away. */
  lemma StuckUntil(s: State, step: Step, id: AskId)
    requires Enabled(s, step) && InPhase(s, id, Sending) && s.outbox == OUTBOX && !s.ended
    requires step != Drain && step != LinkEnds && step != Abandon(id)
    ensures var t := Do(s, step); InPhase(t, id, Sending) && t.outbox == OUTBOX && !t.ended
  {
  }

  /** Once the link's task takes a message or ends, the ask has a step again. */
  lemma StuckEnds(s: State, step: Step, id: AskId)
    requires InPhase(s, id, Sending) && s.outbox == OUTBOX && !s.ended && (step == Drain || step == LinkEnds)
    ensures Enabled(s, step) && CanProceed(Do(s, step), id)
  {
    var t := Do(s, step);
    assert Own(SendOk(id), id) && Own(SendErr(id), id);
    assert Enabled(t, SendOk(id)) || Enabled(t, SendErr(id));
  }

  /** A caller that goes away leaves the ask's entry where it is ... */
  lemma AbandonKeepsEntry(s: State, id: AskId)
    requires Enabled(s, Abandon(id))
    ensures InPhase(Do(s, Abandon(id)), id, Abandoned) && Do(s, Abandon(id)).pending == s.pending
  {
  }

  /** An abandoned ask keeps its entry until an ack names it: dropping the future does not clean the table. */
  lemma AbandonLeaks(s: State, id: AskId, step: Step)
    requires Inv(s) && InPhase(s, id, Abandoned) && id in s.pending && Enabled(s, step)
    ensures InPhase(Do(s, step), id, Abandoned)
    ensures id !in Do(s, step).pending <==> step.Ack? && step.id == id
  {
  }
}
