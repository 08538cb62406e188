/** Concurrent decisions on an approval (apps/cloud-api/src/routes.rs:423-437, 834-952): every handler reads, checks and
    then appends at the sequence it read, interleaved with other handlers and with the worker that owns the session. */
module Approvals {

  type CommandId = string
  type ApprovalId = string

  // ---- the store ---------------------------------------------------------------------------------

  datatype Resolver = Api(command: CommandId) | Worker

  datatype Event = Requested(intentHash: string) | Resolved(approved: bool, resolver: Resolver) | Expired

  /** What a retried command is answered with. */
  datatype Answer = Decision(approval: ApprovalId, approved: bool, intentHash: string) | Mismatch | Relayed | Other(text: string)

  datatype Status = Accepted | Rejected | Pending

  datatype Record = Record(status: Status, answer: Answer)

  /** Each approval's events in sequence, the command ledger, and whether a worker holds the session's lease. */
  datatype Store = Store(logs: map<ApprovalId, seq<Event>>, commands: map<CommandId, Record>, held: bool)

  /** The approval's log as the state machine of the domain allows it: opened once, then settled at most once
      (crates/domain/src/approval.rs:30-32, 164-192). */
  predicate Legal(log: seq<Event>)
  {
    && 1 <= |log| <= 2 && log[0].Requested?
    && (|log| == 2 ==> !log[1].Requested?)
  }

  /** The event can follow the log. */
  predicate CanFollow(log: seq<Event>, e: Event)
  {
    if log == [] then e.Requested? else !e.Requested? && |log| == 1
  }

  datatype AppendResult = Appended(store: Store) | SequenceConflict | InvalidTransition | DuplicateCommand

  /** `append` in one transaction: expected sequence, projection, ledger row (crates/event-store/src/cloud/mod.rs:1327-1444).
      Without `projected` it leaves out the projection. */
  function Append(s: Store, aid: ApprovalId, expected: nat, e: Event, cid: CommandId, answer: Answer, projected: bool):
    AppendResult
  {
    var log := if aid in s.logs then s.logs[aid] else [];
    if expected != |log| then SequenceConflict
    else if projected && !CanFollow(log, e) then InvalidTransition
    else if cid in s.commands then DuplicateCommand
    else Appended(s.(logs := s.logs[aid := log + [e]], commands := s.commands[cid := Record(Accepted, answer)]))
  }

  /** `INSERT ... ON CONFLICT DO NOTHING`. */
  function Note(s: Store, cid: CommandId, r: Record): Store
  {
    if cid in s.commands then s else s.(commands := s.commands[cid := r])
  }

  // ---- the handlers -----------------------------------------------------------------------------------

  datatype Outcome =
    | Replayed(record: Record)
    | Done(answer: Answer)
    | NotFound | NotOpen | Conflict | Invalid | Duplicate | RelayedToWorker | IntentMismatch

  datatype Phase =
    | Arrived
    | New                                                   // not recorded before
    | Loaded(generation: nat, intentHash: string)           // found open
    | Unheld(generation: nat, intentHash: string)           // no worker holds the session
    | Finished(outcome: Outcome)

  datatype Handler = Handler(command: CommandId, approval: ApprovalId, approve: bool, intent: string, phase: Phase)

  datatype State = State(store: Store, handlers: seq<Handler>)

  datatype Step =
    | Arrive(handler: Handler)
    | Replay(h: nat) | Load(h: nat) | CheckHeld(h: nat) | Decide(h: nat)
    | Lease(held: bool)
    | Open(approval: ApprovalId, intentHash: string)        // the Core asks
    | WorkerAppends(approval: ApprovalId, event: Event)     // the lease holder settles or expires it
    | Complete(command: CommandId, record: Record)          // the lease holder finishes a relayed command

  predicate At(s: State, h: nat)
  {
    h < |s.handlers|
  }

  predicate Enabled(s: State, step: Step)
  {
    match step
    case Arrive(x) => x.phase == Arrived
    case Replay(h) => At(s, h) && s.handlers[h].phase == Arrived
    case Load(h) => At(s, h) && s.handlers[h].phase == New
    case CheckHeld(h) => At(s, h) && s.handlers[h].phase.Loaded?
    case Decide(h) => At(s, h) && s.handlers[h].phase.Unheld?
    case Lease(_) => true
    case Open(a, _) => a !in s.store.logs
    case WorkerAppends(a, e) =>
      a in s.store.logs && CanFollow(s.store.logs[a], e) && (e.Resolved? ==> e.resolver == Worker)
    case Complete(c, r) => c in s.store.commands && s.store.commands[c].status == Pending && r.status != Pending
  }

  function Put(s: State, h: nat, p: Phase): State
    requires At(s, h)
  {
    s.(handlers := s.handlers[h := s.handlers[h].(phase := p)])
  }

  function LoadPhase(s: Store, x: Handler): Phase
  {
    if x.approval !in s.logs || s.logs[x.approval] == [] || !s.logs[x.approval][0].Requested? then Finished(NotFound)
    else if |s.logs[x.approval]| != 1 then Finished(NotOpen)
    else Loaded(|s.logs[x.approval]|, s.logs[x.approval][0].intentHash)
  }

  function DecisionOf(x: Handler, intentHash: string): Answer
  {
    Decision(x.approval, x.approve, intentHash)
  }

  /** The intent check, then the append at the sequence that was read. */
  function DecideBy(s: State, h: nat, projected: bool): State
    requires At(s, h) && s.handlers[h].phase.Unheld?
  {
    var x := s.handlers[h];
    if x.intent != x.phase.intentHash then
      Put(s, h, Finished(IntentMismatch)).(store := Note(s.store, x.command, Record(Rejected, Mismatch)))
    else
      var answer := DecisionOf(x, x.phase.intentHash);
      match Append(s.store, x.approval, x.phase.generation, Resolved(x.approve, Api(x.command)), x.command, answer, projected)
      case Appended(store) => Put(s, h, Finished(Done(answer))).(store := store)
      case SequenceConflict => Put(s, h, Finished(Conflict))
      case InvalidTransition => Put(s, h, Finished(Invalid))
      case DuplicateCommand => Put(s, h, Finished(Duplicate))
  }

  function Do(s: State, step: Step): State
    requires Enabled(s, step)
  {
    match step
    case Arrive(x) => s.(handlers := s.handlers + [x])
    case Replay(h) =>
      var c := s.handlers[h].command;
      Put(s, h, if c in s.store.commands then Finished(Replayed(s.store.commands[c])) else New)
    case Load(h) => Put(s, h, LoadPhase(s.store, s.handlers[h]))
    case CheckHeld(h) =>
      var x := s.handlers[h];
      if s.store.held then
        Put(s, h, Finished(RelayedToWorker)).(store := Note(s.store, x.command, Record(Pending, Relayed)))
      else Put(s, h, Unheld(x.phase.generation, x.phase.intentHash))
    case Decide(h) => DecideBy(s, h, true)
    case Lease(held) => s.(store := s.store.(held := held))
    case Open(a, hash) => s.(store := s.store.(logs := s.store.logs[a := [Requested(hash)]]))
    case WorkerAppends(a, e) => s.(store := s.store.(logs := s.store.logs[a := s.store.logs[a] + [e]]))
    case Complete(c, r) => s.(store := s.store.(commands := s.store.commands[c := r]))
  }

  /** `t` follows from `s` by the enabled step. */
  predicate Takes(s: State, step: Step, t: State)
  {
    Enabled(s, step) && t == Do(s, step)
  }

  ghost predicate IsRun(run: seq<State>, steps: seq<Step>)
  {
    && |run| == |steps| + 1
    && run[0] == State(Store(map[], map[], false), [])
    && forall i {:trigger steps[i]} | 0 <= i < |steps| :: Takes(run[i], steps[i], run[i+1])
  }

  // ---- what every run keeps -------------------------------------------------------------------------------

  predicate LogsLegal(s: State)
  {
    forall a | a in s.store.logs :: Legal(s.store.logs[a])
  }

  /** What a handler read is what the approval was opened with. */
  predicate ReadHolds(s: State, x: Handler)
  {
    x.phase.Loaded? || x.phase.Unheld? ==>
      && x.approval in s.store.logs && s.store.logs[x.approval] != []
      && s.store.logs[x.approval][0] == Requested(x.phase.intentHash)
      && x.phase.generation == 1
  }

  ghost predicate ReadsHold(s: State)
  {
    forall h | 0 <= h < |s.handlers| :: ReadHolds(s, s.handlers[h])
  }

  /** The handler settled its approval: its own event is the approval's second, with the decision it was asked for and
      the intent hash the approval was opened for, and its answer is in the ledger. */
  ghost predicate Settled(s: State, x: Handler)
  {
    && x.approval in s.store.logs && Legal(s.store.logs[x.approval]) && |s.store.logs[x.approval]| == 2
    && s.store.logs[x.approval][0] == Requested(x.intent)
    && s.store.logs[x.approval][1] == Resolved(x.approve, Api(x.command))
    && x.command in s.store.commands
    && s.store.commands[x.command] == Record(Accepted, DecisionOf(x, x.intent))
    && x.phase == Finished(Done(DecisionOf(x, x.intent)))
  }

  predicate Won(x: Handler)
  {
    x.phase.Finished? && x.phase.outcome.Done?
  }

  ghost predicate WinnersSettled(s: State)
  {
    forall h | 0 <= h < |s.handlers| && Won(s.handlers[h]) :: Settled(s, s.handlers[h])
  }

  ghost predicate ByHandler(s: State, a: ApprovalId, h: nat)
  {
    h < |s.handlers| && s.handlers[h].approval == a && Settled(s, s.handlers[h])
  }

  predicate ResolvedByApi(s: State, a: ApprovalId)
  {
    a in s.store.logs && |s.store.logs[a]| == 2 && s.store.logs[a][1].Resolved? && s.store.logs[a][1].resolver.Api?
  }

  /** A resolution through the API has its handler. */
  ghost predicate ResolutionsOwned(s: State)
  {
    forall a | ResolvedByApi(s, a) :: exists h: nat :: ByHandler(s, a, h)
  }

  /** A handler that lost the race lost to a settlement; the append never fails on the state machine. */
  predicate Lost(s: State, x: Handler)
  {
    x.phase.Finished? ==>
      && x.phase.outcome != Invalid
      && (x.phase.outcome in {Conflict, NotOpen} ==> x.approval in s.store.logs && |s.store.logs[x.approval]| == 2)
  }

  ghost predicate LosersLost(s: State)
  {
    forall h | 0 <= h < |s.handlers| :: Lost(s, s.handlers[h])
  }

  /** No two handlers decided the same approval, or with the same command id. */
  ghost predicate WinnersUnique(s: State)
  {
    forall g, h | 0 <= g < h < |s.handlers| && Won(s.handlers[g]) && Won(s.handlers[h]) ::
      s.handlers[g].approval != s.handlers[h].approval && s.handlers[g].command != s.handlers[h].command
  }

  ghost predicate Inv(s: State)
  {
    LogsLegal(s) && ReadsHold(s) && WinnersSettled(s) && WinnersUnique(s) && ResolutionsOwned(s) && LosersLost(s)
  }

  ghost predicate LogsGrow(s: Store, t: Store)
  {
    forall a | a in s.logs :: a in t.logs && s.logs[a] <= t.logs[a]
  }

  ghost predicate RecordsStay(s: Store, t: Store)
  {
    forall c | c in s.commands && s.commands[c].status != Pending :: c in t.commands && t.commands[c] == s.commands[c]
  }

  ghost predicate AnswersStay(s: State, t: State)
  {
    && |s.handlers| <= |t.handlers|
    && forall h | 0 <= h < |s.handlers| && s.handlers[h].phase.Finished? :: t.handlers[h] == s.handlers[h]
  }

  /** The step leaves existing log entries and accepted records in place, and finished handlers as they are. */
  ghost predicate Extends(s: State, t: State)
  {
    LogsGrow(s.store, t.store) && RecordsStay(s.store, t.store) && AnswersStay(s, t)
  }

  lemma StepGrowsLogs(s: State, step: Step)
    requires Enabled(s, step)
    ensures LogsGrow(s.store, Do(s, step).store)
  {
  }

  lemma StepKeepsRecords(s: State, step: Step)
    requires Enabled(s, step)
    ensures RecordsStay(s.store, Do(s, step).store)
  {
  }

  lemma StepKeepsAnswers(s: State, step: Step)
    requires Enabled(s, step)
    ensures AnswersStay(s, Do(s, step))
  {
  }

  lemma StepExtends(s: State, step: Step)
    requires Enabled(s, step)
    ensures Extends(s, Do(s, step))
  {
    StepGrowsLogs(s, step);
    StepKeepsRecords(s, step);
    StepKeepsAnswers(s, step);
  }

  lemma LegalStep(s: State, step: Step)
    requires LogsLegal(s) && Enabled(s, step)
    ensures LogsLegal(Do(s, step))
  {
  }

  lemma ReadStays(s: State, t: State, x: Handler)
    requires Extends(s, t) && ReadHolds(s, x)
    ensures ReadHolds(t, x)
  {
    if x.approval in s.store.logs { assert s.store.logs[x.approval] <= t.store.logs[x.approval]; }
  }

  lemma MoverReads(s: State, step: Step, h: nat)
    requires ReadsHold(s) && Enabled(s, step) && h < |Do(s, step).handlers|
    requires !(h < |s.handlers| && Do(s, step).handlers[h] == s.handlers[h])
    ensures ReadHolds(Do(s, step), Do(s, step).handlers[h])
  {
  }

  lemma ReadsStep(s: State, step: Step)
    requires ReadsHold(s) && Enabled(s, step)
    ensures ReadsHold(Do(s, step))
  {
    StepExtends(s, step);
    var t := Do(s, step);
    forall h | 0 <= h < |t.handlers| ensures ReadHolds(t, t.handlers[h]) {
      if h < |s.handlers| && t.handlers[h] == s.handlers[h] { ReadStays(s, t, t.handlers[h]); }
      else { MoverReads(s, step, h); }
    }
  }

  lemma SettledStays(s: State, t: State, x: Handler)
    requires Extends(s, t) && LogsLegal(t) && Settled(s, x)
    ensures Settled(t, x)
  {
    assert s.store.logs[x.approval] <= t.store.logs[x.approval];
    assert Legal(t.store.logs[x.approval]);
  }

  /** A handler that has just won found its approval open and its command id unrecorded. */
  lemma NewWinner(s: State, step: Step, h: nat)
    requires Inv(s) && Enabled(s, step) && h < |Do(s, step).handlers| && Won(Do(s, step).handlers[h])
    requires !(h < |s.handlers| && Won(s.handlers[h]))
    ensures step == Decide(h) && h < |s.handlers| && Do(s, step).handlers[h].approval == s.handlers[h].approval
    ensures s.handlers[h].approval in s.store.logs && |s.store.logs[s.handlers[h].approval]| == 1
    ensures Do(s, step).handlers[h].command == s.handlers[h].command && s.handlers[h].command !in s.store.commands
  {
  }

  lemma WinnerSettles(s: State, h: nat)
    requires LogsLegal(s) && ReadsHold(s) && Enabled(s, Decide(h)) && Won(Do(s, Decide(h)).handlers[h])
    ensures Settled(Do(s, Decide(h)), Do(s, Decide(h)).handlers[h])
  {
    assert ReadHolds(s, s.handlers[h]);
  }

  lemma WinnersStep(s: State, step: Step)
    requires Inv(s) && Enabled(s, step)
    ensures WinnersSettled(Do(s, step))
  {
    StepExtends(s, step);
    LegalStep(s, step);
    var t := Do(s, step);
    forall h | 0 <= h < |t.handlers| && Won(t.handlers[h]) ensures Settled(t, t.handlers[h]) {
      if h < |s.handlers| && Won(s.handlers[h]) {
        SettledStays(s, t, s.handlers[h]);
      } else {
        NewWinner(s, step, h);
        WinnerSettles(s, h);
      }
    }
  }

  lemma UniqueStep(s: State, step: Step)
    requires Inv(s) && Enabled(s, step)
    ensures WinnersUnique(Do(s, step))
  {
    StepExtends(s, step);
    var t := Do(s, step);
    forall g, h | 0 <= g < h < |t.handlers| && Won(t.handlers[g]) && Won(t.handlers[h])
      ensures t.handlers[g].approval != t.handlers[h].approval && t.handlers[g].command != t.handlers[h].command
    {
      if g < |s.handlers| && Won(s.handlers[g]) {
        assert Settled(s, s.handlers[g]);
        if !(h < |s.handlers| && Won(s.handlers[h])) { NewWinner(s, step, h); }
      } else {
        NewWinner(s, step, g);
        if !(h < |s.handlers| && Won(s.handlers[h])) { NewWinner(s, step, h); } else { assert Settled(s, s.handlers[h]); }
      }
    }
  }

  /** A resolution through the API that was not there before is the deciding handler's. */
  lemma NewResolution(s: State, step: Step, a: ApprovalId)
    requires LogsLegal(s) && Enabled(s, step) && ResolvedByApi(Do(s, step), a)
    requires !(a in s.store.logs && |s.store.logs[a]| == 2)
    ensures step.Decide? && s.handlers[step.h].approval == a && Won(Do(s, step).handlers[step.h])
  {
  }

  lemma OwnerStays(s: State, t: State, a: ApprovalId)
    requires Extends(s, t) && LogsLegal(t) && exists h: nat :: ByHandler(s, a, h)
    ensures exists h: nat :: ByHandler(t, a, h)
  {
    var h: nat :| ByHandler(s, a, h);
    SettledStays(s, t, s.handlers[h]);
    assert ByHandler(t, a, h);
  }

  lemma OwnedStep(s: State, step: Step)
    requires Inv(s) && Enabled(s, step)
    ensures ResolutionsOwned(Do(s, step))
  {
    StepExtends(s, step);
    LegalStep(s, step);
    WinnersStep(s, step);
    var t := Do(s, step);
    forall a | ResolvedByApi(t, a) ensures exists h: nat :: ByHandler(t, a, h) {
      if a in s.store.logs && |s.store.logs[a]| == 2 {
        assert s.store.logs[a] <= t.store.logs[a] && Legal(t.store.logs[a]) && ResolvedByApi(s, a);
        OwnerStays(s, t, a);
      } else {
        NewResolution(s, step, a);
        assert ByHandler(t, a, step.h);
      }
    }
  }

  lemma LostStays(s: State, t: State, x: Handler)
    requires Extends(s, t) && LogsLegal(t) && Lost(s, x)
    ensures Lost(t, x)
  {
    if x.approval in s.store.logs {
      assert s.store.logs[x.approval] <= t.store.logs[x.approval] && Legal(t.store.logs[x.approval]);
    }
  }

  lemma LoadLost(s: State, h: nat)
    requires LogsLegal(s) && Enabled(s, Load(h))
    ensures Lost(Do(s, Load(h)), Do(s, Load(h)).handlers[h])
  {
    var a := s.handlers[h].approval;
    if a in s.store.logs { assert Legal(s.store.logs[a]); }
  }

  lemma DecideLost(s: State, h: nat)
    requires LogsLegal(s) && ReadsHold(s) && Enabled(s, Decide(h))
    ensures Lost(Do(s, Decide(h)), Do(s, Decide(h)).handlers[h])
  {
    assert Legal(s.store.logs[s.handlers[h].approval]);
  }

  /** What the step makes of the handler that takes it. */
  lemma MoverLost(s: State, step: Step, h: nat)
    requires Inv(s) && Enabled(s, step) && h < |Do(s, step).handlers|
    requires !(h < |s.handlers| && Do(s, step).handlers[h] == s.handlers[h])
    ensures Lost(Do(s, step), Do(s, step).handlers[h])
  {
    match step
    case Load(_) => LoadLost(s, h);
    case Decide(_) => DecideLost(s, h);
    case _ =>
  }

  lemma LosersStep(s: State, step: Step)
    requires Inv(s) && Enabled(s, step)
    ensures LosersLost(Do(s, step))
  {
    StepExtends(s, step);
    LegalStep(s, step);
    var t := Do(s, step);
    forall h | 0 <= h < |t.handlers| ensures Lost(t, t.handlers[h]) {
      if h < |s.handlers| && t.handlers[h] == s.handlers[h] { LostStays(s, t, t.handlers[h]); }
      else { MoverLost(s, step, h); }
    }
  }

  lemma StepKeeps(s: State, step: Step)
    requires Inv(s) && Enabled(s, step)
    ensures Inv(Do(s, step))
  {
    LegalStep(s, step);
    ReadsStep(s, step);
    WinnersStep(s, step);
    UniqueStep(s, step);
    OwnedStep(s, step);
    LosersStep(s, step);
  }

  lemma {:induction false} RunKeeps(run: seq<State>, steps: seq<Step>, i: nat)
    requires IsRun(run, steps) && i < |run|
    ensures Inv(run[i])
  {
    if i > 0 {
      RunKeeps(run, steps, i - 1);
      StepKeeps(run[i-1], steps[i-1]);
    }
  }

  lemma ExtendsReflexive(s: State)
    ensures Extends(s, s)
  {
  }

  lemma RunStepExtends(run: seq<State>, steps: seq<Step>, k: nat)
    requires IsRun(run, steps) && k < |steps|
    ensures Extends(run[k], run[k+1])
  {
    StepExtends(run[k], steps[k]);
  }

  lemma {:induction false} RunExtends(run: seq<State>, steps: seq<Step>, i: nat, j: nat)
    requires IsRun(run, steps) && i <= j < |run|
    ensures Extends(run[i], run[j])
  {
    if i == j {
      ExtendsReflexive(run[i]);
    } else {
      RunExtends(run, steps, i, j - 1);
      RunStepExtends(run, steps, j - 1);
      ExtendsTransitive(run[i], run[j-1], run[j]);
    }
  }

  lemma ExtendsTransitive(s: State, m: State, t: State)
    requires Extends(s, m) && Extends(m, t)
    ensures Extends(s, t)
  {
    forall a | a in s.store.logs ensures a in t.store.logs && s.store.logs[a] <= t.store.logs[a] {
      assert s.store.logs[a] <= m.store.logs[a] && m.store.logs[a] <= t.store.logs[a];
    }
  }

  // ---- the promises ----------------------------------------------------------------------------------------

  function Resolutions(log: seq<Event>): nat
  {
    if log == [] then 0 else Resolutions(log[..|log|-1]) + if log[|log|-1].Resolved? then 1 else 0
  }

  /** However many handlers and whoever holds the session: an approval is resolved at most once ... */
  lemma ResolvedOnce(run: seq<State>, steps: seq<Step>, i: nat, a: ApprovalId)
    requires IsRun(run, steps) && i < |run| && a in run[i].store.logs
    ensures Resolutions(run[i].store.logs[a]) <= 1
  {
    RunKeeps(run, steps, i);
    var log := run[i].store.logs[a];
    assert Legal(log);
    assert Resolutions([log[0]]) == 0;
    assert log == [log[0]] || log[..1] == [log[0]];
  }

  /** ... through the API only by a handler that presented the intent hash the approval was opened for ... */
  lemma ResolverPresentedIntent(run: seq<State>, steps: seq<Step>, i: nat, a: ApprovalId) returns (h: nat)
    requires IsRun(run, steps) && i < |run| && ResolvedByApi(run[i], a)
    ensures ByHandler(run[i], a, h)
  {
    RunKeeps(run, steps, i);
    h :| ByHandler(run[i], a, h);
  }

  /** ... and at most one handler is ever told that it decided the approval, and at most one per command id. */
  lemma OneWinner(run: seq<State>, steps: seq<Step>, i: nat, g: nat, h: nat)
    requires IsRun(run, steps) && i < |run| && g < |run[i].handlers| && h < |run[i].handlers|
    requires Won(run[i].handlers[g]) && Won(run[i].handlers[h])
    requires
      || run[i].handlers[g].approval == run[i].handlers[h].approval
      || run[i].handlers[g].command == run[i].handlers[h].command
    ensures g == h
  {
    RunKeeps(run, steps, i);
  }

  /** A handler turned away by a sequence conflict, or told the approval is not open, lost to a settlement that is
      in the log; the append itself is never an invalid transition. */
  lemma LoserSeesSettled(run: seq<State>, steps: seq<Step>, i: nat, h: nat)
    requires IsRun(run, steps) && i < |run| && h < |run[i].handlers| && run[i].handlers[h].phase.Finished?
    ensures run[i].handlers[h].phase.outcome != Invalid
    ensures run[i].handlers[h].phase.outcome in {Conflict, NotOpen} ==>
      && run[i].handlers[h].approval in run[i].store.logs
      && |run[i].store.logs[run[i].handlers[h].approval]| == 2
      && !run[i].store.logs[run[i].handlers[h].approval][1].Requested?
  {
    RunKeeps(run, steps, i);
    var s := run[i];
    if s.handlers[h].phase.outcome in {Conflict, NotOpen} {
      assert Legal(s.store.logs[s.handlers[h].approval]);
    }
  }

  /** Once a handler has won, every later request with its command id is answered with the recorded decision. */
  lemma RetryAnswersRecorded(run: seq<State>, steps: seq<Step>, i: nat, j: nat, winner: nat, retry: nat)
    requires IsRun(run, steps) && i <= j < |steps|
    requires winner < |run[i].handlers| && Won(run[i].handlers[winner])
    requires steps[j] == Replay(retry) && run[j].handlers[retry].command == run[i].handlers[winner].command
    ensures retry < |run[j+1].handlers|
    ensures run[j+1].handlers[retry].phase ==
      Finished(Replayed(Record(Accepted, run[i].handlers[winner].phase.outcome.answer)))
  {
    RunKeeps(run, steps, i);
    assert Settled(run[i], run[i].handlers[winner]);
    RunExtends(run, steps, i, j);
    assert Enabled(run[j], steps[j]) && run[j+1] == Do(run[j], steps[j]);
  }

  // ---- a request that overlaps the winner's -----------------------------------------------------------------

  /** The handler's own step after the ledger was read. */
  predicate ActsBy(step: Step, h: nat)
  {
    step == Load(h) || step == CheckHeld(h) || step == Decide(h)
  }

  /** A request with the winner's command id that had found it unrecorded never gets the decision: it is answered with
      an error or relayed, and the recorded decision stays. */
  lemma OverlapAnswers(run: seq<State>, steps: seq<Step>, i: nat, j: nat, winner: nat, other: nat)
    requires IsRun(run, steps) && i <= j < |steps|
    requires winner < |run[i].handlers| && Won(run[i].handlers[winner])
    requires ActsBy(steps[j], other) && run[j].handlers[other].command == run[i].handlers[winner].command
    ensures other < |run[j+1].handlers|
    ensures var p := run[j+1].handlers[other].phase; p.Finished? ==>
      p.outcome in {NotFound, NotOpen, RelayedToWorker, IntentMismatch, Conflict, Duplicate}
    ensures run[j].handlers[other].command in run[j+1].store.commands
    ensures run[j+1].store.commands[run[j].handlers[other].command] ==
      Record(Accepted, run[i].handlers[winner].phase.outcome.answer)
  {
    WinnerStands(run, steps, i, j, winner);
    RunKeeps(run, steps, j + 1);
    RunExtends(run, steps, j, j + 1);
    assert Takes(run[j], steps[j], run[j+1]);
    LateAct(run[j], steps[j], other);
    assert Lost(run[j+1], run[j+1].handlers[other]);
  }

  /** A handler whose command id is in the ledger gets no decision. */
  lemma LateAct(s: State, step: Step, h: nat)
    requires Enabled(s, step) && ActsBy(step, h) && s.handlers[h].command in s.store.commands
    ensures h < |Do(s, step).handlers|
    ensures var p := Do(s, step).handlers[h].phase; p.Finished? ==>
      p.outcome in {NotFound, NotOpen, RelayedToWorker, IntentMismatch, Conflict, Duplicate, Invalid}
  {
  }

  lemma WinnerStands(run: seq<State>, steps: seq<Step>, i: nat, j: nat, winner: nat)
    requires IsRun(run, steps) && i <= j < |run|
    requires winner < |run[i].handlers| && Won(run[i].handlers[winner])
    ensures Settled(run[j], run[i].handlers[winner])
  {
    RunKeeps(run, steps, i);
    RunKeeps(run, steps, j);
    RunExtends(run, steps, i, j);
    SettledStays(run[i], run[j], run[i].handlers[winner]);
  }

  /** When it is about the same approval, its next step answers it: the approval is not open any more, or it is relayed
      while a worker holds the session, or the intent is wrong, or else the sequence has moved on. */
  lemma OverlapStep(run: seq<State>, steps: seq<Step>, i: nat, j: nat, winner: nat, other: nat)
    requires IsRun(run, steps) && i <= j < |steps|
    requires winner < |run[i].handlers| && Won(run[i].handlers[winner])
    requires ActsBy(steps[j], other) && run[j].handlers[other].approval == run[i].handlers[winner].approval
    ensures other < |run[j+1].handlers|
    ensures var x, p := run[j].handlers[other], run[j+1].handlers[other].phase;
      match steps[j]
      case Load(_) => p == Finished(NotOpen)
      case CheckHeld(_) => p == if run[j].store.held then Finished(RelayedToWorker) else Unheld(1, run[i].handlers[winner].intent)
      case _ => p == Finished(if x.intent == run[i].handlers[winner].intent then Conflict else IntentMismatch)
  {
    WinnerStands(run, steps, i, j, winner);
    RunKeeps(run, steps, j);
    assert Takes(run[j], steps[j], run[j+1]);
  }

  // ---- compare-and-append alone -----------------------------------------------------------------------------

  /** A step in which the API's append looks at the expected sequence and not at the event it would follow. */
  predicate TakesBySequence(s: State, step: Step, t: State)
  {
    Enabled(s, step) && t == if step.Decide? then DecideBy(s, step.h, false) else Do(s, step)
  }

  ghost predicate IsSequenceRun(run: seq<State>, steps: seq<Step>)
  {
    && |run| == |steps| + 1
    && run[0] == State(Store(map[], map[], false), [])
    && forall i {:trigger steps[i]} | 0 <= i < |steps| :: TakesBySequence(run[i], steps[i], run[i+1])
  }

  /** A handler read the approval open, so a log that still has the length it read is still open. */
  lemma SequenceDecides(s: State, h: nat)
    requires LogsLegal(s) && ReadsHold(s) && At(s, h) && s.handlers[h].phase.Unheld?
    ensures DecideBy(s, h, false) == DecideBy(s, h, true)
  {
    var log := s.store.logs[s.handlers[h].approval];
    assert |log| == 1 ==> CanFollow(log, Resolved(s.handlers[h].approve, Api(s.handlers[h].command)));
  }

  lemma {:induction false} SequenceRunSteps(run: seq<State>, steps: seq<Step>, i: nat)
    requires IsSequenceRun(run, steps) && i < |run|
    ensures Inv(run[i]) && forall k {:trigger steps[k]} | 0 <= k < i :: Takes(run[k], steps[k], run[k+1])
  {
    if i > 0 {
      SequenceRunSteps(run, steps, i - 1);
      assert TakesBySequence(run[i-1], steps[i-1], run[i]);
      if steps[i-1].Decide? { SequenceDecides(run[i-1], steps[i-1].h); }
      StepKeeps(run[i-1], steps[i-1]);
    }
  }

  /** The expected sequence alone carries the promises: without the projection's check the API's runs are the same. */
  lemma SequenceSuffices(run: seq<State>, steps: seq<Step>)
    requires IsSequenceRun(run, steps)
    ensures IsRun(run, steps)
    ensures forall i, a | 0 <= i < |run| && a in run[i].store.logs :: Resolutions(run[i].store.logs[a]) <= 1
  {
    SequenceRunSteps(run, steps, |steps|);
    forall i, a | 0 <= i < |run| && a in run[i].store.logs ensures Resolutions(run[i].store.logs[a]) <= 1 {
      ResolvedOnce(run, steps, i, a);
    }
  }

  // ---- what a request gets, and why ---------------------------------------------------------------------------

  /** The next step of a handler. */
  function OwnStep(p: Phase, h: nat): Step
    requires !p.Finished?
  {
    match p
    case Arrived => Replay(h)
    case New => Load(h)
    case Loaded(_, _) => CheckHeld(h)
    case Unheld(_, _) => Decide(h)
  }

  function Advance(s: State, h: nat): (t: State)
    requires At(s, h)
    ensures |t.handlers| == |s.handlers|
  {
    if s.handlers[h].phase.Finished? then s else Do(s, OwnStep(s.handlers[h].phase, h))
  }

  /** The handler takes all its steps with no other step between. */
  function Alone(s: State, h: nat): State
    requires At(s, h)
  {
    Advance(Advance(Advance(Advance(s, h), h), h), h)
  }

  /** What a request that is not disturbed is answered with, and what it leaves in the store. */
  function AnswerFor(s: Store, x: Handler): (Outcome, Store)
  {
    if x.command in s.commands then (Replayed(s.commands[x.command]), s)
    else if x.approval !in s.logs || s.logs[x.approval] == [] || !s.logs[x.approval][0].Requested? then (NotFound, s)
    else
      var log := s.logs[x.approval];
      var decision := Decision(x.approval, x.approve, x.intent);
      if |log| > 1 then (NotOpen, s)
      else if s.held then (RelayedToWorker, s.(commands := s.commands[x.command := Record(Pending, Relayed)]))
      else if log[0].intentHash != x.intent then
        (IntentMismatch, s.(commands := s.commands[x.command := Record(Rejected, Mismatch)]))
      else
        (Done(decision),
         s.(logs := s.logs[x.approval := log + [Resolved(x.approve, Api(x.command))]],
            commands := s.commands[x.command := Record(Accepted, decision)]))
  }

  /** On every run, a request that is not disturbed gets its answer; above all, the first right one decides. */
  lemma UndisturbedAnswer(run: seq<State>, steps: seq<Step>, i: nat, h: nat)
    requires IsRun(run, steps) && i < |run| && At(run[i], h) && run[i].handlers[h].phase == Arrived
    ensures var t := Alone(run[i], h);
      t.handlers[h].phase == Finished(AnswerFor(run[i].store, run[i].handlers[h]).0) &&
      t.store == AnswerFor(run[i].store, run[i].handlers[h]).1
  {
    RunKeeps(run, steps, i);
    var s := run[i];
    var x := s.handlers[h];
    if x.approval in s.store.logs { assert Legal(s.store.logs[x.approval]); }
    var s1 := Advance(s, h);
    if x.command !in s.store.commands {
      var s2 := Advance(s1, h);
      assert s2.handlers[h] == x.(phase := LoadPhase(s.store, x)) && s2.store == s.store;
    }
  }

  /** From any state of a run in which the approval is open, the command id unrecorded and the lease free, a request with
      the right intent that is not disturbed decides. */
  lemma RightRequestDecides(run: seq<State>, steps: seq<Step>, i: nat, h: nat)
    requires IsRun(run, steps) && i < |run| && At(run[i], h) && run[i].handlers[h].phase == Arrived
    requires var s, x := run[i].store, run[i].handlers[h];
      && x.approval in s.logs && s.logs[x.approval] == [Requested(x.intent)] && x.command !in s.commands && !s.held
    ensures var x, t := run[i].handlers[h], Alone(run[i], h);
      && t.handlers[h].phase == Finished(Done(Decision(x.approval, x.approve, x.intent)))
      && t.store.logs == run[i].store.logs[x.approval := [Requested(x.intent), Resolved(x.approve, Api(x.command))]]
  {
    UndisturbedAnswer(run, steps, i, h);
    var x := run[i].handlers[h];
    assert [Requested(x.intent)] + [Resolved(x.approve, Api(x.command))] ==
           [Requested(x.intent), Resolved(x.approve, Api(x.command))];
  }

  /** The store's state that an answer given by `step` stands for. */
  predicate Caused(s: Store, x: Handler, step: Step, h: nat, o: Outcome)
  {
    var log := if x.approval in s.logs then s.logs[x.approval] else [];
    match o
    case Replayed(r) => x.command in s.commands && r == s.commands[x.command]
    case NotFound => step == Load(h) && x.approval !in s.logs
    case NotOpen => |log| == 2
    case RelayedToWorker => s.held
    case IntentMismatch => log != [] && log[0].Requested? && log[0].intentHash != x.intent
    case Conflict => |log| == 2
    case Duplicate => x.command in s.commands
    case Done(_) => log == [Requested(x.intent)] && x.command !in s.commands
    case Invalid => false
  }

  /** Why a handler is answered as it is, at the step that answers it. */
  lemma AnswerCause(run: seq<State>, steps: seq<Step>, j: nat, h: nat)
    requires IsRun(run, steps) && j < |steps| && At(run[j], h)
    requires !run[j].handlers[h].phase.Finished? && At(run[j+1], h) && run[j+1].handlers[h].phase.Finished?
    ensures Caused(run[j].store, run[j].handlers[h], steps[j], h, run[j+1].handlers[h].phase.outcome)
  {
    RunKeeps(run, steps, j);
    assert Takes(run[j], steps[j], run[j+1]);
    CauseOf(run[j], steps[j], h);
  }

  lemma CauseOf(s: State, step: Step, h: nat)
    requires LogsLegal(s) && ReadsHold(s) && Enabled(s, step) && At(s, h) && At(Do(s, step), h)
    requires !s.handlers[h].phase.Finished? && Do(s, step).handlers[h].phase.Finished?
    ensures Caused(s.store, s.handlers[h], step, h, Do(s, step).handlers[h].phase.outcome)
  {
    var x := s.handlers[h];
    assert ReadHolds(s, x) && step == OwnStep(x.phase, h);
    if x.approval in s.store.logs { assert Legal(s.store.logs[x.approval]); }
  }

  /** A worker that settles the approval while a handler is between its read and its append makes that handler lose, and
      the worker's event stays the approval's last. */
  lemma WorkerSettlesFirst(run: seq<State>, steps: seq<Step>, i: nat, h: nat, e: Event)
    requires IsRun(run, steps) && i < |run| && At(run[i], h) && run[i].handlers[h].phase.Unheld?
    requires Enabled(run[i], WorkerAppends(run[i].handlers[h].approval, e))
    requires run[i].handlers[h].intent == run[i].handlers[h].phase.intentHash
    ensures var x := run[i].handlers[h];
      var t := Do(run[i], WorkerAppends(x.approval, e));
      && Enabled(t, Decide(h)) && Do(t, Decide(h)).handlers[h].phase == Finished(Conflict)
      && Do(t, Decide(h)).store.logs[x.approval] == [Requested(x.intent), e]
  {
    RunKeeps(run, steps, i);
    assert ReadHolds(run[i], run[i].handlers[h]) && Legal(run[i].store.logs[run[i].handlers[h].approval]);
  }

  /** A relayed command that the worker has completed is answered to a retry with what the worker recorded. */
  lemma CompletedAnswersRetry(s: State, c: CommandId, r: Record, h: nat)
    requires Enabled(s, Complete(c, r)) && At(s, h) && s.handlers[h].phase == Arrived && s.handlers[h].command == c
    ensures var t := Do(s, Complete(c, r));
      Enabled(t, Replay(h)) && Do(t, Replay(h)).handlers[h].phase == Finished(Replayed(r))
  {
  }

  // ---- both outcomes happen ------------------------------------------------------------------------------------

  /** From an empty store, one opening and one request: the request decides when no worker holds the session, and is
      relayed when one does. */
  lemma OutcomesReached(x: Handler, held: bool) returns (run: seq<State>, steps: seq<Step>)
    requires x.phase == Arrived
    ensures IsRun(run, steps) && At(run[|steps|], 0) && run[|steps|].handlers[0] == x
    ensures Alone(run[|steps|], 0).handlers[0].phase ==
      Finished(if held then RelayedToWorker else Done(Decision(x.approval, x.approve, x.intent)))
  {
    var s0 := State(Store(map[], map[], false), []);
    steps := [Open(x.approval, x.intent), Lease(held), Arrive(x)];
    var s1 := Do(s0, steps[0]);
    var s2 := Do(s1, steps[1]);
    var s3 := Do(s2, steps[2]);
    run := [s0, s1, s2, s3];
    UndisturbedAnswer(run, steps, 3, 0);
  }
}
