# Verified model of the project graph and the cloud API protocols

A Dafny model of the repository's stateful core, with proofs about all inputs, all states and all runs.

**The project graph** (`tools/graph.py`, `tools/check_dossier.py`). Nodes, edges and the derived milestone, gate and
release states (`ProjectGraph`); `set` and `attest` as they run on the stored graph (`Commands`); the dependency check
with its depth-first search (`DependencyFindings`, `CycleSearch`); the milestone order (`TopoMilestones`); the goal plan with its
worklist, waves and blockers (`GoalPlan`, `Waves`, `GoalSteps`). On top of them:

- A release can be made READY by some sequence of commands **if and only if** it has an item, its plan has no cycle and
  every step of the plan can be completed (`Execution.AttainableIff`). One half works the plan off with accepted
  commands, counted; the other half shows that a stuck set of steps stays stuck under every command.
- A sound graph that passes the dependency check, with no milestone both gated and depended on, is never deadlocked:
  whatever commands were issued before, the release can still be made READY (`Release.AlwaysRecoverable`).
- What every run keeps of an item's history (`Lifecycle`), of the checks G3, G4 and G7 (`Checker`), and of the steps a
  BLOCKED item holds (`HeldSteps`).

**The cloud API** (`apps/cloud-api`). The event stream with its resume cursor under concurrent appends and dropped
notices (`Stream`), the token bucket (`RateLimiter`), timestamps (`IsoTime`), the worker link registry and the request
table (`WorkerLinks`, `AskTable`), concurrent decisions on an approval (`Approvals`) and the provider key cache
(`OidcKeys`). The protocols are state machines whose steps interleave in any order.

`Ids`, `Digraph` and `Text` hold identifiers, finite relations and string splitting. `dafny verify dfyconfig.toml` checks
everything.

## What the code does that its comments do not say

Each of these is a theorem below, with the exact condition where there is one.

- The path `dependency_findings` prints as a cycle is in general a way *into* a cycle and once around it
  (`DependencyFindings.LeadInExample`). All printed paths are closed walks exactly when every cycle of the graph goes
  through the least node that reaches it (`CycleSearch.ReportsClosedIff`, an `ensures` of `DependencyFindings.Findings`).
- `dependency_findings` follows no gate edge. A graph it passes can still have a cyclic plan
  (`Transfer.KnotClean`, `Transfer.KnotPlanCycles`; for a gate that requires itself, `Transfer.SelfGateCycles`); the plan is acyclic in every state exactly when the envelope of
  possible waits is (`Transfer.EnvelopeIff`).
- A wave-0 item fails the prerequisite checks of `set` exactly when a milestone upstream of it has no work
  (`GoalSteps.WaveZeroStartable`).
- Taking an item off COMPLETE does not cascade; G3, G4 and G7 survive it exactly when nothing finished rests on the item
  (`Checker.TakeOffIff`). Attesting a gate that requires no task breaks G7, and only that does (`Checker.AttestIff`).
- A stream cursor of 2^63 or more is replayed the log from its start (`Stream.WrappedCursorReplays`), and a stream is not
  woken once the process's notification connection has died (`Stream.DeadListenerStalls`, `Stream.DeadListenerReached`).
- The time limit of an ask does not cover the send. An unfinished ask has no step of its own exactly when it has not sent
  yet, 64 messages are queued and the link's task is still there (`AskTable.StuckIff`), and runs get there
  (`AskTable.StuckReached`).
- An ask that is waiting when its link ends is never told so: it waits out its time (`AskTable.SenderNeverGone`). An ask
  whose caller goes away leaves its table entry behind until an ack names it (`AskTable.AbandonLeaks`).
- A request that carries the winning decision's command id, but looked it up before that decision was recorded, is never
  answered with it: about the same approval it is told that the approval is not open, or that the sequence has moved on, or
  it is relayed (`Approvals.OverlapAnswers`, `Approvals.OverlapStep`).
- The key throttle does not cover failed fetches (`OidcKeys.FailureNotThrottled`).
- The timestamp parser accepts day 31 of every month and rolls it over (`IsoTime.ShortMonthRollsOver`).

## Hypotheses

- `set` and `attest` take the acceptance of an evidence reference as an arbitrary predicate; theorems that need an
  accepted command ask for one acceptable reference.
- A graph under the commands has no dangling edge and a milestone for every milestone task; where one is missing the
  source raises before it saves.
- `Sound` (for `NoDeadlock` and `AlwaysRecoverable`): depended-on milestones have work, gates require tasks, required
  tasks are work items, no change record is PROPOSED, and no work item carries a status outside the vocabulary.
- A session's events are appended at consecutive offsets (crates/event-store/src/cloud/mod.rs:1341-1444), fewer than 2^63.
- The rate limiter is over the reals; its window bound is for times that do not decrease per key.
- Request ids of asks are never reused.

## Model

| member | source | states |
|---|---|---|
| ProjectGraph.MilestoneStateOf | tools/graph.py:126-139 | a milestone is COMPLETE exactly when it has work, all of it is COMPLETE and every gate on it is SATISFIED |
| ProjectGraph.MilestoneRollUp | tools/graph.py:126-139 | exact conditions of BLOCKED, GATED and NOT_STARTED, among them that an empty milestone is NOT_STARTED |
| ProjectGraph.GateStateOf | tools/graph.py:148-153 | exact conditions of SATISFIED and TASKS_COMPLETE over the required tasks and the evidence; OPEN is the rest |
| ProjectGraph.ReleaseStateOf | tools/graph.py:159-168 | exact conditions of READY and BLOCKED |
| ProjectGraph.MilestoneOfIff | tools/graph.py:107-119 | the milestone an item counts under, read off the edges: its first part_of, or its first schedule when it has an owner |
| ProjectGraph.AdvancesKeeps | tools/graph.py:126-153 | satisfied gates and COMPLETE milestones stay so while nothing leaves COMPLETE and no node loses its evidence, however the edges are typed |
| Commands.ProjectFile.Set | tools/graph.py:281-339 | the command, check by check, computes the outcome of `ApplySet`; a refusal leaves the stored graph as it was |
| Commands.ProjectFile.Attest | tools/graph.py:342-369 | the command computes the outcome of `ApplyAttest`; a refusal changes nothing |
| Commands.ProjectFile.Record | tools/graph.py:291-297 | all references are recorded once each, or the first malformed one refuses |
| Commands.ProjectFile.Move | tools/graph.py:312-331 | the lifecycle move and its refusals |
| Commands.SetAcceptedIff | tools/graph.py:284-330 | `set` is accepted exactly when none of its rules fails, each stated over the stored graph and the arguments alone |
| Commands.SetRefusesFirst | tools/graph.py:284-330 | a refused `set` names the first rule that fails in the order of the source's checks |
| Commands.PrereqsMetIff | tools/graph.py:300-306 | the prerequisite checks pass exactly when no edge leads to an open after-target and no milestone upstream by the edges is incomplete |
| Commands.AttestRefusesFirst | tools/graph.py:344-362 | a refused `attest` names the first rule that fails, over the stored graph alone |
| Commands.AttestEffect | tools/graph.py:355-362 | an accepted `attest` adds exactly the new references to its gate and changes nothing else |
| Commands.SetEffect | tools/graph.py:291-339 | an accepted `set` changes its own item only: status, exactly the new references, and the state a block left, noted on entry and dropped on leaving |
| Commands.MergeContents | tools/graph.py:296-297 | recorded references are the old and the new ones, without duplicates |
| Commands.MergeInOrder | tools/graph.py:296-297 | references are recorded in the order given: a prefix of them leaves a prefix |
| DependencyFindings.Findings | tools/graph.py:171-216 | a cycle is reported if and only if the combined relation has one; every cycle is met by a report; every report is a walk into a cycle from the least node that reaches it; reports come in lexicographic order, none twice; all are closed walks exactly when every cycle goes through the least node that reaches it |
| DependencyFindings.FindingsExact | tools/graph.py:175-195 | dangling are reported exactly the edges with an unknown end, mistyped exactly the others that join the wrong kinds; in edge order |
| DependencyFindings.CombinedByEdges | tools/graph.py:173-199 | the combined relation over edges and kinds alone, mistyped edges included |
| DependencyFindings.BuildAdjacency | tools/graph.py:173-199 | the adjacency built edge by edge and milestone by milestone is exactly the combined relation |
| CycleSearch.Search.Visit | tools/graph.py:202-212 | the depth-first visit: active is the path, reports continue it and end off the nodes visited before, the node ends up visited or reported as a back edge, and every edge from a visited node stays inside or is reported |
| CycleSearch.SearchAll | tools/graph.py:201-216 | the search from every node in sorted order: every report starts at the least node that reaches its cycle, every cycle is met by a report, and the reports come in lexicographic order, none twice |
| CycleSearch.LassoHasCycle | tools/graph.py:203-205 | the end of a reported path is a closed walk |
| CycleSearch.ReportsClosedIff | tools/graph.py:203-215 | reports that start at the least node reaching their cycle and meet every cycle are all closed walks exactly when every cycle goes through the least node that reaches it |
| DependencyFindings.LeadInExample | tools/graph.py:203-215 | on two tasks the first report is not a closed walk |
| TopoMilestones.Topo | tools/graph.py:619-628 | an order is returned exactly when milestone dependencies are acyclic and stay among milestones; it is a permutation, by length of the longest chain of dependencies and then by id |
| TopoMilestones.CleanHasOrder | tools/graph.py:171-216 | with no findings the order always exists |
| GoalPlan.Worklist | tools/graph.py:453-461 | the stack loop finds exactly the steps, each with its prerequisites |
| GoalPlan.StepsLeast | tools/graph.py:414-461 | the steps are contained in every prerequisite-closed set with the release's open items and unsatisfied gates, which are read off the edges |
| GoalPlan.StepsClosed | tools/graph.py:414-461 | the steps contain those roots and are closed under prerequisites |
| GoalPlan.PrereqIff | tools/graph.py:431-451 | the computed prerequisites are exactly the open after-targets, open upstream work, unsatisfied upstream gates and open required tasks |
| GoalPlan.PrereqsByEdges | tools/graph.py:431-451 | the same over edges, kinds and statuses alone |
| GoalPlan.StartNeedsUpstream | tools/graph.py:300-303 | an item that counts under a milestone starts only when everything that milestone depends on is COMPLETE, and waits on all that is open there |
| GoalPlan.NoMilestoneNoUpstream | tools/graph.py:113-118 | an imp task without an owner or a schedule has no upstream: only its after-targets hold it |
| GoalPlan.ReadyIffNoSteps | tools/graph.py:159-168 | a release is READY exactly when it has an item and nothing is left to do |
| GoalPlan.StartableIff | tools/graph.py:300-306 | an item passes the prerequisite checks exactly when it waits on nothing and no upstream milestone is empty |
| GoalPlan.AttestableIff | tools/graph.py:352-354 | a gate passes the required-task check exactly when it waits on nothing |
| Waves.Planner.WaveOf | tools/graph.py:465-474 | the memoised recursion ends on every graph, cyclic or not, never changes an entry, and on acyclic ones keeps the table right entry by entry |
| Waves.RightWaveIsLongest | tools/graph.py:421-423 | a table that is right entry by entry holds the exact longest-path lengths |
| Waves.Planner.HeldBy | tools/graph.py:476-487 | the same for the blockers, whichever step is visited first |
| Waves.RightHeldIsBlockers | tools/graph.py:422-423 | such a table holds exactly the BLOCKED items in the transitive closure of the prerequisites |
| Waves.Planner.Fill | tools/graph.py:489-491 | both tables are complete whatever order the steps come in; every wave is the length of some chain and every held-by a true blocker, on cyclic plans too; on acyclic plans every wave is the longest-path length and every held-by set exact |
| GoalSteps.Goal | tools/graph.py:414-504 | each step once, with its node's kind and milestone order, listed by wave, work before gates, milestone order, milestone tasks first, id; wave 0 exactly for steps that wait on nothing; on acyclic plans exact waves and blockers and every prerequisite listed first |
| GoalSteps.OrderedPlan | tools/graph.py:502-503 | sorting by wave puts every prerequisite before its dependants |
| Ids.LeIff | tools/graph.py:502-503 | the order of ids: a prefix first, else by the first different character |
| GoalSteps.WaveZeroStartable | tools/graph.py:421-423 | wave-0 items are exactly the steps that pass the prerequisite checks of `set`, except below an empty milestone |
| HeldSteps.HeldUntilResolved | tools/graph.py:422-423 | a step held by a blocker is not done after any run in which the blocker was never COMPLETE |
| Attainability.StuckForever | tools/graph.py:281-369 | a set of open steps that wait on each other or cannot be completed stays that way under every run |
| Attainability.UnworkableIsStuck | tools/graph.py:431-461 | a plan with a cycle or an uncompletable step has a stuck set holding one of the release's own items or gates |
| Execution.CompleteItem | tools/graph.py:298-331 | a free completable item reaches COMPLETE by at most seven accepted sets that change nothing else |
| Execution.SatisfyGate | tools/graph.py:342-369 | a free completable gate is satisfied by one accepted attestation |
| Execution.FinishedShrinks | tools/graph.py:431-461 | finishing a step takes it out of the plan, adds nothing and keeps the rest workable |
| Execution.WorkOff | tools/graph.py:281-369 | a workable plan is worked off by accepted commands: at most seven sets per item, one attestation per gate |
| Execution.AttainableIff | tools/graph.py:281-369 | a release can be made READY exactly when it has an item, its plan is acyclic and every step is completable |
| Execution.NoDeadlock | tools/graph.py:281-504 | in a sound graph with an acyclic prerequisite relation every release with an item becomes READY from any state, with the counts |
| Release.AlwaysRecoverable | tools/graph.py:171-216 | a clean, sound graph with no milestone both gated and depended on is never deadlocked by any past sequence of commands |
| Transfer.CleanTransfers | tools/build_graph.py:632-637 | no findings, no milestone both gated and depended on, and gates that require work items only: the plan is acyclic in every state |
| Transfer.SelfGateCycles | tools/graph.py:193-199 | the last hypothesis is needed: a gate that requires itself passes the check and its plan has a cycle |
| Transfer.EnvelopeIff | tools/graph.py:431-451 | the plan is acyclic in every state exactly when the envelope of possible waits is |
| Transfer.GateKnotCycles | tools/graph.py:448-449 | a gate on a milestone that requires a task below it makes the plan cyclic as long as that task is open |
| Transfer.KnotClean | tools/graph.py:193-199 | the dependency check reports nothing on such a graph |
| Transfer.KnotPlanCycles | tools/graph.py:431-451 | and yet its plan has a cycle |
| Lifecycle.HistoryInOrder | tools/graph.py:312-331 | on every run an item was first in each lifecycle state in lifecycle order, and was never at or blocked from a state beyond those |
| Lifecycle.EntriesWereMet | tools/graph.py:300-306 | every entry into a state past NOT_STARTED found all prerequisites COMPLETE |
| Lifecycle.MoveBound | tools/graph.py:312-331 | a command raises the attained position by at most one, and BLOCKED never raises it |
| Checker.Check | tools/check_dossier.py:220-254 | the loop over all nodes reports exactly the violations of G3, G4 and G7, and none exactly when the graph passes |
| Checker.PassesMeans | tools/check_dossier.py:220-254 | passing, node by node, over statuses, evidence and edges alone |
| Checker.SetKeeps | tools/check_dossier.py:220-254 | a set that takes nothing off COMPLETE keeps G3, G4 and G7 |
| Checker.TakeOffIff | tools/check_dossier.py:248-254 | taking an item off COMPLETE keeps them exactly when no COMPLETE item comes after it or below a milestone whose work or gates need it, and no attested gate requires it |
| Checker.AttestIff | tools/check_dossier.py:221-227 | an attestation keeps them exactly when the gate requires a task |
| Checker.RunKeeps | tools/check_dossier.py:220-254 | all runs that take nothing off COMPLETE keep them |
| Checker.FreshRunPasses | tools/check_dossier.py:220-254 | so every such run from a fresh graph passes them |
| Stream.SeenIsConsecutive | apps/cloud-api/src/stream.rs:73-156 | on every run and across reconnects the client has seen consecutive events from its first cursor on |
| Stream.IdleIsCaughtUp | apps/cloud-api/src/stream.rs:109-142 | an idle stream with no notice outstanding has sent the whole log past its cursor |
| Stream.InternalRunsEnd | apps/cloud-api/src/stream.rs:118-142 | left alone, a connected stream takes a bounded number of steps |
| Stream.StuckMeansDelivered | apps/cloud-api/src/stream.rs:118-142 | and when none is possible the client has seen every event past its first cursor |
| Stream.CanDeliver | apps/cloud-api/src/stream.rs:109-142 | from every connected state some run of internal steps ends with everything past the first cursor seen |
| Stream.ReconnectDelivers | apps/cloud-api/src/stream.rs:73-156 | from every state of every run, closed or not, reconnecting and subscribing leads to everything seen, each event once |
| Stream.StepKeeps | apps/cloud-api/src/stream.rs:73-156 | every step of store, fan-out, stream and client keeps the cursor and wake-up invariant |
| Stream.WrappedCursorReplays | apps/cloud-api/src/stream.rs:73-80 | a first cursor of 2^63 or more is answered from the start of the log |
| Stream.DeadListenerStalls | apps/cloud-api/src/lib.rs:276-283 | with the notification connection gone an append leaves an idle stream behind with nothing to wake it |
| Stream.DeadListenerReached | apps/cloud-api/src/lib.rs:276-283 | from any log, a run of a caught-up client ends with an unseen event and no step left to deliver it |
| Stream.Connection.Pump | apps/cloud-api/src/stream.rs:76-108 | the fetch-and-send loop, against a log that grows at every await, sends consecutive events and ends with all of them sent |
| Stream.Connection.SendBatch | apps/cloud-api/src/stream.rs:86-95 | a batch is sent in order and the cursor follows each event |
| RateLimiter.Limiter.AdmitAt | apps/cloud-api/src/rate.rs:37-49 | one request refills, caps, takes a token when there is one, and touches its own key only |
| RateLimiter.KeysIndependent | apps/cloud-api/src/rate.rs:37-49 | each key is answered as if it were alone |
| RateLimiter.LimiterWindow | apps/cloud-api/src/rate.rs:37-49 | between any two requests of a key at most capacity plus elapsed seconds times per_second is admitted |
| RateLimiter.LimiterOptimal | apps/cloud-api/src/rate.rs:37-49 | no choice that keeps this bound in every window admits more requests of a key, at any prefix |
| RateLimiter.LimiterOptimalAnyClock | apps/cloud-api/src/rate.rs:37-49 | the same in tokens when the clock may go back |
| RateLimiter.LimiterLevel | apps/cloud-api/src/rate.rs:39-48 | the stored level stays between zero and the capacity |
| RateLimiter.SpacedNeverRefused | apps/cloud-api/src/rate.rs:37-49 | a caller spaced by one token's refill is never refused |
| IsoTime.ClosedFormIsNaive | apps/cloud-api/src/forge.rs:590-596 | the closed form equals a year-by-year, month-by-month day count for every date of every year |
| IsoTime.MillisIncrease | apps/cloud-api/src/forge.rs:590-597 | a later valid stamp has a greater count |
| IsoTime.NextDayAdds | apps/cloud-api/src/forge.rs:590-597 | the next day is exactly 86,400,000 later |
| IsoTime.FourDigitsFit | apps/cloud-api/src/forge.rs:597 | four-digit years stay within a signed 64-bit integer |
| IsoTime.ReadsBack | apps/cloud-api/src/forge.rs:570-598 | every text of the form with a four-digit year is read exactly when its fields are in range |
| IsoTime.RoundTrip | apps/cloud-api/src/forge.rs:568-598 | a valid stamp, written out, parses to the naive count |
| IsoTime.PaddedReads | apps/cloud-api/src/forge.rs:571 | white space around the stamp changes nothing |
| IsoTime.AcceptedForm | apps/cloud-api/src/forge.rs:570-598 | every text that is read, of any width, has a date, T, a clock, perhaps a fraction, and Z; its fields are in range and give the result |
| IsoTime.NumbersRead | apps/cloud-api/src/forge.rs:575-586 | a field is a decimal number with an optional sign, read exactly when it fits a signed 64-bit integer |
| IsoTime.ShortMonthRollsOver | apps/cloud-api/src/forge.rs:587 | a day past a short month counts on into the next month |
| WorkerLinks.Registry.Connect | apps/cloud-api/src/browser_view.rs:150-162 | the insertion is the interleaved system's Connect step, and keeps every entry its worker's newest link |
| WorkerLinks.Registry.Tick | apps/cloud-api/src/browser_view.rs:169-180 | the check is the Tick step: the link goes on exactly when the map still holds this very link |
| WorkerLinks.Registry.Exit | apps/cloud-api/src/browser_view.rs:213-216 | the final section is the Exit step, and keeps the invariant |
| WorkerLinks.Registry.Disconnect | apps/cloud-api/src/browser_view.rs:70-72 | the revocation is the Disconnect step; the answer is true exactly when the worker had a link that was not dropped |
| WorkerLinks.EntryIsNewest | apps/cloud-api/src/browser_view.rs:150-218 | on every run an entry is its worker's most recently inserted link and has not finished its exit |
| WorkerLinks.ReplaceDrops | apps/cloud-api/src/browser_view.rs:157-162 | a newer link of the same worker, or a disconnect, takes the older one off the list |
| WorkerLinks.ExitRemovesOwn | apps/cloud-api/src/browser_view.rs:213-216 | an exit removes no entry but its own |
| WorkerLinks.ReplacedStops | apps/cloud-api/src/browser_view.rs:164-180 | a replaced or disconnected link is never listed again and has stopped after its next tick |
| WorkerLinks.OneLiveLink | apps/cloud-api/src/browser_view.rs:121-122 | of one worker's links at most one is listed, and it has not finished |
| WorkerLinks.StopsOnlyWhen | apps/cloud-api/src/browser_view.rs:167-180 | a link that is still held goes on: it stops only when its socket or channel ends or a tick finds it dropped |
| WorkerLinks.EntryChangesOnly | apps/cloud-api/src/browser_view.rs:70-72 | an entry changes only by its own worker's newer link or disconnect, or the exit of the link it names |
| WorkerLinks.ConnectAndExit | apps/cloud-api/src/browser_view.rs:150-218 | a new link is listed and running; one that made its exit is not listed |
| AskTable.AnswerIsFirstAck | apps/cloud-api/src/browser_view.rs:77-106 | an answer is the first ack with the ask's own request id |
| AskTable.AckAnswers | apps/cloud-api/src/browser_view.rs:90-202 | an ack that finds its ask waiting answers it: the value is ready and the timer never fires until it is returned or the caller goes away |
| AskTable.TimedOutUnacked | apps/cloud-api/src/browser_view.rs:98-104 | an ask that reports a timeout was not acked between its beginning and its timer |
| AskTable.UnlinkedWasOver | apps/cloud-api/src/browser_view.rs:82-89 | an ask that reports a dropped link found the link's task over when it sent |
| AskTable.OneOutcome | apps/cloud-api/src/browser_view.rs:90-105 | an ask that returned keeps its one outcome |
| AskTable.StuckIff | apps/cloud-api/src/browser_view.rs:77-106 | an ask under way has no step of its own exactly when it has not sent yet, the outbox of 64 is full and the link's task is alive |
| AskTable.StuckReached | apps/cloud-api/src/browser_view.rs:82-151 | a run reaches that state |
| AskTable.StuckUntil | apps/cloud-api/src/browser_view.rs:82 | only the link's task taking a message or ending, or the caller going away, ends it |
| AskTable.StuckEnds | apps/cloud-api/src/browser_view.rs:82 | once the link's task takes a message or ends, the ask has a step again |
| AskTable.StepsLowerLeft | apps/cloud-api/src/browser_view.rs:77-106 | every step of the ask's own brings it closer to its end, and no other step takes it back |
| AskTable.AtMostThreeOwnSteps | apps/cloud-api/src/browser_view.rs:77-106 | on no run does an ask take more than three steps of its own |
| AskTable.NoStaleEntry | apps/cloud-api/src/browser_view.rs:81-104 | no finished ask has a table entry |
| AskTable.SenderNeverGone | apps/cloud-api/src/browser_view.rs:92-96 | the "dropped its link" branch of a waiting ask is never taken |
| AskTable.AbandonLeaks | apps/cloud-api/src/browser_view.rs:81-106 | an abandoned ask's entry leaves the table exactly when an ack names it |
| AskTable.AbandonKeepsEntry | apps/cloud-api/src/browser_view.rs:81-106 | a caller that goes away leaves the entry where it is |
| Approvals.ResolvedOnce | apps/cloud-api/src/routes.rs:834-952 | with any number of handlers, and a worker, an approval is resolved at most once |
| Approvals.ResolverPresentedIntent | apps/cloud-api/src/routes.rs:894-912 | a resolution through the API belongs to a handler that presented the opening intent hash and whose answer is recorded |
| Approvals.UndisturbedAnswer | apps/cloud-api/src/routes.rs:834-952 | from every state of every run, the answer to a request that is not disturbed and the store it leaves, case by case |
| Approvals.RightRequestDecides | apps/cloud-api/src/routes.rs:894-951 | with the approval open, the id new, the lease free and the right intent, the request decides and its event is appended |
| Approvals.AnswerCause | apps/cloud-api/src/routes.rs:854-951 | what the store was at the step that gave each answer; "not found" only when the approval was not opened |
| Approvals.WorkerSettlesFirst | apps/cloud-api/src/routes.rs:932-951 | a worker that settles between a handler's read and its append makes the handler lose |
| Approvals.CompletedAnswersRetry | apps/cloud-api/src/routes.rs:423-437 | a relayed command that the worker completed is answered to a retry with the worker's record |
| Approvals.OutcomesReached | apps/cloud-api/src/routes.rs:834-952 | runs from an empty store reach a decision, and a relay when the session is held |
| Approvals.SequenceSuffices | apps/cloud-api/src/routes.rs:932-951 | if the append of the API checked the expected sequence and not the transition, its runs would be the same and an approval still be resolved at most once |
| Approvals.OneWinner | apps/cloud-api/src/routes.rs:932-951 | at most one handler is told that it decided an approval, and at most one per command id |
| Approvals.LoserSeesSettled | apps/cloud-api/src/routes.rs:869-881 | a conflict or "not open" means a settlement is in the log; the append is never an invalid transition |
| Approvals.RetryAnswersRecorded | apps/cloud-api/src/routes.rs:423-437 | every later request with the winner's command id is answered with the recorded decision |
| Approvals.OverlapAnswers | apps/cloud-api/src/routes.rs:854-951 | a request with the winner's command id that found it unrecorded is answered with an error or relayed, never with a decision, and the record stays |
| Approvals.OverlapStep | apps/cloud-api/src/routes.rs:866-951 | step by step, what a request about an approval that was won meanwhile is answered with |
| OidcKeys.KeyCache.LookUp | apps/cloud-api/src/oidc.rs:293-325 | the lookup, branch by branch, computes `KeyFor` |
| OidcKeys.KeyIsFresh | apps/cloud-api/src/oidc.rs:293-318 | a returned key is in the newest fetched set, stored less than the time-to-live ago or served during the lookup |
| OidcKeys.UnknownIsRecent | apps/cloud-api/src/oidc.rs:312-325 | an unknown key id means a set without it was fetched no longer than the throttle ago |
| OidcKeys.FreshKeyUsed | apps/cloud-api/src/oidc.rs:295-311 | a set within its time-to-live that has the key id answers, without a request, whatever the provider would reply |
| OidcKeys.ThrottleHolds | apps/cloud-api/src/oidc.rs:309-325 | an id that set lacks is refused without a request within the throttle |
| OidcKeys.RotationFound | apps/cloud-api/src/oidc.rs:312-325 | past the throttle the provider is asked once more and its set decides |
| OidcKeys.StaleAsks | apps/cloud-api/src/oidc.rs:295-325 | without a set, or with a stale one, the provider is asked first, and which reply decides |
| OidcKeys.FetchesSpaced | apps/cloud-api/src/oidc.rs:295-319 | successful fetches are at least the time-to-live or the throttle apart |
| OidcKeys.FetchCountBound | apps/cloud-api/src/oidc.rs:295-319 | lookups over any period cause at most one successful fetch more than the period holds of the smaller of the two, however many ask and for whatever key ids |
| OidcKeys.FailureNotThrottled | apps/cloud-api/src/oidc.rs:300-313 | after a failed fetch the same key id asks the provider again at once |

## Left out

- Evidence reference grammar (`evidence_ref_error`): an arbitrary predicate here, since it reads the file system.
- Notes, agents, timestamps and titles of nodes, and the `waiting_on` text of a step: recorded or printed, never read back by a check.
- Rendering, listing, statistics and JSON input and output of `tools/graph.py`: presentation.
- Markdown parsing in `tools/build_graph.py` and the other checks of `tools/check_dossier.py` (documents, G1, G2, G5, G8, G9, G11): table comparison; the graph is taken as given.
- Stream.Connection.Pump: the store is given a finite, arbitrary number of appends, so that the loop can be proved to end; pings, the caught-up message and socket input are covered by the connection closing at any point.
- Stream.Init: a stream starts on a live notification connection; session and tenant checks before it are left out.
- RateLimiter.Limiter.AdmitAt: floating-point rounding.
- IsoTime.AcceptedForm: the arithmetic of the count itself is over the integers; 64-bit overflow for years far beyond four digits is not modelled.
- The event-time window and delivery bookkeeping of `ingestion_delivery` in `apps/cloud-api/src/forge.rs`: two comparisons and store calls.
- The link's task beside the ask table: it may take a queued message, hand on an ack or end at any moment; its order of doing so is not modelled.
- The ask/ack table and the approval handlers are modelled on values as interleaved steps, each one lock section or one transaction; update in place within a step is not.
- HMAC, signatures, HTTP exchange, SQL, leases and object storage: only the contract of `append`, `events_after` and the command ledger is modelled.
