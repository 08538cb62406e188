/** `set` and `attest`, the only commands that change the stored graph (tools/graph.py). */
module Commands {
  import opened Ids
  import opened Text
  import opened ProjectGraph

  /** The references `evidence_ref_error` accepts (tools/graph.py:54-68). */
  type RefCheck = string -> bool

  predicate AllOk(ok: RefCheck, refs: seq<string>)
  {
    forall i | 0 <= i < |refs| :: ok(refs[i])
  }

  /** Append, in order, each reference that is not recorded yet. */
  function Merge(recorded: seq<string>, refs: seq<string>): (r: seq<string>)
    ensures recorded <= r
    decreases refs
  {
    if refs == [] then recorded else
    var r := Merge(recorded, refs[..|refs|-1]);
    if refs[|refs|-1] in r then r else r + [refs[|refs|-1]]
  }

  lemma {:induction false} MergeContents(recorded: seq<string>, refs: seq<string>)
    ensures forall x :: x in Merge(recorded, refs) <==> x in recorded || x in refs
    ensures Distinct(recorded) ==> Distinct(Merge(recorded, refs))
    decreases refs
  {
    if refs != [] {
      MergeContents(recorded, refs[..|refs|-1]);
      assert refs == refs[..|refs|-1] + [refs[|refs|-1]];
    }
  }

  // ---- outcomes ---------------------------------------------------------------

  datatype Refusal =
    | UnknownNode | NotTracked | InvalidState | BadEvidence | NoEvidence
    | UpstreamIncomplete | PrerequisiteOpen | ChangeProposed
    | NoteRequired | AboveCeiling | StepTooLong
    | NotAGate | TasksPending
    | Crash  // a status outside LIFECYCLE has no index: the command raises before it saves

  datatype Outcome = Saved(graph: Project) | Refused(why: Refusal)

  datatype SetArgs = SetArgs(id: Id, state: Status, evidence: seq<string>, note: string)

  datatype AttestArgs = AttestArgs(id: Id, evidence: seq<string>, note: string)

  predicate MilestoneClear(g: Project, n: Id)
    requires n in g.nodes
  {
    var m := MilestoneOf(g, n);
    m.Some? ==> MilestoneUnblocked(g, m.value)
  }

  predicate AfterClear(g: Project, n: Id)
    requires n in g.nodes
  {
    AllComplete(g, Outs(g, n, After))
  }

  /** The prerequisites every state past NOT_STARTED needs. */
  predicate PrereqsMet(g: Project, n: Id)
    requires n in g.nodes
  {
    MilestoneClear(g, n) && AfterClear(g, n)
  }

  predicate IsProposed(g: Graph, d: Id)
  {
    d in g.nodes && g.nodes[d].kind == ChangeRecord && g.nodes[d].status == Foreign("PROPOSED")
  }

  /** A dossier task whose change record the owner has not accepted cannot be proven or completed. */
  predicate Unauthorized(g: Project, n: Id)
    requires n in g.nodes
  {
    g.nodes[n].kind == DossierTask && exists d | d in Outs(g, n, AuthorizedBy) :: IsProposed(g, d)
  }

  predicate EvidenceRequired(s: Status)
  {
    s == E2eProven || s == Complete
  }

  function Ceiling(n: Node): Status
  {
    if n.blockedFrom.Some? then n.blockedFrom.value else NotStarted
  }

  function MoveRefusal(n: Node, state: Status, note: string): (r: Option<Refusal>)
    requires !state.Foreign?
  {
    if state == n.status then None
    else if state == Blocked then
      if note == "" then Some(NoteRequired) else None
    else if n.status == Blocked then
      if !InLifecycle(Ceiling(n)) then Some(Crash)
      else if Level(state) > Level(Ceiling(n)) then Some(AboveCeiling)
      else None
    else if n.status.Foreign? then Some(Crash)
    else if Level(state) > Level(n.status) + 1 then Some(StepTooLong)
    else if Level(state) < Level(n.status) && note == "" then Some(NoteRequired)
    else None
  }

  function SetRefusal(ok: RefCheck, g: Project, a: SetArgs): (r: Option<Refusal>)
    ensures r.None? ==> a.id in g.nodes && IsWork(g.nodes[a.id].kind) && !a.state.Foreign?
  {
    if a.id !in g.nodes then Some(UnknownNode)
    else if !IsWork(g.nodes[a.id].kind) then Some(NotTracked)
    else if a.state.Foreign? then Some(InvalidState)
    else if !AllOk(ok, a.evidence) then Some(BadEvidence)
    else if EvidenceRequired(a.state) && Merge(g.nodes[a.id].evidence, a.evidence) == [] then Some(NoEvidence)
    else if a.state != NotStarted && a.state != Blocked && !MilestoneClear(g, a.id) then Some(UpstreamIncomplete)
    else if a.state != NotStarted && a.state != Blocked && !AfterClear(g, a.id) then Some(PrerequisiteOpen)
    else if EvidenceRequired(a.state) && Unauthorized(g, a.id) then Some(ChangeProposed)
    else MoveRefusal(g.nodes[a.id], a.state, a.note)
  }

  /** The item at another state; a block notes the state it left. */
  function Shifted(n: Node, state: Status): Node
  {
    n.(status := state,
       blockedFrom := if state == n.status then n.blockedFrom
                      else if state == Blocked then Some(n.status)
                      else if n.status == Blocked then None
                      else n.blockedFrom)
  }

  /** The item after a successful `set`. */
  function Moved(n: Node, a: SetArgs): Node
  {
    Shifted(n.(evidence := Merge(n.evidence, a.evidence)), a.state)
  }

  /** Replacing a node by one of the same kind keeps the shape. */
  lemma PutKeepsShape(g: Project, id: Id, n: Node)
    requires id in g.nodes && n.kind == g.nodes[id].kind
    ensures WellFormed(g.(nodes := g.nodes[id := n]))
    ensures SameShape(g, g.(nodes := g.nodes[id := n]))
  {
    var h := g.(nodes := g.nodes[id := n]);
    forall x | x in h.nodes && h.nodes[x].kind == MilestoneTask ensures Outs(h, x, PartOf) != [] {
      assert Outs(h, x, PartOf) == Outs(g, x, PartOf);
    }
  }

  function Put(g: Project, id: Id, n: Node): (h: Project)
    requires id in g.nodes && n.kind == g.nodes[id].kind
    ensures SameShape(g, h)
  {
    PutKeepsShape(g, id, n);
    g.(nodes := g.nodes[id := n])
  }

  function ApplySet(ok: RefCheck, g: Project, a: SetArgs): (o: Outcome)
    ensures o.Saved? ==> SameShape(g, o.graph)
  {
    var r := SetRefusal(ok, g, a);
    if r.Some? then Refused(r.value) else Saved(Put(g, a.id, Moved(g.nodes[a.id], a)))
  }

  function AttestRefusal(ok: RefCheck, g: Project, a: AttestArgs): (r: Option<Refusal>)
    ensures r.None? ==> a.id in g.nodes && g.nodes[a.id].kind == ReleaseGate && a.evidence != []
  {
    if a.id !in g.nodes then Some(UnknownNode)
    else if g.nodes[a.id].kind != ReleaseGate then Some(NotAGate)
    else if a.evidence == [] then Some(NoEvidence)
    else if !AllComplete(g, Outs(g, a.id, RequiresTask)) then Some(TasksPending)
    else if !AllOk(ok, a.evidence) then Some(BadEvidence)
    else None
  }

  function ApplyAttest(ok: RefCheck, g: Project, a: AttestArgs): (o: Outcome)
    ensures o.Saved? ==> SameShape(g, o.graph)
  {
    var r := AttestRefusal(ok, g, a);
    if r.Some? then Refused(r.value)
    else
      var n := g.nodes[a.id];
      Saved(Put(g, a.id, n.(evidence := Merge(n.evidence, a.evidence))))
  }

  // ---- what the commands require and do -----------------------------------------------

  /** A milestone that the one the item counts under depends on is not COMPLETE. */
  ghost predicate UpstreamOpen(g: Project, n: Id, m: Id, up: Id)
    requires n in g.nodes
  {
    CountsUnder(g, n, m) && Edge(m, up, DependsOn) in g.edges && MilestoneStateOf(g, up) != MComplete
  }

  predicate AfterOpen(g: Project, n: Id, d: Id)
  {
    Edge(n, d, After) in g.edges && g.nodes[d].status != Complete
  }

  lemma MilestoneClearIff(g: Project, n: Id)
    requires n in g.nodes
    ensures MilestoneClear(g, n) <==> !exists m, up :: UpstreamOpen(g, n, m, up)
  {
    var m := MilestoneOf(g, n);
    if m.Some? { MilestoneOfIff(g, n, m.value); }
    if !MilestoneClear(g, n) {
      var up :| up in Outs(g, m.value, DependsOn) && MilestoneStateOf(g, up) != MComplete;
      assert UpstreamOpen(g, n, m.value, up);
    }
    if m', up :| UpstreamOpen(g, n, m', up) {
      MilestoneOfIff(g, n, m');
      assert up in Outs(g, m', DependsOn);
    }
  }

  lemma AfterClearIff(g: Project, n: Id)
    requires n in g.nodes
    ensures AfterClear(g, n) <==> !exists d :: AfterOpen(g, n, d)
  {
    if !AfterClear(g, n) {
      var d :| d in Outs(g, n, After) && !IsComplete(g, d);
      assert AfterOpen(g, n, d);
    }
    if d :| AfterOpen(g, n, d) {
      assert d in Outs(g, n, After) && !IsComplete(g, d);
    }
  }

  /** The prerequisite checks, said over the edges alone. */
  lemma PrereqsMetIff(g: Project, n: Id)
    requires n in g.nodes
    ensures PrereqsMet(g, n) <==>
      (!exists d :: AfterOpen(g, n, d)) && (!exists m, up :: UpstreamOpen(g, n, m, up))
  {
    MilestoneClearIff(g, n);
    AfterClearIff(g, n);
  }

  /** Edge `d` of an item names a change record the owner has not accepted. */
  ghost predicate AwaitsOwner(g: Project, n: Id, d: Id)
  {
    Edge(n, d, AuthorizedBy) in g.edges && g.nodes[d].kind == ChangeRecord && g.nodes[d].status == Foreign("PROPOSED")
  }

  lemma UnauthorizedIff(g: Project, n: Id)
    requires n in g.nodes
    ensures Unauthorized(g, n) <==> g.nodes[n].kind == DossierTask && exists d :: AwaitsOwner(g, n, d)
  {
    if Unauthorized(g, n) {
      var d :| d in Outs(g, n, AuthorizedBy) && IsProposed(g, d);
      assert AwaitsOwner(g, n, d);
    }
    if g.nodes[n].kind == DossierTask && exists d :: AwaitsOwner(g, n, d) {
      var d :| AwaitsOwner(g, n, d);
      assert d in Outs(g, n, AuthorizedBy) && IsProposed(g, d);
    }
  }

  /** The move itself, on the node as it is stored. */
  predicate MoveFails(n: Node, a: SetArgs, why: Refusal)
  {
    match why
    case Crash => InLifecycle(a.state) &&
      (n.status.Foreign? || (n.status == Blocked && n.blockedFrom.Some? && !InLifecycle(n.blockedFrom.value)))
    case NoteRequired => a.note == "" && a.state != n.status &&
      (a.state == Blocked || (InLifecycle(n.status) && InLifecycle(a.state) && Level(a.state) < Level(n.status)))
    case AboveCeiling => n.status == Blocked && InLifecycle(a.state) &&
      (match n.blockedFrom
       case None => a.state != NotStarted
       case Some(from) => InLifecycle(from) && Level(a.state) > Level(from))
    case StepTooLong => InLifecycle(n.status) && InLifecycle(a.state) && Level(a.state) >= Level(n.status) + 2
    case _ => false
  }

  /** The rule behind each refusal of `set`, over the stored graph and the arguments alone. */
  ghost predicate Fails(ok: RefCheck, g: Project, a: SetArgs, why: Refusal)
  {
    var proven := a.state == E2eProven || a.state == Complete;
    var past := a.state != NotStarted && a.state != Blocked;
    match why
    case UnknownNode => a.id !in g.nodes
    case NotTracked => a.id in g.nodes && g.nodes[a.id].kind !in {MilestoneTask, ImpTask, DossierTask}
    case InvalidState => a.state.Foreign?
    case BadEvidence => exists ref :: ref in a.evidence && !ok(ref)
    case NoEvidence => a.id in g.nodes && proven && g.nodes[a.id].evidence == [] && a.evidence == []
    case UpstreamIncomplete => a.id in g.nodes && past && exists m, up :: UpstreamOpen(g, a.id, m, up)
    case PrerequisiteOpen => a.id in g.nodes && past && exists d :: AfterOpen(g, a.id, d)
    case ChangeProposed => a.id in g.nodes && proven &&
      g.nodes[a.id].kind == DossierTask && exists d :: AwaitsOwner(g, a.id, d)
    case _ => a.id in g.nodes && MoveFails(g.nodes[a.id], a, why)
  }

  const SET_CHECKS: seq<Refusal> := [
    UnknownNode, NotTracked, InvalidState, BadEvidence, NoEvidence, UpstreamIncomplete, PrerequisiteOpen, ChangeProposed,
    Crash, NoteRequired, AboveCeiling, StepTooLong]

  lemma BadEvidenceIff(ok: RefCheck, g: Project, a: SetArgs)
    ensures Fails(ok, g, a, BadEvidence) <==> !AllOk(ok, a.evidence)
  {
    if !AllOk(ok, a.evidence) {
      var i :| 0 <= i < |a.evidence| && !ok(a.evidence[i]);
      assert a.evidence[i] in a.evidence;
    }
  }

  lemma UpstreamCheckIff(ok: RefCheck, g: Project, a: SetArgs)
    requires a.id in g.nodes
    ensures Fails(ok, g, a, UpstreamIncomplete) <==> a.state != NotStarted && a.state != Blocked && !MilestoneClear(g, a.id)
  {
    MilestoneClearIff(g, a.id);
  }

  lemma AfterCheckIff(ok: RefCheck, g: Project, a: SetArgs)
    requires a.id in g.nodes
    ensures Fails(ok, g, a, PrerequisiteOpen) <==> a.state != NotStarted && a.state != Blocked && !AfterClear(g, a.id)
  {
    AfterClearIff(g, a.id);
  }

  lemma MoveChecks(n: Node, a: SetArgs)
    requires !a.state.Foreign?
    ensures var r := MoveRefusal(n, a.state, a.note);
      && (r.None? <==> forall why :: !MoveFails(n, a, why))
      && (r.Some? ==> MoveFails(n, a, r.value) && forall why | MoveFails(n, a, why) :: why == r.value)
  {
    var r := MoveRefusal(n, a.state, a.note);
    if r.None? { forall why ensures !MoveFails(n, a, why) { } }
    else { assert MoveFails(n, a, r.value); }
  }

  /** The first of the checks from the `i`-th on that fails. */
  ghost function FirstToFail(ok: RefCheck, g: Project, a: SetArgs, i: nat): Option<Refusal>
    decreases |SET_CHECKS| - i
  {
    if i >= |SET_CHECKS| then None
    else if Fails(ok, g, a, SET_CHECKS[i]) then Some(SET_CHECKS[i])
    else FirstToFail(ok, g, a, i + 1)
  }

  lemma NodeChecks(ok: RefCheck, g: Project, a: SetArgs)
    ensures Fails(ok, g, a, UnknownNode) <==> a.id !in g.nodes
    ensures a.id in g.nodes ==> (Fails(ok, g, a, NotTracked) <==> !IsWork(g.nodes[a.id].kind))
    ensures Fails(ok, g, a, BadEvidence) <==> !AllOk(ok, a.evidence)
    ensures a.id in g.nodes ==>
      (Fails(ok, g, a, NoEvidence) <==> EvidenceRequired(a.state) && Merge(g.nodes[a.id].evidence, a.evidence) == [])
    ensures a.id in g.nodes ==> (Fails(ok, g, a, ChangeProposed) <==> EvidenceRequired(a.state) && Unauthorized(g, a.id))
  {
    BadEvidenceIff(ok, g, a);
    if a.id in g.nodes {
      MergeEmpty(g.nodes[a.id].evidence, a.evidence);
      UnauthorizedIff(g, a.id);
    }
  }

  /** The last four checks are about the move; at most one of them fails. */
  lemma MoveIsLast(ok: RefCheck, g: Project, a: SetArgs)
    requires a.id in g.nodes && !a.state.Foreign?
    ensures FirstToFail(ok, g, a, 8) == MoveRefusal(g.nodes[a.id], a.state, a.note)
  {
    MoveChecks(g.nodes[a.id], a);
    assert FirstToFail(ok, g, a, 12) == None;
    assert FirstToFail(ok, g, a, 11) == if MoveFails(g.nodes[a.id], a, StepTooLong) then Some(StepTooLong) else None;
  }

  /** The checks on prerequisites and authorisation. */
  lemma OrderIsMiddle(ok: RefCheck, g: Project, a: SetArgs)
    requires a.id in g.nodes && !a.state.Foreign?
    ensures FirstToFail(ok, g, a, 5) ==
      if a.state != NotStarted && a.state != Blocked && !MilestoneClear(g, a.id) then Some(UpstreamIncomplete)
      else if a.state != NotStarted && a.state != Blocked && !AfterClear(g, a.id) then Some(PrerequisiteOpen)
      else if EvidenceRequired(a.state) && Unauthorized(g, a.id) then Some(ChangeProposed)
      else MoveRefusal(g.nodes[a.id], a.state, a.note)
  {
    NodeChecks(ok, g, a);
    UpstreamCheckIff(ok, g, a);
    AfterCheckIff(ok, g, a);
    MoveIsLast(ok, g, a);
    assert FirstToFail(ok, g, a, 7) == if Fails(ok, g, a, ChangeProposed) then Some(ChangeProposed) else FirstToFail(ok, g, a, 8);
    assert FirstToFail(ok, g, a, 6) == if Fails(ok, g, a, PrerequisiteOpen) then Some(PrerequisiteOpen) else FirstToFail(ok, g, a, 7);
  }

  /** `set` refuses with the first rule that fails, in the order of its checks, and is accepted when none does. */
  lemma SetRefusesFirst(ok: RefCheck, g: Project, a: SetArgs)
    ensures SetRefusal(ok, g, a) == FirstToFail(ok, g, a, 0)
  {
    NodeChecks(ok, g, a);
    assert FirstToFail(ok, g, a, 2) == if Fails(ok, g, a, InvalidState) then Some(InvalidState) else FirstToFail(ok, g, a, 3);
    assert FirstToFail(ok, g, a, 1) == if Fails(ok, g, a, NotTracked) then Some(NotTracked) else FirstToFail(ok, g, a, 2);
    if a.id in g.nodes && !a.state.Foreign? {
      OrderIsMiddle(ok, g, a);
      assert FirstToFail(ok, g, a, 4) == if Fails(ok, g, a, NoEvidence) then Some(NoEvidence) else FirstToFail(ok, g, a, 5);
      assert FirstToFail(ok, g, a, 3) == if Fails(ok, g, a, BadEvidence) then Some(BadEvidence) else FirstToFail(ok, g, a, 4);
    }
  }

  lemma {:induction false} NoneFails(ok: RefCheck, g: Project, a: SetArgs, i: nat)
    requires i <= |SET_CHECKS|
    ensures FirstToFail(ok, g, a, i) == None <==> forall j | i <= j < |SET_CHECKS| :: !Fails(ok, g, a, SET_CHECKS[j])
    decreases |SET_CHECKS| - i
  {
    if i < |SET_CHECKS| { NoneFails(ok, g, a, i + 1); }
  }

  /** `set` is accepted exactly when no rule fails, in whatever order they are checked. */
  lemma SetAcceptedIff(ok: RefCheck, g: Project, a: SetArgs)
    ensures ApplySet(ok, g, a).Saved? <==> forall j | 0 <= j < |SET_CHECKS| :: !Fails(ok, g, a, SET_CHECKS[j])
  {
    SetRefusesFirst(ok, g, a);
    NoneFails(ok, g, a, 0);
  }

  lemma MergeEmpty(recorded: seq<string>, refs: seq<string>)
    ensures Merge(recorded, refs) == [] <==> recorded == [] && refs == []
  {
    MergeContents(recorded, refs);
    if refs != [] { assert refs[0] in refs; }
    if recorded != [] { assert recorded[0] in recorded; }
  }

  /** Later references do not disturb the order of earlier ones. */
  lemma {:induction false} MergeInOrder(recorded: seq<string>, refs: seq<string>, k: nat)
    requires k <= |refs|
    ensures Merge(recorded, refs[..k]) <= Merge(recorded, refs)
    decreases refs
  {
    if k < |refs| {
      MergeInOrder(recorded, refs[..|refs|-1], k);
      assert refs[..|refs|-1][..k] == refs[..k];
    } else {
      assert refs[..k] == refs;
    }
  }

  /** `attest` is refused with the first rule that fails, in this order, and accepted when none does. */
  lemma AttestRefusesFirst(ok: RefCheck, g: Project, a: AttestArgs)
    ensures AttestRefusal(ok, g, a) ==
      if a.id !in g.nodes then Some(UnknownNode)
      else if g.nodes[a.id].kind != ReleaseGate then Some(NotAGate)
      else if a.evidence == [] then Some(NoEvidence)
      else if exists t :: Edge(a.id, t, RequiresTask) in g.edges && g.nodes[t].status != Complete then Some(TasksPending)
      else if exists ref :: ref in a.evidence && !ok(ref) then Some(BadEvidence)
      else None
  {
    BadEvidenceIff(ok, g, SetArgs(a.id, NotStarted, a.evidence, ""));
    if !AllComplete(g, Outs(g, a.id, RequiresTask)) {
      var t :| t in Outs(g, a.id, RequiresTask) && !IsComplete(g, t);
      assert Edge(a.id, t, RequiresTask) in g.edges;
    }
    if t :| Edge(a.id, t, RequiresTask) in g.edges && g.nodes[t].status != Complete {
      assert t in Outs(g, a.id, RequiresTask);
    }
  }

  /** An accepted `attest` adds exactly the new references to its gate and touches nothing else. */
  lemma AttestEffect(ok: RefCheck, g: Project, a: AttestArgs)
    requires ApplyAttest(ok, g, a).Saved?
    ensures var h := ApplyAttest(ok, g, a).graph;
      && h.edges == g.edges && h.nodes.Keys == g.nodes.Keys
      && (forall n | n in g.nodes && n != a.id :: h.nodes[n] == g.nodes[n])
      && h.nodes[a.id] == g.nodes[a.id].(evidence := h.nodes[a.id].evidence)
      && g.nodes[a.id].evidence <= h.nodes[a.id].evidence
      && (forall r :: r in h.nodes[a.id].evidence <==> r in g.nodes[a.id].evidence || r in a.evidence)
  {
    MergeContents(g.nodes[a.id].evidence, a.evidence);
  }

  /** An accepted `set` puts its item at the state, adds exactly the new references, notes the state a block left and drops
      the note when the block ends, and touches nothing else. */
  lemma SetEffect(ok: RefCheck, g: Project, a: SetArgs)
    requires ApplySet(ok, g, a).Saved?
    ensures var h := ApplySet(ok, g, a).graph;
      && h.edges == g.edges && h.nodes.Keys == g.nodes.Keys
      && (forall n | n in g.nodes && n != a.id :: h.nodes[n] == g.nodes[n])
      && h.nodes[a.id].status == a.state
      && h.nodes[a.id].kind == g.nodes[a.id].kind && h.nodes[a.id].order == g.nodes[a.id].order
      && (forall r :: r in h.nodes[a.id].evidence <==> r in g.nodes[a.id].evidence || r in a.evidence)
      && h.nodes[a.id].blockedFrom == (
           if a.state == g.nodes[a.id].status then g.nodes[a.id].blockedFrom
           else if a.state == Blocked then Some(g.nodes[a.id].status)
           else if g.nodes[a.id].status == Blocked then None
           else g.nodes[a.id].blockedFrom)
  {
    MergeContents(g.nodes[a.id].evidence, a.evidence);
  }

  /** `h` is `g` with only node `x` changed, and no evidence taken from it. */
  ghost predicate OnlyChanged(g: Project, h: Project, x: Id)
  {
    && SameShape(g, h) && x in g.nodes && g.nodes[x].evidence <= h.nodes[x].evidence
    && forall n | n in g.nodes && n != x :: h.nodes[n] == g.nodes[n]
  }

  lemma AdvanceKeepsMilestone(g: Project, h: Project, n: Id)
    requires Advances(g, h) && n in g.nodes && MilestoneClear(g, n)
    ensures MilestoneClear(h, n)
  {
    ShapeDecides(g, h);
    AdvancesKeeps(g, h);
    assert MilestoneOf(g, n) == MilestoneOf(h, n);
  }

  /** Prerequisites that are met stay met while nothing leaves COMPLETE. */
  lemma AdvanceKeepsPrereqs(g: Project, h: Project, n: Id)
    requires Advances(g, h) && n in g.nodes && PrereqsMet(g, n)
    ensures PrereqsMet(h, n)
  {
    AdvanceKeepsMilestone(g, h, n);
    forall d | d in Outs(h, n, After) ensures IsComplete(h, d) {
      assert d in Outs(g, n, After) && IsComplete(g, d);
    }
  }

  // ---- the commands as they run --------------------------------------------------

  /** The stored graph. A command works on what it loaded and stores it only at its end. */
  class ProjectFile {
    const refOk: RefCheck
    var saved: Project

    constructor (refOk: RefCheck, g: Project)
      ensures this.refOk == refOk && saved == g
    {
      this.refOk := refOk;
      this.saved := g;
    }

    /** Record references on a loaded node; stops at the first malformed one. */
    method Record(recorded: seq<string>, refs: seq<string>) returns (ok: bool, evidence: seq<string>)
      ensures ok <==> AllOk(refOk, refs)
      ensures ok ==> evidence == Merge(recorded, refs)
    {
      ok, evidence := true, recorded;
      var i := 0;
      while ok && i < |refs|
        invariant 0 <= i <= |refs|
        invariant ok ==> forall j | 0 <= j < i :: refOk(refs[j])
        invariant !ok ==> i < |refs| && !refOk(refs[i])
        invariant ok ==> evidence == Merge(recorded, refs[..i])
        decreases |refs| - i, ok
      {
        if !refOk(refs[i]) {
          ok := false;
        } else {
          assert refs[..i+1][..i] == refs[..i];
          if refs[i] !in evidence {
            evidence := evidence + [refs[i]];
          }
          i := i + 1;
        }
      }
      if ok { assert refs[..i] == refs; }
    }

    /** The scan over `after` targets; stops at the first that is not COMPLETE. */
    method CheckAfter(g: Project, id: Id) returns (clear: bool)
      requires id in g.nodes
      ensures clear <==> AfterClear(g, id)
    {
      var deps := Outs(g, id, After);
      for i := 0 to |deps|
        invariant forall j | 0 <= j < i :: IsComplete(g, deps[j])
      {
        if !IsComplete(g, deps[i]) { return false; }
      }
      clear := true;
    }

    /** The upstream milestones, then the `after` targets. */
    method CheckPrereqs(g: Project, id: Id) returns (refusal: Option<Refusal>)
      requires id in g.nodes
      ensures refusal ==
        if !MilestoneClear(g, id) then Some(UpstreamIncomplete) else if !AfterClear(g, id) then Some(PrerequisiteOpen) else None
    {
      var m := MilestoneOf(g, id);
      if m.Some? && !MilestoneUnblocked(g, m.value) { return Some(UpstreamIncomplete); }
      var clear := CheckAfter(g, id);
      refusal := if clear then None else Some(PrerequisiteOpen);
    }

    /** The scan over change records; stops at the first that is PROPOSED. */
    method CheckRecords(g: Project, id: Id) returns (clear: bool)
      requires id in g.nodes && g.nodes[id].kind == DossierTask
      ensures clear <==> !Unauthorized(g, id)
    {
      var records := Outs(g, id, AuthorizedBy);
      for i := 0 to |records|
        invariant forall j | 0 <= j < i :: !IsProposed(g, records[j])
      {
        if IsProposed(g, records[i]) { return false; }
      }
      clear := true;
    }

    /** The lifecycle move on a loaded node whose evidence is recorded already. */
    method Move(n: Node, state: Status, note: string) returns (refusal: Option<Refusal>, moved: Node)
      requires !state.Foreign?
      ensures refusal == MoveRefusal(n, state, note)
      ensures refusal.None? ==> moved == Shifted(n, state)
    {
      moved := n;
      var prev := n.status;
      if state != prev {
        if state == Blocked {
          if note == "" { return Some(NoteRequired), moved; }
          moved := moved.(blockedFrom := Some(prev));
        } else if prev == Blocked {
          var ceiling := Ceiling(n);
          if !InLifecycle(ceiling) { return Some(Crash), moved; }
          if Level(state) > Level(ceiling) { return Some(AboveCeiling), moved; }
          moved := moved.(blockedFrom := None);
        } else {
          if prev.Foreign? { return Some(Crash), moved; }
          var step := Level(state) - Level(prev);
          if step > 1 { return Some(StepTooLong), moved; }
          if step < 0 && note == "" { return Some(NoteRequired), moved; }
        }
      }
      moved := moved.(status := state);
      refusal := None;
    }

    method Set(a: SetArgs) returns (o: Outcome)
      modifies this
      ensures o == ApplySet(refOk, old(saved), a)
      ensures saved == if o.Saved? then o.graph else old(saved)
    {
      var g := saved;
      if a.id !in g.nodes { return Refused(UnknownNode); }
      var n := g.nodes[a.id];
      if !IsWork(n.kind) { return Refused(NotTracked); }
      if a.state.Foreign? { return Refused(InvalidState); }
      var ok, evidence := Record(n.evidence, a.evidence);
      if !ok { return Refused(BadEvidence); }
      n := n.(evidence := evidence);
      if EvidenceRequired(a.state) && n.evidence == [] { return Refused(NoEvidence); }
      if a.state != NotStarted && a.state != Blocked {
        var open := CheckPrereqs(g, a.id);
        if open.Some? { return Refused(open.value); }
      }
      if EvidenceRequired(a.state) && n.kind == DossierTask {
        var clear := CheckRecords(g, a.id);
        if !clear { return Refused(ChangeProposed); }
      }
      var refusal, moved := Move(n, a.state, a.note);
      if refusal.Some? { return Refused(refusal.value); }
      saved := Put(g, a.id, moved);
      o := Saved(saved);
    }

    method Attest(a: AttestArgs) returns (o: Outcome)
      modifies this
      ensures o == ApplyAttest(refOk, old(saved), a)
      ensures saved == if o.Saved? then o.graph else old(saved)
    {
      var g := saved;
      if a.id !in g.nodes { return Refused(UnknownNode); }
      var n := g.nodes[a.id];
      if n.kind != ReleaseGate { return Refused(NotAGate); }
      if a.evidence == [] { return Refused(NoEvidence); }
      if !AllComplete(g, Outs(g, a.id, RequiresTask)) { return Refused(TasksPending); }
      var ok, evidence := Record(n.evidence, a.evidence);
      if !ok { return Refused(BadEvidence); }
      n := n.(evidence := evidence);
      saved := Put(g, a.id, n);
      o := Saved(saved);
    }
  }

  // ---- runs ------------------------------------------------------------------------

  datatype Command = Set(args: SetArgs) | Attest(gate: AttestArgs)

  function Apply(ok: RefCheck, g: Project, c: Command): (o: Outcome)
    ensures o.Saved? ==> SameShape(g, o.graph)
  {
    match c
    case Set(a) => ApplySet(ok, g, a)
    case Attest(a) => ApplyAttest(ok, g, a)
  }

  /** What is stored after a command: a refused one changes nothing. */
  function Next(ok: RefCheck, g: Project, c: Command): (h: Project)
    ensures SameShape(g, h)
  {
    var o := Apply(ok, g, c);
    if o.Saved? then o.graph else g
  }

  /** What is stored after a sequence of commands. */
  function Run(ok: RefCheck, g: Project, cs: seq<Command>): (h: Project)
    ensures SameShape(g, h)
    decreases cs
  {
    if cs == [] then g else Run(ok, Next(ok, g, cs[0]), cs[1..])
  }

  /** Every command of the sequence is accepted. */
  predicate AllAccepted(ok: RefCheck, g: Project, cs: seq<Command>)
    decreases cs
  {
    cs == [] || (Apply(ok, g, cs[0]).Saved? && AllAccepted(ok, Next(ok, g, cs[0]), cs[1..]))
  }

  lemma {:induction false} RunConcat(ok: RefCheck, g: Project, cs: seq<Command>, ds: seq<Command>)
    ensures Run(ok, g, cs + ds) == Run(ok, Run(ok, g, cs), ds)
    ensures AllAccepted(ok, g, cs + ds) <==>
      AllAccepted(ok, g, cs) && AllAccepted(ok, Run(ok, g, cs), ds)
    decreases cs
  {
    if cs == [] {
      assert cs + ds == ds;
    } else {
      assert (cs + ds)[0] == cs[0] && (cs + ds)[1..] == cs[1..] + ds;
      RunConcat(ok, Next(ok, g, cs[0]), cs[1..], ds);
    }
  }
}
