/** The graph checks G3, G4 and G7 (tools/check_dossier.py:220-254) and the commands that keep them. */
module Checker {
  import opened Ids
  import opened ProjectGraph
  import opened Commands
  import opened GoalPlan

  /** Statuses are known, evidence is present where required and always well-formed. */
  ghost predicate G3(ok: RefCheck, g: Project)
  {
    forall n | n in g.nodes && IsWork(g.nodes[n].kind) ::
      && !g.nodes[n].status.Foreign?
      && (EvidenceRequired(g.nodes[n].status) ==> g.nodes[n].evidence != [])
      && AllOk(ok, g.nodes[n].evidence)
  }

  /** A COMPLETE item has COMPLETE prerequisites and COMPLETE upstream milestones. */
  ghost predicate G4(g: Project)
  {
    forall n | n in g.nodes && IsWork(g.nodes[n].kind) && IsComplete(g, n) :: PrereqsMet(g, n)
  }

  /** Gate evidence is well-formed, and absent while required tasks are open. */
  ghost predicate G7(ok: RefCheck, g: Project)
  {
    forall n | n in g.nodes && g.nodes[n].kind == ReleaseGate ::
      && AllOk(ok, g.nodes[n].evidence)
      && (g.nodes[n].evidence != [] ==> GateStateOf(g, n) != Open)
  }

  ghost predicate Passes(ok: RefCheck, g: Project)
  {
    G3(ok, g) && G4(g) && G7(ok, g)
  }

  /** Some prerequisite of the item, or a milestone upstream of it, is not COMPLETE. */
  ghost predicate Premature(g: Project, n: Id)
    requires n in g.nodes
  {
    (exists d :: AfterOpen(g, n, d)) || (exists m, up :: UpstreamOpen(g, n, m, up))
  }

  /** A work item has a known status, well-formed evidence, evidence where the status needs it, and was not finished early. */
  ghost predicate WorkPasses(ok: RefCheck, g: Project, n: Id)
    requires n in g.nodes
  {
    && !g.nodes[n].status.Foreign?
    && (g.nodes[n].status == E2eProven || g.nodes[n].status == Complete ==> g.nodes[n].evidence != [])
    && (forall ref | ref in g.nodes[n].evidence :: ok(ref))
    && (g.nodes[n].status == Complete ==> !Premature(g, n))
  }

  /** A gate has well-formed evidence, and none before its tasks are COMPLETE. */
  ghost predicate GatePasses(ok: RefCheck, g: Project, n: Id)
    requires n in g.nodes
  {
    (forall ref | ref in g.nodes[n].evidence :: ok(ref)) && (g.nodes[n].evidence != [] ==> GateStateOf(g, n) == Satisfied)
  }

  lemma WorkMeans(ok: RefCheck, g: Project, n: Id)
    requires n in g.nodes
    ensures WorkPasses(ok, g, n) <==>
      && !g.nodes[n].status.Foreign?
      && (EvidenceRequired(g.nodes[n].status) ==> g.nodes[n].evidence != [])
      && AllOk(ok, g.nodes[n].evidence)
      && (IsComplete(g, n) ==> PrereqsMet(g, n))
  {
    PrereqsMetIff(g, n);
    AllOkIff(ok, g.nodes[n].evidence);
  }

  lemma GateMeans(ok: RefCheck, g: Project, n: Id)
    requires n in g.nodes
    ensures GatePasses(ok, g, n) <==>
      AllOk(ok, g.nodes[n].evidence) && (g.nodes[n].evidence != [] ==> GateStateOf(g, n) != Open)
  {
    AllOkIff(ok, g.nodes[n].evidence);
  }

  predicate IsWorkNode(g: Project, n: Id)
  {
    n in g.nodes && IsWork(g.nodes[n].kind)
  }

  predicate IsGateNode(g: Project, n: Id)
  {
    n in g.nodes && g.nodes[n].kind == ReleaseGate
  }

  lemma PassesOnNodes(ok: RefCheck, g: Project)
    requires Passes(ok, g)
    ensures forall n | IsWorkNode(g, n) :: WorkPasses(ok, g, n)
    ensures forall n | IsGateNode(g, n) :: GatePasses(ok, g, n)
  {
    forall n | IsWorkNode(g, n) ensures WorkPasses(ok, g, n) { WorkMeans(ok, g, n); }
    forall n | IsGateNode(g, n) ensures GatePasses(ok, g, n) { GateMeans(ok, g, n); }
  }

  lemma PassesFromNodes(ok: RefCheck, g: Project)
    requires forall n | IsWorkNode(g, n) :: WorkPasses(ok, g, n)
    requires forall n | IsGateNode(g, n) :: GatePasses(ok, g, n)
    ensures Passes(ok, g)
  {
    forall n | IsWorkNode(g, n)
      ensures !g.nodes[n].status.Foreign? && (EvidenceRequired(g.nodes[n].status) ==> g.nodes[n].evidence != [])
      ensures AllOk(ok, g.nodes[n].evidence) && (IsComplete(g, n) ==> PrereqsMet(g, n))
    {
      WorkMeans(ok, g, n);
    }
    forall n | IsGateNode(g, n)
      ensures AllOk(ok, g.nodes[n].evidence) && (g.nodes[n].evidence != [] ==> GateStateOf(g, n) != Open)
    {
      GateMeans(ok, g, n);
    }
  }

  /** The three checks, node by node, over the stored graph alone. */
  lemma PassesMeans(ok: RefCheck, g: Project)
    ensures Passes(ok, g) <==>
      && (forall n | IsWorkNode(g, n) :: WorkPasses(ok, g, n))
      && (forall n | IsGateNode(g, n) :: GatePasses(ok, g, n))
  {
    if Passes(ok, g) { PassesOnNodes(ok, g); }
    if (forall n | IsWorkNode(g, n) :: WorkPasses(ok, g, n)) && (forall n | IsGateNode(g, n) :: GatePasses(ok, g, n)) {
      PassesFromNodes(ok, g);
    }
  }

  lemma AllOkIff(ok: RefCheck, refs: seq<string>)
    ensures AllOk(ok, refs) <==> forall ref | ref in refs :: ok(ref)
  {
    if forall ref | ref in refs :: ok(ref) {
      forall i | 0 <= i < |refs| ensures ok(refs[i]) { assert refs[i] in refs; }
    }
  }

  // ---- the check as it runs ----------------------------------------------------------------

  datatype Finding =
    | UnknownStatus(id: Id) | MissingEvidence(id: Id) | BadWorkRef(id: Id, ref: string)  // G3
    | OpenPrerequisite(id: Id, on: Id) | OpenUpstream(id: Id)                            // G4
    | BadGateRef(id: Id, ref: string) | EvidenceWhileOpen(id: Id)                        // G7

  /** A COMPLETE item precedes something it comes after. */
  predicate Disordered(g: Project, f: Finding)
  {
    match f
    case OpenPrerequisite(n, d) => IsComplete(g, n) && d in Outs(g, n, After) && !IsComplete(g, d)
    case OpenUpstream(n) => IsComplete(g, n) && !MilestoneClear(g, n)
    case _ => false
  }

  /** The finding is true of the graph. */
  predicate Violation(ok: RefCheck, g: Project, f: Finding)
  {
    match f
    case UnknownStatus(n) => IsWorkNode(g, n) && g.nodes[n].status.Foreign?
    case MissingEvidence(n) => IsWorkNode(g, n) && EvidenceRequired(g.nodes[n].status) && g.nodes[n].evidence == []
    case BadWorkRef(n, ref) => IsWorkNode(g, n) && ref in g.nodes[n].evidence && !ok(ref)
    case OpenPrerequisite(n, _) => IsWorkNode(g, n) && Disordered(g, f)
    case OpenUpstream(n) => IsWorkNode(g, n) && Disordered(g, f)
    case BadGateRef(n, ref) => IsGateNode(g, n) && ref in g.nodes[n].evidence && !ok(ref)
    case EvidenceWhileOpen(n) => IsGateNode(g, n) && g.nodes[n].evidence != [] && GateStateOf(g, n) == Open
  }

  /** The references of a node that are malformed. */
  method BadRefs(ok: RefCheck, refs: seq<string>) returns (bad: seq<string>)
    ensures forall r :: r in bad <==> r in refs && !ok(r)
  {
    bad := [];
    for i := 0 to |refs|
      invariant forall r :: r in bad <==> r in refs[..i] && !ok(r)
    {
      assert refs[..i+1] == refs[..i] + [refs[i]];
      if !ok(refs[i]) { bad := bad + [refs[i]]; }
    }
    assert refs[..|refs|] == refs;
  }

  method OpenAfter(g: Project, n: Id) returns (open: seq<Id>)
    requires n in g.nodes
    ensures forall d :: d in open <==> d in Outs(g, n, After) && !IsComplete(g, d)
  {
    open := [];
    var deps := Outs(g, n, After);
    for i := 0 to |deps|
      invariant forall d :: d in open <==> d in deps[..i] && !IsComplete(g, d)
    {
      assert deps[..i+1] == deps[..i] + [deps[i]];
      if !IsComplete(g, deps[i]) { open := open + [deps[i]]; }
    }
    assert deps[..|deps|] == deps;
  }

  function About(f: Finding): Id
  {
    f.id
  }

  method CheckGate(ok: RefCheck, g: Project, n: Id) returns (found: seq<Finding>)
    requires n in g.nodes && g.nodes[n].kind == ReleaseGate
    ensures forall f :: f in found <==> About(f) == n && Violation(ok, g, f)
  {
    var bad := BadRefs(ok, g.nodes[n].evidence);
    var refs := seq(|bad|, i requires 0 <= i < |bad| => BadGateRef(n, bad[i]));
    var open := if g.nodes[n].evidence != [] && GateStateOf(g, n) == Open then [EvidenceWhileOpen(n)] else [];
    found := refs + open;
    forall r ensures BadGateRef(n, r) in refs <==> r in bad {
      if r in bad { var i :| 0 <= i < |bad| && bad[i] == r; assert refs[i] == BadGateRef(n, r); }
    }
  }

  method CheckWork(ok: RefCheck, g: Project, n: Id) returns (found: seq<Finding>)
    requires n in g.nodes && IsWork(g.nodes[n].kind)
    ensures forall f :: f in found <==> About(f) == n && Violation(ok, g, f)
  {
    var x := g.nodes[n];
    var status := if x.status.Foreign? then [UnknownStatus(n)] else [];
    var missing := if EvidenceRequired(x.status) && x.evidence == [] then [MissingEvidence(n)] else [];
    var bad := BadRefs(ok, x.evidence);
    var refs := seq(|bad|, i requires 0 <= i < |bad| => BadWorkRef(n, bad[i]));
    forall r ensures BadWorkRef(n, r) in refs <==> r in bad {
      if r in bad { var i :| 0 <= i < |bad| && bad[i] == r; assert refs[i] == BadWorkRef(n, r); }
    }
    var order := CheckOrder(g, n);
    found := status + missing + refs + order;
  }

  method CheckOrder(g: Project, n: Id) returns (found: seq<Finding>)
    requires n in g.nodes
    ensures forall f :: f in found <==> About(f) == n && Disordered(g, f)
  {
    if g.nodes[n].status != Complete { return []; }
    var open := OpenAfter(g, n);
    var clear := MilestoneClear(g, n);
    found := OrderFindings(n, open, clear);
  }

  function OrderFindings(n: Id, open: seq<Id>, clear: bool): (found: seq<Finding>)
    ensures forall f :: f in found <==>
      f.id == n && ((f.OpenPrerequisite? && f.on in open) || (f.OpenUpstream? && !clear))
  {
    var deps := seq(|open|, i requires 0 <= i < |open| => OpenPrerequisite(n, open[i]));
    assert forall i | 0 <= i < |open| :: deps[i] == OpenPrerequisite(n, open[i]);
    deps + if clear then [] else [OpenUpstream(n)]
  }

  method CheckNode(ok: RefCheck, g: Project, n: Id) returns (found: seq<Finding>)
    requires n in g.nodes
    ensures forall f :: f in found <==> About(f) == n && Violation(ok, g, f)
  {
    found := [];
    if g.nodes[n].kind == ReleaseGate { found := CheckGate(ok, g, n); }
    else if IsWork(g.nodes[n].kind) { found := CheckWork(ok, g, n); }
  }

  /** The loop over all nodes reports exactly the violations, and none exactly when the graph passes. */
  method Check(ok: RefCheck, g: Project) returns (findings: seq<Finding>)
    ensures forall f :: f in findings <==> Violation(ok, g, f)
    ensures findings == [] <==> Passes(ok, g)
  {
    findings := [];
    var ids := Enumerate(g.nodes.Keys);
    for i := 0 to |ids|
      invariant forall f :: f in findings <==> About(f) in ids[..i] && Violation(ok, g, f)
    {
      var n := ids[i];
      assert n in ids && ids[..i+1] == ids[..i] + [n];
      var found := CheckNode(ok, g, n);
      findings := findings + found;
    }
    assert ids[..|ids|] == ids;
    forall f ensures f in findings <==> Violation(ok, g, f) { ViolationKnown(ok, g, f); }
    PassesIff(ok, g);
    if findings != [] { assert findings[0] in findings; }
  }

  lemma ViolationKnown(ok: RefCheck, g: Project, f: Finding)
    ensures Violation(ok, g, f) ==> About(f) in g.nodes
  {
  }

  lemma PassesIff(ok: RefCheck, g: Project)
    ensures Passes(ok, g) <==> forall f :: !Violation(ok, g, f)
  {
    if Passes(ok, g) {
      forall f ensures !Violation(ok, g, f) { PassesNoViolation(ok, g, f); }
    }
    if forall f :: !Violation(ok, g, f) {
      NoViolationG3(ok, g);
      NoViolationG4(ok, g);
      NoViolationG7(ok, g);
    }
  }

  lemma PassesNoViolation(ok: RefCheck, g: Project, f: Finding)
    requires Passes(ok, g)
    ensures !Violation(ok, g, f)
  {
  }

  lemma NoViolationG3(ok: RefCheck, g: Project)
    requires forall f :: !Violation(ok, g, f)
    ensures G3(ok, g)
  {
    forall n | n in g.nodes && IsWork(g.nodes[n].kind)
      ensures !g.nodes[n].status.Foreign?
      ensures EvidenceRequired(g.nodes[n].status) ==> g.nodes[n].evidence != []
      ensures AllOk(ok, g.nodes[n].evidence)
    {
      assert !Violation(ok, g, UnknownStatus(n)) && !Violation(ok, g, MissingEvidence(n));
      forall i | 0 <= i < |g.nodes[n].evidence| ensures ok(g.nodes[n].evidence[i]) {
        assert !Violation(ok, g, BadWorkRef(n, g.nodes[n].evidence[i]));
      }
    }
  }

  lemma NoViolationAfter(ok: RefCheck, g: Project, n: Id)
    requires forall f :: !Violation(ok, g, f)
    requires IsWorkNode(g, n) && IsComplete(g, n)
    ensures AfterClear(g, n)
  {
    forall d | d in Outs(g, n, After) ensures IsComplete(g, d) { assert !Violation(ok, g, OpenPrerequisite(n, d)); }
  }

  lemma NoViolationUpstream(ok: RefCheck, g: Project, n: Id)
    requires !Violation(ok, g, OpenUpstream(n)) && IsWorkNode(g, n) && IsComplete(g, n)
    ensures MilestoneClear(g, n)
  {
    assert !Disordered(g, OpenUpstream(n));
  }

  lemma NoViolationG4(ok: RefCheck, g: Project)
    requires forall f :: !Violation(ok, g, f)
    ensures G4(g)
  {
    forall n | n in g.nodes && IsWork(g.nodes[n].kind) && IsComplete(g, n) ensures PrereqsMet(g, n) {
      NoViolationUpstream(ok, g, n);
      NoViolationAfter(ok, g, n);
    }
  }

  lemma NoViolationG7(ok: RefCheck, g: Project)
    requires forall f :: !Violation(ok, g, f)
    ensures G7(ok, g)
  {
    forall n | n in g.nodes && g.nodes[n].kind == ReleaseGate
      ensures AllOk(ok, g.nodes[n].evidence) && (g.nodes[n].evidence != [] ==> GateStateOf(g, n) != Open)
    {
      assert !Violation(ok, g, EvidenceWhileOpen(n));
      forall i | 0 <= i < |g.nodes[n].evidence| ensures ok(g.nodes[n].evidence[i]) {
        assert !Violation(ok, g, BadGateRef(n, g.nodes[n].evidence[i]));
      }
    }
  }

  // ---- evidence -------------------------------------------------------------------------

  lemma {:induction false} MergeOk(ok: RefCheck, recorded: seq<string>, refs: seq<string>)
    requires AllOk(ok, recorded) && AllOk(ok, refs)
    ensures AllOk(ok, Merge(recorded, refs))
    decreases refs
  {
    if refs != [] {
      MergeOk(ok, recorded, refs[..|refs|-1]);
    }
  }

  // ---- moves that leave COMPLETE items alone -----------------------------------------------

  /** The `set` takes its item off COMPLETE. */
  predicate TakesOff(g: Project, a: SetArgs)
  {
    IsComplete(g, a.id) && a.state != Complete
  }

  lemma SetKeepsG3(ok: RefCheck, g: Project, a: SetArgs)
    requires G3(ok, g) && ApplySet(ok, g, a).Saved?
    ensures G3(ok, ApplySet(ok, g, a).graph)
  {
    MergeOk(ok, g.nodes[a.id].evidence, a.evidence);
  }

  lemma SetAdvances(ok: RefCheck, g: Project, a: SetArgs)
    requires ApplySet(ok, g, a).Saved? && !TakesOff(g, a)
    ensures Advances(g, ApplySet(ok, g, a).graph)
  {
  }

  lemma OpenGateKeeps(g: Project, h: Project, n: Id)
    requires Advances(g, h) && n in g.nodes && GateStateOf(g, n) != Open
    ensures GateStateOf(h, n) != Open
  {
    ShapeDecides(g, h);
    forall t | t in Outs(h, n, RequiresTask) ensures IsComplete(h, t) {
      assert t in Outs(g, n, RequiresTask) && IsComplete(g, t);
    }
  }

  /** A `set` that does not take an item off COMPLETE keeps all three checks. */
  lemma SetKeeps(ok: RefCheck, g: Project, a: SetArgs)
    requires Passes(ok, g) && ApplySet(ok, g, a).Saved? && !TakesOff(g, a)
    ensures Passes(ok, ApplySet(ok, g, a).graph)
  {
    var h := ApplySet(ok, g, a).graph;
    SetKeepsG3(ok, g, a);
    SetAdvances(ok, g, a);
    forall n | n in h.nodes && IsWork(h.nodes[n].kind) && IsComplete(h, n) ensures PrereqsMet(h, n) {
      assert PrereqsMet(g, n);
      AdvanceKeepsPrereqs(g, h, n);
    }
    forall n | n in h.nodes && h.nodes[n].kind == ReleaseGate && h.nodes[n].evidence != []
      ensures GateStateOf(h, n) != Open
    {
      OpenGateKeeps(g, h, n);
    }
  }

  // ---- taking an item off COMPLETE -------------------------------------------------------------

  /** The milestone has `x` among its work, or a gate that requires `x`. */
  predicate RestsOn(g: Project, up: Id, x: Id)
  {
    x in MilestoneWork(g, up) || exists gate | gate in Outs(g, up, GatedBy) :: x in Outs(g, gate, RequiresTask)
  }

  /** Nothing finished rests on `x`: no COMPLETE item comes after it or below a milestone that rests on it, and no
      attested gate requires it. */
  ghost predicate Unreferenced(g: Project, x: Id)
  {
    && (forall y | y in g.nodes && IsWork(g.nodes[y].kind) && IsComplete(g, y) && y != x ::
          x !in Outs(g, y, After) && forall up | up in Upstream(g, y) :: !RestsOn(g, up, x))
    && (forall gate | gate in g.nodes && g.nodes[gate].kind == ReleaseGate && g.nodes[gate].evidence != [] ::
          x !in Outs(g, gate, RequiresTask))
  }

  lemma OffKeepsGate(g: Project, h: Project, x: Id, gate: Id)
    requires OnlyChanged(g, h, x) && gate in g.nodes
    requires GateStateOf(g, gate) == Satisfied && x !in Outs(g, gate, RequiresTask)
    ensures GateStateOf(h, gate) == Satisfied
  {
    forall t | t in Outs(h, gate, RequiresTask) ensures IsComplete(h, t) {
      assert t in Outs(g, gate, RequiresTask) && IsComplete(g, t);
    }
  }

  lemma OffKeepsMilestone(g: Project, h: Project, x: Id, up: Id)
    requires OnlyChanged(g, h, x) && up in g.nodes
    requires MilestoneStateOf(g, up) == MComplete && !RestsOn(g, up, x)
    ensures MilestoneStateOf(h, up) == MComplete
  {
    ShapeDecides(g, h);
    forall w | w in MilestoneWork(h, up) ensures IsComplete(h, w) { assert IsComplete(g, w); }
    forall gate | gate in Outs(h, up, GatedBy) ensures GateStateOf(h, gate) == Satisfied {
      assert gate in Outs(g, up, GatedBy);
      OffKeepsGate(g, h, x, gate);
    }
  }

  lemma OffKeepsG4(g: Project, h: Project, x: Id)
    requires G4(g) && Unreferenced(g, x) && OnlyChanged(g, h, x) && !IsComplete(h, x)
    ensures G4(h)
  {
    ShapeDecides(g, h);
    forall y | y in h.nodes && IsWork(h.nodes[y].kind) && IsComplete(h, y) ensures PrereqsMet(h, y) {
      assert PrereqsMet(g, y);
      forall d | d in Outs(h, y, After) ensures IsComplete(h, d) { assert d in Outs(g, y, After); }
      assert Upstream(g, y) == Upstream(h, y);
      forall up | up in Upstream(h, y) ensures MilestoneStateOf(h, up) == MComplete {
        OffKeepsMilestone(g, h, x, up);
      }
    }
  }

  lemma OffKeepsG7(ok: RefCheck, g: Project, h: Project, x: Id)
    requires G7(ok, g) && Unreferenced(g, x) && OnlyChanged(g, h, x) && IsWork(g.nodes[x].kind)
    ensures G7(ok, h)
  {
    ShapeDecides(g, h);
    forall n | n in h.nodes && h.nodes[n].kind == ReleaseGate && h.nodes[n].evidence != []
      ensures GateStateOf(h, n) != Open
    {
      forall t | t in Outs(h, n, RequiresTask) ensures IsComplete(h, t) {
        assert t in Outs(g, n, RequiresTask) && IsComplete(g, t);
      }
    }
  }

  lemma OffNeedsNoRest(h: Project, x: Id, up: Id)
    requires up in h.nodes && MilestoneStateOf(h, up) == MComplete && x in h.nodes && !IsComplete(h, x)
    ensures !RestsOn(h, up, x)
  {
  }

  lemma OffNeedsUnreferenced(ok: RefCheck, g: Project, h: Project, x: Id)
    requires G4(h) && G7(ok, h) && OnlyChanged(g, h, x) && IsWork(g.nodes[x].kind) && !IsComplete(h, x)
    ensures Unreferenced(g, x)
  {
    ShapeDecides(g, h);
    forall y | y in g.nodes && IsWork(g.nodes[y].kind) && IsComplete(g, y) && y != x
      ensures x !in Outs(g, y, After) && forall up | up in Upstream(g, y) :: !RestsOn(g, up, x)
    {
      assert PrereqsMet(h, y) && Outs(g, y, After) == Outs(h, y, After);
      assert Upstream(g, y) == Upstream(h, y);
      forall up | up in Upstream(g, y) ensures !RestsOn(g, up, x) {
        assert MilestoneStateOf(h, up) == MComplete && MilestoneWork(g, up) == MilestoneWork(h, up);
        OffNeedsNoRest(h, x, up);
      }
    }
    forall gate | gate in g.nodes && g.nodes[gate].kind == ReleaseGate && g.nodes[gate].evidence != []
      ensures x !in Outs(g, gate, RequiresTask)
    {
      assert GateStateOf(h, gate) != Open && Outs(g, gate, RequiresTask) == Outs(h, gate, RequiresTask);
    }
  }

  /** Taking an item off COMPLETE does not cascade: the checks survive it exactly when nothing finished
      rests on the item. */
  lemma TakeOffIff(ok: RefCheck, g: Project, a: SetArgs)
    requires Passes(ok, g) && ApplySet(ok, g, a).Saved? && TakesOff(g, a)
    ensures Passes(ok, ApplySet(ok, g, a).graph) <==> Unreferenced(g, a.id)
  {
    var h := ApplySet(ok, g, a).graph;
    SetKeepsG3(ok, g, a);
    if Unreferenced(g, a.id) {
      OffKeepsG4(g, h, a.id);
      OffKeepsG7(ok, g, h, a.id);
    }
    if Passes(ok, h) {
      OffNeedsUnreferenced(ok, g, h, a.id);
    }
  }

  // ---- attestation ------------------------------------------------------------------------------

  /** An attestation keeps the checks exactly when the gate requires a task: one that requires none is
      attested although it stays OPEN. */
  lemma AttestIff(ok: RefCheck, g: Project, a: AttestArgs)
    requires Passes(ok, g) && ApplyAttest(ok, g, a).Saved?
    ensures Passes(ok, ApplyAttest(ok, g, a).graph) <==> Outs(g, a.id, RequiresTask) != []
  {
    var h := ApplyAttest(ok, g, a).graph;
    var x := a.id;
    MergeOk(ok, g.nodes[x].evidence, a.evidence);
    MergeEmpty(g.nodes[x].evidence, a.evidence);
    AttestAdvances(ok, g, a);
    ShapeDecides(g, h);
    forall n | n in h.nodes && IsWork(h.nodes[n].kind) && IsComplete(h, n) ensures PrereqsMet(h, n) {
      assert PrereqsMet(g, n);
      AdvanceKeepsPrereqs(g, h, n);
    }
    assert Outs(g, x, RequiresTask) == Outs(h, x, RequiresTask);
    if Outs(g, x, RequiresTask) != [] {
      forall n | n in h.nodes && h.nodes[n].kind == ReleaseGate && h.nodes[n].evidence != []
        ensures GateStateOf(h, n) != Open
      {
        if n == x { assert AllComplete(h, Outs(h, x, RequiresTask)); }
        else { OpenGateKeeps(g, h, n); }
      }
    } else {
      assert GateStateOf(h, x) == Open && h.nodes[x].evidence != [];
    }
  }

  lemma AttestAdvances(ok: RefCheck, g: Project, a: AttestArgs)
    requires ApplyAttest(ok, g, a).Saved?
    ensures Advances(g, ApplyAttest(ok, g, a).graph)
  {
  }

  // ---- runs ---------------------------------------------------------------------------------------

  /** No accepted command of the run takes an item off COMPLETE. */
  ghost predicate NeverTakesOff(ok: RefCheck, g: Project, cs: seq<Command>)
    decreases cs
  {
    cs == [] ||
    (&& !(cs[0].Set? && ApplySet(ok, g, cs[0].args).Saved? && TakesOff(g, cs[0].args))
     && NeverTakesOff(ok, Next(ok, g, cs[0]), cs[1..]))
  }

  ghost predicate GatesRequire(g: Project)
  {
    forall n | n in g.nodes && g.nodes[n].kind == ReleaseGate :: Outs(g, n, RequiresTask) != []
  }

  /** The graph as the builder makes it: nothing started, nothing recorded. */
  ghost predicate Fresh(g: Project)
  {
    forall n | n in g.nodes && (IsWork(g.nodes[n].kind) || g.nodes[n].kind == ReleaseGate) ::
      g.nodes[n].status == NotStarted && g.nodes[n].evidence == []
  }

  lemma FreshPasses(ok: RefCheck, g: Project)
    requires Fresh(g)
    ensures Passes(ok, g)
  {
  }

  lemma ShapeKeepsRequired(g: Project, h: Project)
    requires GatesRequire(g) && SameShape(g, h)
    ensures GatesRequire(h)
  {
    ShapeDecides(g, h);
    forall n | n in h.nodes && h.nodes[n].kind == ReleaseGate ensures Outs(h, n, RequiresTask) != [] {
      assert Outs(h, n, RequiresTask) == Outs(g, n, RequiresTask);
    }
  }

  /** Every run that takes nothing off COMPLETE keeps the checks, refused commands included. */
  lemma {:induction false} RunKeeps(ok: RefCheck, g: Project, cs: seq<Command>)
    requires GatesRequire(g) && Passes(ok, g) && NeverTakesOff(ok, g, cs)
    ensures Passes(ok, Run(ok, g, cs))
    decreases cs
  {
    if cs != [] {
      var h := Next(ok, g, cs[0]);
      if Apply(ok, g, cs[0]).Saved? {
        if cs[0].Set? { SetKeeps(ok, g, cs[0].args); } else { AttestIff(ok, g, cs[0].gate); }
      }
      ShapeKeepsRequired(g, h);
      RunKeeps(ok, h, cs[1..]);
    }
  }

  lemma FreshRunPasses(ok: RefCheck, g: Project, cs: seq<Command>)
    requires GatesRequire(g) && Fresh(g) && NeverTakesOff(ok, g, cs)
    ensures Passes(ok, Run(ok, g, cs))
  {
    FreshPasses(ok, g);
    RunKeeps(ok, g, cs);
  }
}
