/** Working a plan off with accepted commands, and the exact condition for it. */
module Execution {
  import opened Ids
  import opened Text
  import opened Digraph
  import opened ProjectGraph
  import opened Commands
  import opened GoalPlan
  import opened Attainability

  // ---- completing one item --------------------------------------------------------------

  /** The lifecycle state at a position. */
  function AtLevel(k: nat): (s: Status)
    requires k <= 6
    ensures InLifecycle(s) && Level(s) == k
  {
    LIFECYCLE[k]
  }

  function SetTo(x: Id, s: Status, proof: string): Command
  {
    Set(SetArgs(x, s, [proof], ""))
  }

  /** The states a free item may move to next: its ceiling when BLOCKED, else one position up. */
  predicate NextUp(n: Node, s: Status)
  {
    && InLifecycle(s)
    && if n.status == Blocked then s == Ceiling(n) else InLifecycle(n.status) && Level(s) == Level(n.status) + 1
  }

  /** The item is ready to move: prerequisites met, authorised, not COMPLETE yet. */
  predicate Free(g: Project, x: Id)
  {
    && x in g.nodes && IsWork(g.nodes[x].kind)
    && PrereqsMet(g, x) && !Unauthorized(g, x) && !IsComplete(g, x)
  }

  lemma MoveNotRefused(ok: RefCheck, g: Project, x: Id, s: Status, proof: string)
    requires ok(proof) && Free(g, x) && NextUp(g.nodes[x], s)
    ensures SetRefusal(ok, g, SetArgs(x, s, [proof], "")) == None
  {
    MergeEmpty(g.nodes[x].evidence, [proof]);
    assert MoveRefusal(g.nodes[x], s, "") == None;
  }

  lemma AuthorizedStays(g: Project, h: Project, x: Id)
    requires OnlyChanged(g, h, x) && IsWork(g.nodes[x].kind) && !Unauthorized(g, x)
    ensures !Unauthorized(h, x)
  {
    ShapeDecides(g, h);
    if g.nodes[x].kind == DossierTask {
      forall d | d in Outs(h, x, AuthorizedBy) ensures !IsProposed(h, d) {
        assert d in Outs(g, x, AuthorizedBy) && !IsProposed(g, d);
      }
    }
  }

  /** One accepted move of a free item. */
  lemma MoveAccepted(ok: RefCheck, g: Project, x: Id, s: Status, proof: string) returns (h: Project)
    requires ok(proof) && Free(g, x) && NextUp(g.nodes[x], s)
    ensures Apply(ok, g, SetTo(x, s, proof)).Saved? && h == Next(ok, g, SetTo(x, s, proof))
    ensures OnlyChanged(g, h, x) && h.nodes[x].status == s
    ensures PrereqsMet(h, x) && !Unauthorized(h, x)
  {
    MoveNotRefused(ok, g, x, s, proof);
    var n := Moved(g.nodes[x], SetArgs(x, s, [proof], ""));
    h := Put(g, x, n);
    AdvanceKeepsPrereqs(g, h, x);
    AuthorizedStays(g, h, x);
  }

  /** From a lifecycle state, one accepted move per remaining position reaches COMPLETE. */
  lemma {:induction false} Climb(ok: RefCheck, g: Project, x: Id, proof: string) returns (cs: seq<Command>)
    requires ok(proof) && x in g.nodes && IsWork(g.nodes[x].kind)
    requires PrereqsMet(g, x) && !Unauthorized(g, x) && InLifecycle(g.nodes[x].status)
    ensures AllAccepted(ok, g, cs) && |cs| == 6 - Level(g.nodes[x].status)
    ensures OnlyChanged(g, Run(ok, g, cs), x) && IsComplete(Run(ok, g, cs), x)
    ensures forall c | c in cs :: c.Set? && c.args.id == x
    decreases 6 - Level(g.nodes[x].status)
  {
    var k := Level(g.nodes[x].status);
    if k == 6 {
      cs := [];
    } else {
      var h := MoveAccepted(ok, g, x, AtLevel(k + 1), proof);
      var rest := Climb(ok, h, x, proof);
      cs := [SetTo(x, AtLevel(k + 1), proof)] + rest;
      assert cs[0] == SetTo(x, AtLevel(k + 1), proof) && cs[1..] == rest;
    }
  }

  /** A free, completable item is COMPLETE after at most seven accepted moves. */
  lemma CompleteItem(ok: RefCheck, g: Project, x: Id, proof: string) returns (cs: seq<Command>)
    requires ok(proof) && x in g.nodes && g.nodes[x].kind != ReleaseGate
    requires Completable(g, x) && Prereqs(g, x) == {} && !IsComplete(g, x)
    ensures AllAccepted(ok, g, cs) && |cs| <= 7
    ensures OnlyChanged(g, Run(ok, g, cs), x) && IsComplete(Run(ok, g, cs), x)
    ensures forall c | c in cs :: c.Set? && c.args.id == x
  {
    StartableIff(g, x);
    var n := g.nodes[x];
    if n.status == Blocked {
      var h := MoveAccepted(ok, g, x, Ceiling(n), proof);
      var rest := Climb(ok, h, x, proof);
      cs := [SetTo(x, Ceiling(n), proof)] + rest;
      assert cs[0] == SetTo(x, Ceiling(n), proof) && cs[1..] == rest;
    } else {
      cs := Climb(ok, g, x, proof);
    }
  }

  /** A free, completable gate is satisfied by one accepted attestation. */
  lemma SatisfyGate(ok: RefCheck, g: Project, x: Id, proof: string) returns (c: Command)
    requires ok(proof) && x in g.nodes && g.nodes[x].kind == ReleaseGate
    requires Completable(g, x) && Prereqs(g, x) == {}
    ensures Apply(ok, g, c).Saved? && c.Attest? && c.gate.id == x
    ensures OnlyChanged(g, Next(ok, g, c), x) && Next(ok, g, c).nodes[x].status == g.nodes[x].status
    ensures GateStateOf(Next(ok, g, c), x) == Satisfied
  {
    c := Attest(AttestArgs(x, [proof], ""));
    AttestableIff(g, x);
    MergeEmpty(g.nodes[x].evidence, [proof]);
    var h := Next(ok, g, c);
    ShapeDecides(g, h);
    forall t | t in Outs(h, x, RequiresTask) ensures IsComplete(h, t) {
      assert t in Outs(g, x, RequiresTask);
    }
  }

  // ---- the plan shrinks -------------------------------------------------------------------------

  lemma HeldOnShrinks(g: Project, h: Project, up: Id, y: Id)
    requires WellTyped(g) && Advances(g, h) && up in g.nodes && HeldOn(h, up, y)
    ensures HeldOn(g, up, y)
  {
    ShapeDecides(g, h);
    AdvancesKeeps(g, h);
    if y !in MilestoneWork(h, up) || IsComplete(h, y) {
      assert EdgeTyped(g, Edge(up, y, GatedBy));
      assert y in Outs(g, up, GatedBy);
    }
  }

  /** While nothing leaves COMPLETE, no step gains a prerequisite. */
  lemma WaitsShrinks(g: Project, h: Project, x: Id, y: Id)
    requires WellTyped(g) && Advances(g, h) && x in g.nodes && WaitsOn(h, x, y)
    ensures WaitsOn(g, x, y)
  {
    ShapeDecides(g, h);
    assert Upstream(g, x) == Upstream(h, x);
    if g.nodes[x].kind == ReleaseGate {
      assert y in Outs(g, x, RequiresTask);
    } else if y in Outs(h, x, After) && !IsComplete(h, y) {
      assert y in Outs(g, x, After);
    } else {
      var up :| up in Upstream(h, x) && HeldOn(h, up, y);
      HeldOnShrinks(g, h, up, y);
    }
  }

  lemma PrereqsShrink(g: Project, h: Project, x: Id)
    requires WellTyped(g) && Advances(g, h) && x in g.nodes
    ensures Prereqs(h, x) <= Prereqs(g, x)
  {
    forall y | y in Prereqs(h, x) ensures y in Prereqs(g, x) {
      PrereqIff(h, x, y);
      WaitsShrinks(g, h, x, y);
      PrereqIff(g, x, y);
    }
  }

  lemma RootsShrink(g: Project, h: Project, rid: Id)
    requires WellTyped(g) && Advances(g, h) && rid in g.nodes
    ensures Roots(h, rid) <= Roots(g, rid)
  {
    ShapeDecides(g, h);
    AdvancesKeeps(g, h);
    forall y | y in Roots(h, rid) ensures y in Roots(g, rid) {
      if y in Outs(h, rid, Includes) && !IsComplete(h, y) {
        assert y in Outs(g, rid, Includes);
      } else {
        assert EdgeTyped(g, Edge(rid, y, RequiresGate)) && y in Outs(g, rid, RequiresGate);
      }
    }
  }

  /** A step that is done is waited on by nothing that can be completed. */
  lemma DoneNotWaitedOn(h: Project, x: Id, z: Id)
    requires WellTyped(h) && x in h.nodes && z in h.nodes && Completable(h, z) && !OpenStep(h, x)
    ensures x !in Prereqs(h, z)
  {
    if x in Prereqs(h, z) {
      PrereqIff(h, z, x);
      PrereqOpen(h, z, x);
    }
  }

  /** `h` is `g` after finishing step `x` and nothing else. */
  ghost predicate Finished(g: Project, h: Project, x: Id)
  {
    && OnlyChanged(g, h, x) && !OpenStep(h, x)
    && (h.nodes[x].status == Complete || h.nodes[x].status == g.nodes[x].status)
    && (IsComplete(g, x) ==> IsComplete(h, x))
    && (g.nodes[x].kind == ReleaseGate || h.nodes[x].status == Complete)
  }

  lemma FinishedAdvances(g: Project, h: Project, x: Id)
    requires Finished(g, h, x)
    ensures Advances(g, h)
  {
  }

  lemma FinishedKeepsCompletable(g: Project, h: Project, x: Id, z: Id)
    requires Finished(g, h, x) && z in g.nodes && Completable(g, z)
    ensures Completable(h, z)
  {
    ShapeDecides(g, h);
    if g.nodes[z].kind == ReleaseGate {
      forall t | t in Outs(h, z, RequiresTask) ensures IsWork(h.nodes[t].kind) || IsComplete(h, t) {
        assert t in Outs(g, z, RequiresTask);
      }
    } else {
      assert Upstream(g, z) == Upstream(h, z);
      forall d | d in Outs(h, z, AuthorizedBy) && IsProposed(h, d) ensures IsProposed(g, d) { }
    }
  }

  lemma FinishedClosed(g: Project, h: Project, s: set<Id>, x: Id, z: Id)
    requires WellTyped(g) && WellTyped(h) && Finished(g, h, x)
    requires z in g.nodes && Completable(g, z) && Prereqs(g, z) <= s
    ensures Completable(h, z) && Prereqs(h, z) <= s - {x}
  {
    FinishedAdvances(g, h, x);
    PrereqsShrink(g, h, z);
    FinishedKeepsCompletable(g, h, x, z);
    DoneNotWaitedOn(h, x, z);
  }

  lemma FinishedRoots(g: Project, h: Project, rid: Id, x: Id)
    requires WellTyped(g) && WellTyped(h) && rid in g.nodes && Finished(g, h, x)
    ensures Roots(h, rid) <= Roots(g, rid) - {x}
  {
    FinishedAdvances(g, h, x);
    RootsShrink(g, h, rid);
    if x in Roots(h, rid) { RootOpen(h, rid, x); }
  }

  /** Finishing a step takes it out of the plan and adds nothing. */
  lemma FinishedLeaves(g: Project, h: Project, rid: Id, x: Id, all: set<Id>)
    requires WellTyped(g) && WellTyped(h) && rid in g.nodes && Finished(g, h, x)
    requires Roots(g, rid) <= all && PrereqClosed(g, all) && forall z | z in all :: Completable(g, z)
    ensures Steps(h, rid) <= all - {x}
  {
    FinishedRoots(g, h, rid, x);
    var s := all - {x};
    forall z | z in s ensures Prereqs(h, z) <= s { FinishedClosed(g, h, all, x, z); }
    StepsLeast(h, rid, s);
  }

  lemma PlanShrinks(g: Project, h: Project, rid: Id)
    requires WellTyped(g) && Advances(g, h) && rid in g.nodes && Steps(h, rid) <= Steps(g, rid)
    requires Acyclic(Plan(g, rid))
    ensures Acyclic(Plan(h, rid))
  {
    forall a, b | b in Succ(Plan(h, rid), a) ensures b in Succ(Plan(g, rid), a) { PrereqsShrink(g, h, a); }
    SubAcyclic(Plan(h, rid), Plan(g, rid));
  }

  /** Finishing a step keeps the rest of the plan workable. */
  lemma FinishedShrinks(g: Project, h: Project, rid: Id, x: Id)
    requires WellTyped(g) && rid in g.nodes && Workable(g, rid) && Finished(g, h, x)
    ensures WellTyped(h) && Workable(h, rid)
    ensures Steps(h, rid) <= Steps(g, rid) - {x}
  {
    TypedStays(g, h);
    StepsClosed(g, rid);
    FinishedLeaves(g, h, rid, x, Steps(g, rid));
    FinishedAdvances(g, h, x);
    PlanShrinks(g, h, rid);
    forall z | z in Steps(h, rid) ensures Completable(h, z) { FinishedKeepsCompletable(g, h, x, z); }
  }

  // ---- the whole plan -----------------------------------------------------------------------------

  ghost function WorkSteps(g: Project, rid: Id): set<Id>
    requires rid in g.nodes
  {
    set x | x in Steps(g, rid) && g.nodes[x].kind != ReleaseGate
  }

  ghost function GateSteps(g: Project, rid: Id): set<Id>
    requires rid in g.nodes
  {
    set x | x in Steps(g, rid) && g.nodes[x].kind == ReleaseGate
  }

  function SetCount(cs: seq<Command>): nat
  {
    if cs == [] then 0 else (if cs[0].Set? then 1 else 0) + SetCount(cs[1..])
  }

  lemma {:induction false} CountConcat(cs: seq<Command>, ds: seq<Command>)
    ensures SetCount(cs + ds) == SetCount(cs) + SetCount(ds)
  {
    if cs == [] {
      assert cs + ds == ds;
    } else {
      assert (cs + ds)[0] == cs[0] && (cs + ds)[1..] == cs[1..] + ds;
      CountConcat(cs[1..], ds);
    }
  }

  lemma {:induction false} CountSets(cs: seq<Command>)
    requires forall c | c in cs :: c.Set?
    ensures SetCount(cs) == |cs|
  {
    if cs != [] {
      assert cs[0] in cs;
      CountSets(cs[1..]);
    }
  }

  /** One step of the plan, finished by accepted commands: at most seven sets, or one attestation. */
  lemma FinishStep(ok: RefCheck, g: Project, rid: Id, x: Id, proof: string) returns (cs: seq<Command>)
    requires ok(proof) && WellTyped(g) && rid in g.nodes && Workable(g, rid)
    requires x in Steps(g, rid) && Prereqs(g, x) == {} && OpenStep(g, x)
    ensures AllAccepted(ok, g, cs) && Finished(g, Run(ok, g, cs), x)
    ensures if g.nodes[x].kind == ReleaseGate then SetCount(cs) == 0 && |cs| == 1 else SetCount(cs) == |cs| <= 7
  {
    if g.nodes[x].kind == ReleaseGate {
      var c := SatisfyGate(ok, g, x, proof);
      cs := [c];
      assert cs[1..] == [];
    } else {
      cs := CompleteItem(ok, g, x, proof);
      CountSets(cs);
    }
  }

  /** In a workable plan some open step waits on nothing. */
  lemma FreeStep(g: Project, rid: Id) returns (x: Id)
    requires WellTyped(g) && rid in g.nodes && Workable(g, rid) && Steps(g, rid) != {}
    ensures x in Steps(g, rid) && Prereqs(g, x) == {} && OpenStep(g, x)
  {
    x := SinkExists(Plan(g, rid), Steps(g, rid));
    StepsClosed(g, rid);
    assert Succ(Plan(g, rid), x) == Prereqs(g, x) && Prereqs(g, x) <= Steps(g, rid);
    assert Prereqs(g, x) * Steps(g, rid) == Prereqs(g, x);
    StepOpen(g, rid, x);
  }

  /** The plan after finishing step `x`, and how it counts down. */
  lemma PlanCountsDown(g: Project, h: Project, rid: Id, x: Id)
    requires WellTyped(g) && rid in g.nodes && Workable(g, rid) && x in Steps(g, rid) && Finished(g, h, x)
    ensures WellTyped(h) && Workable(h, rid) && |Steps(h, rid)| < |Steps(g, rid)|
    ensures |WorkSteps(h, rid)| + (if g.nodes[x].kind == ReleaseGate then 0 else 1) <= |WorkSteps(g, rid)|
    ensures |GateSteps(h, rid)| + (if g.nodes[x].kind == ReleaseGate then 1 else 0) <= |GateSteps(g, rid)|
  {
    FinishedShrinks(g, h, rid, x);
    SubsetSize(Steps(h, rid), Steps(g, rid) - {x});
    WorkOffCounts(g, h, rid, x);
  }

  /** A workable plan can be worked off by accepted commands alone: at most seven sets per work item and
      one attestation per gate. */
  lemma {:induction false} WorkOff(ok: RefCheck, g: Project, rid: Id, proof: string) returns (cs: seq<Command>)
    requires ok(proof) && WellTyped(g) && rid in g.nodes && Workable(g, rid)
    ensures AllAccepted(ok, g, cs) && Steps(Run(ok, g, cs), rid) == {}
    ensures SetCount(cs) <= 7 * |WorkSteps(g, rid)|
    ensures |cs| - SetCount(cs) <= |GateSteps(g, rid)|
    decreases |Steps(g, rid)|
  {
    if Steps(g, rid) == {} {
      cs := [];
    } else {
      var x := FreeStep(g, rid);
      var first := FinishStep(ok, g, rid, x, proof);
      PlanCountsDown(g, Run(ok, g, first), rid, x);
      var rest := WorkOff(ok, Run(ok, g, first), rid, proof);
      cs := first + rest;
      RunConcat(ok, g, first, rest);
      CountConcat(first, rest);
    }
  }

  lemma WorkOffCounts(g: Project, h: Project, rid: Id, x: Id)
    requires rid in g.nodes && rid in h.nodes && SameShape(g, h)
    requires x in Steps(g, rid) && Steps(h, rid) <= Steps(g, rid) - {x}
    ensures |WorkSteps(h, rid)| + (if g.nodes[x].kind == ReleaseGate then 0 else 1) <= |WorkSteps(g, rid)|
    ensures |GateSteps(h, rid)| + (if g.nodes[x].kind == ReleaseGate then 1 else 0) <= |GateSteps(g, rid)|
  {
    SubsetSize(WorkSteps(h, rid), WorkSteps(g, rid) - {x});
    SubsetSize(GateSteps(h, rid), GateSteps(g, rid) - {x});
  }

  // ---- the main result --------------------------------------------------------------------------------

  /** Some sequence of commands makes the release READY. */
  ghost predicate Attainable(ok: RefCheck, g: Project, rid: Id)
    requires rid in g.nodes
  {
    exists cs :: ReleaseStateOf(Run(ok, g, cs), rid) == Ready
  }

  /** A release can be made READY exactly when it has an item, its plan has no cycle and every step of the
      plan can be completed. */
  lemma AttainableIff(ok: RefCheck, g: Project, rid: Id, proof: string)
    requires ok(proof) && WellTyped(g) && rid in g.nodes
    ensures Attainable(ok, g, rid) <==> Outs(g, rid, Includes) != [] && Workable(g, rid)
  {
    if Outs(g, rid, Includes) != [] && Workable(g, rid) {
      var cs := WorkOff(ok, g, rid, proof);
      var h := Run(ok, g, cs);
      ReadyIffNoSteps(h, rid);
      assert Outs(h, rid, Includes) == Outs(g, rid, Includes);
    }
    if Attainable(ok, g, rid) {
      var cs :| ReleaseStateOf(Run(ok, g, cs), rid) == Ready;
      var h := Run(ok, g, cs);
      assert Outs(h, rid, Includes) == Outs(g, rid, Includes);
      if !Workable(g, rid) {
        var d, root := UnworkableIsStuck(g, rid);
        StuckForever(ok, g, cs, d);
        StuckRootNotReady(g, h, rid, d, root);
      }
    }
  }

  /** A graph in which nothing but cycles could hold a plan up. */
  ghost predicate Sound(g: Project)
  {
    && (forall e | e in g.edges && e.kind == DependsOn :: MilestoneWork(g, e.dst) != [])
    && (forall n | n in g.nodes && g.nodes[n].kind == ReleaseGate :: Outs(g, n, RequiresTask) != [])
    && (forall e | e in g.edges && e.kind == RequiresTask :: IsWork(g.nodes[e.dst].kind))
    && (forall n | n in g.nodes :: !IsProposed(g, n))
    && (forall n | n in g.nodes && IsWork(g.nodes[n].kind) :: Movable(g.nodes[n]))
  }

  lemma SoundIsCompletable(g: Project, rid: Id, x: Id)
    requires WellTyped(g) && Sound(g) && rid in g.nodes && x in Steps(g, rid)
    ensures Completable(g, x)
  {
    StepIsWorkOrGate(g, rid, x);
    if g.nodes[x].kind == ReleaseGate {
      forall t | t in Outs(g, x, RequiresTask) ensures IsWork(g.nodes[t].kind) {
        assert Edge(x, t, RequiresTask) in g.edges;
      }
    } else {
      forall up | up in Upstream(g, x) ensures MilestoneWork(g, up) != [] {
        assert Edge(MilestoneOf(g, x).value, up, DependsOn) in g.edges;
      }
    }
  }

  lemma StepIsWorkOrGate(g: Project, rid: Id, x: Id)
    requires WellTyped(g) && Sound(g) && rid in g.nodes && x in Steps(g, rid)
    ensures IsWork(g.nodes[x].kind) || g.nodes[x].kind == ReleaseGate
  {
    var s := set y | y in g.nodes && (IsWork(g.nodes[y].kind) || g.nodes[y].kind == ReleaseGate);
    forall y | y in Roots(g, rid) ensures y in s {
      if y in Outs(g, rid, Includes) { assert EdgeTyped(g, Edge(rid, y, Includes)); }
      else { assert EdgeTyped(g, Edge(rid, y, RequiresGate)); }
    }
    forall a, b | a in s && b in Prereqs(g, a) ensures b in s {
      PrereqIff(g, a, b);
      WaitsOnWorkOrGate(g, a, b);
    }
    StepsLeast(g, rid, s);
  }

  lemma WaitsOnWorkOrGate(g: Project, a: Id, b: Id)
    requires WellTyped(g) && Sound(g) && a in g.nodes && WaitsOn(g, a, b)
    ensures b in g.nodes && (IsWork(g.nodes[b].kind) || g.nodes[b].kind == ReleaseGate)
  {
    if g.nodes[a].kind == ReleaseGate {
      assert Edge(a, b, RequiresTask) in g.edges;
    } else if b in Outs(g, a, After) {
      assert EdgeTyped(g, Edge(a, b, After));
    } else {
      var up :| up in Upstream(g, a) && HeldOn(g, up, b);
      if b !in MilestoneWork(g, up) { assert EdgeTyped(g, Edge(up, b, GatedBy)); }
    }
  }

  /** No deadlock: in a sound graph with an acyclic prerequisite relation, every release with an item is made
      READY from any state by accepted commands. */
  lemma NoDeadlock(ok: RefCheck, g: Project, rid: Id, proof: string) returns (cs: seq<Command>)
    requires ok(proof) && WellTyped(g) && Sound(g) && rid in g.nodes
    requires Acyclic(PlanRel(g)) && Outs(g, rid, Includes) != []
    ensures AllAccepted(ok, g, cs) && ReleaseStateOf(Run(ok, g, cs), rid) == Ready
    ensures SetCount(cs) <= 7 * |WorkSteps(g, rid)|
    ensures |cs| - SetCount(cs) <= |GateSteps(g, rid)|
  {
    forall x | x in Steps(g, rid) ensures Completable(g, x) { SoundIsCompletable(g, rid, x); }
    forall a, b | b in Succ(Plan(g, rid), a) ensures b in Succ(PlanRel(g), a) { PlanRelAt(g, a); }
    SubAcyclic(Plan(g, rid), PlanRel(g));
    cs := WorkOff(ok, g, rid, proof);
    ReadyIffNoSteps(Run(ok, g, cs), rid);
    assert Outs(Run(ok, g, cs), rid, Includes) == Outs(g, rid, Includes);
  }
}
