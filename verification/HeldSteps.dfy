/** What `held_by` promises (tools/graph.py:414-424): a held step is not done until its blocker is. */
module HeldSteps {
  import opened Ids
  import opened Digraph
  import opened ProjectGraph
  import opened Commands
  import opened GoalPlan
  import opened Attainability
  import opened Transfer
  import opened Waves

  /** Every member is open, and all but `b` wait on another member. */
  ghost predicate HeldUp(g: Project, d: set<Id>, b: Id)
  {
    && d <= g.nodes.Keys && b in d
    && forall x | x in d :: OpenStep(g, x) && (x != b ==> Prereqs(g, x) * d != {})
  }

  lemma HeldItemStaysOpen(ok: RefCheck, g: Project, c: Command, d: set<Id>, b: Id, x: Id)
    requires HeldUp(g, d, b) && !IsComplete(Next(ok, g, c), b)
    requires x in d && g.nodes[x].kind != ReleaseGate
    ensures !IsComplete(Next(ok, g, c), x)
  {
    if x != b && IsComplete(Next(ok, g, c), x) {
      assert !IsComplete(g, x);
      CompletedWasFree(ok, g, c.args);
    }
  }

  lemma HeldGateStaysOpen(ok: RefCheck, g: Project, c: Command, d: set<Id>, b: Id, x: Id)
    requires HeldUp(g, d, b) && !IsComplete(Next(ok, g, c), b) && IsWork(g.nodes[b].kind) && TasksTyped(g)
    requires x in d && g.nodes[x].kind == ReleaseGate
    ensures GateStateOf(Next(ok, g, c), x) != Satisfied
  {
    var h := Next(ok, g, c);
    ShapeDecides(g, h);
    var t :| t in Prereqs(g, x) * d;
    assert Edge(x, t, RequiresTask) in g.edges;
    HeldItemStaysOpen(ok, g, c, d, b, t);
    assert t in Outs(h, x, RequiresTask);
  }

  /** While the blocker is not COMPLETE, no command finishes a held step. */
  lemma HeldUpStep(ok: RefCheck, g: Project, c: Command, d: set<Id>, b: Id)
    requires WellTyped(g) && TasksTyped(g) && HeldUp(g, d, b) && IsWork(g.nodes[b].kind)
    requires !IsComplete(Next(ok, g, c), b)
    ensures HeldUp(Next(ok, g, c), d, b)
  {
    var h := Next(ok, g, c);
    NextFrozen(ok, g, c);
    forall x | x in d ensures OpenStep(h, x) {
      if g.nodes[x].kind == ReleaseGate { HeldGateStaysOpen(ok, g, c, d, b, x); }
      else { HeldItemStaysOpen(ok, g, c, d, b, x); }
    }
    forall x | x in d && x != b ensures Prereqs(h, x) * d != {} {
      var y :| y in Prereqs(g, x) * d;
      PrereqIff(g, x, y);
      OpenPrereqStays(g, h, x, y);
      PrereqIff(h, x, y);
      assert y in Prereqs(h, x) * d;
    }
  }

  lemma TasksTypedStays(g: Project, h: Project)
    requires TasksTyped(g) && SameShape(g, h)
    ensures TasksTyped(h)
  {
  }

  /** The blocker is not COMPLETE at any point of the run. */
  ghost predicate NeverComplete(ok: RefCheck, g: Project, cs: seq<Command>, b: Id)
    decreases cs
  {
    !IsComplete(g, b) && (cs == [] || NeverComplete(ok, Next(ok, g, cs[0]), cs[1..], b))
  }

  lemma {:induction false} HeldUpRun(ok: RefCheck, g: Project, cs: seq<Command>, d: set<Id>, b: Id)
    requires WellTyped(g) && TasksTyped(g) && HeldUp(g, d, b) && IsWork(g.nodes[b].kind)
    requires NeverComplete(ok, g, cs, b)
    ensures HeldUp(Run(ok, g, cs), d, b)
    decreases cs
  {
    if cs != [] {
      var h := Next(ok, g, cs[0]);
      HeldUpStep(ok, g, cs[0], d, b);
      TypedStays(g, h);
      TasksTypedStays(g, h);
      HeldUpRun(ok, h, cs[1..], d, b);
    }
  }

  lemma TypedRequiresWork(g: Project, x: Id)
    requires TasksTyped(g) && x in g.nodes
    ensures RequiresWork(g, x)
  {
    forall t | t in Outs(g, x, RequiresTask) ensures IsWork(g.nodes[t].kind) {
      assert Edge(x, t, RequiresTask) in g.edges;
    }
  }

  lemma LeadingIsHeldUp(g: Project, b: Id) returns (d: set<Id>)
    requires WellTyped(g) && TasksTyped(g) && b in g.nodes && OpenStep(g, b)
    ensures HeldUp(g, d, b)
    ensures forall x | x in g.nodes && OpenStep(g, x) && Reaches(PlanRel(g), x, b) :: x in d
  {
    var r := PlanRel(g);
    d := set x | x in g.nodes && OpenStep(g, x) && Reaches(r, x, b);
    ReachesRefl(r, b);
    forall x | x in d && x != b ensures Prereqs(g, x) * d != {} {
      PlusOfReaches(r, x, b);
      var y := ReachesPlusFirst(r, x, b);
      PlanRelAt(g, x);
      PrereqIff(g, x, y);
      TypedRequiresWork(g, x);
      PrereqOpen(g, x, y);
      assert y in Prereqs(g, x) * d;
    }
  }

  lemma PlanWithin(g: Project, rid: Id, x: Id, b: Id)
    requires rid in g.nodes && ReachesPlus(Plan(g, rid), x, b)
    ensures Reaches(PlanRel(g), x, b)
  {
    var w :| WalkBetween(Plan(g, rid), w, x, b) && |w| >= 2;
    forall i | 0 <= i < |w| - 1 ensures w[i+1] in Succ(PlanRel(g), w[i]) {
      assert w[i+1] in Succ(Plan(g, rid), w[i]);
      PlanRelAt(g, w[i]);
    }
    assert WalkBetween(PlanRel(g), w, x, b);
  }

  /** A step that is held by a blocker is not done after any run in which the blocker was never COMPLETE. */
  lemma HeldUntilResolved(ok: RefCheck, g: Project, rid: Id, x: Id, b: Id, blocked: set<Id>, cs: seq<Command>)
    requires WellTyped(g) && TasksTyped(g) && rid in g.nodes
    requires x in Steps(g, rid) && b in Blockers(Plan(g, rid), blocked, x)
    requires b in g.nodes && IsWork(g.nodes[b].kind) && NeverComplete(ok, g, cs, b)
    ensures var h := Run(ok, g, cs);
      if g.nodes[x].kind == ReleaseGate then GateStateOf(h, x) != Satisfied else h.nodes[x].status != Complete
  {
    forall z | z in Steps(g, rid) ensures RequiresWork(g, z) { TypedRequiresWork(g, z); }
    StepOpen(g, rid, x);
    PlanWithin(g, rid, x, b);
    var d := LeadingIsHeldUp(g, b);
    HeldUpRun(ok, g, cs, d, b);
  }
}
