/** What a release still waits on: the worklist of `goal_plan` and its prerequisites (tools/graph.py:414-461). */
module GoalPlan {
  import opened Ids
  import opened Text
  import opened Digraph
  import opened ProjectGraph
  import opened Commands

  // ---- prerequisites ------------------------------------------------------------------

  function OpenAmong(g: Project, ids: seq<Id>): (r: set<Id>)
    ensures forall x :: x in r <==> x in ids && !IsComplete(g, x)
  {
    set x | x in ids && !IsComplete(g, x)
  }

  function UnsatisfiedAmong(g: Project, gates: seq<Id>): (r: set<Id>)
    requires forall x | x in gates :: x in g.nodes
    ensures forall x :: x in r <==> x in gates && GateStateOf(g, x) != Satisfied
  {
    set x | x in gates && GateStateOf(g, x) != Satisfied
  }

  /** What an upstream milestone still holds its dependants on. */
  function Holds(g: Project, up: Id): (r: set<Id>)
    requires up in g.nodes
    ensures r <= g.nodes.Keys
  {
    if MilestoneStateOf(g, up) == MComplete then {}
    else OpenAmong(g, MilestoneWork(g, up)) + UnsatisfiedAmong(g, Outs(g, up, GatedBy))
  }

  /** The milestones the item's own milestone depends on. */
  function Upstream(g: Project, n: Id): (r: seq<Id>)
    requires n in g.nodes
    ensures forall up | up in r :: up in g.nodes
  {
    var m := MilestoneOf(g, n);
    if m.None? then [] else
    var r := Outs(g, m.value, DependsOn);
    assert forall up | up in r :: Edge(m.value, up, DependsOn) in g.edges;
    r
  }

  function Prereqs(g: Project, n: Id): (r: set<Id>)
    requires n in g.nodes
    ensures r <= g.nodes.Keys
  {
    if g.nodes[n].kind == ReleaseGate then
      var r := OpenAmong(g, Outs(g, n, RequiresTask));
      assert forall x | x in r :: Edge(n, x, RequiresTask) in g.edges;
      r
    else
      var direct := OpenAmong(g, Outs(g, n, After));
      assert forall x | x in direct :: Edge(n, x, After) in g.edges;
      direct + set up, x | up in Upstream(g, n) && x in Holds(g, up) :: x
  }

  /** The prerequisite relation over all nodes. */
  function PlanRel(g: Project): (r: Rel)
    ensures forall x, y :: y in Succ(r, x) <==> x in g.nodes && y in Prereqs(g, x)
  {
    map n | n in g.nodes :: Prereqs(g, n)
  }

  function Roots(g: Project, rid: Id): (r: set<Id>)
    requires rid in g.nodes
    ensures r <= g.nodes.Keys
    ensures forall y :: y in r <==>
      || (Edge(rid, y, Includes) in g.edges && g.nodes[y].status != Complete)
      || (Edge(rid, y, RequiresGate) in g.edges && GateStateOf(g, y) != Satisfied)
  {
    var items := OpenAmong(g, Outs(g, rid, Includes));
    assert forall x | x in items :: Edge(rid, x, Includes) in g.edges;
    items + UnsatisfiedAmong(g, Outs(g, rid, RequiresGate))
  }

  /** `y` is open work of, or an unsatisfied gate on, milestone `up`. */
  predicate HeldOn(g: Project, up: Id, y: Id)
    requires up in g.nodes
  {
    || (y in MilestoneWork(g, up) && !IsComplete(g, y))
    || (y in Outs(g, up, GatedBy) && GateStateOf(g, y) != Satisfied)
  }

  /** `y` holds `x` back, said without the derived milestone states. */
  ghost predicate WaitsOn(g: Project, x: Id, y: Id)
    requires x in g.nodes
  {
    if g.nodes[x].kind == ReleaseGate then
      y in Outs(g, x, RequiresTask) && !IsComplete(g, y)
    else
      || (y in Outs(g, x, After) && !IsComplete(g, y))
      || exists up :: up in Upstream(g, x) && HeldOn(g, up, y)
  }

  lemma HoldsIff(g: Project, up: Id, y: Id)
    requires up in g.nodes
    ensures y in Holds(g, up) <==> HeldOn(g, up, y)
  {
  }

  /** The computed prerequisites are exactly what holds the step back. */
  lemma PrereqIff(g: Project, x: Id, y: Id)
    requires x in g.nodes
    ensures y in Prereqs(g, x) <==> WaitsOn(g, x, y)
  {
    forall up | up in Upstream(g, x) ensures y in Holds(g, up) <==> HeldOn(g, up, y) { HoldsIff(g, up, y); }
  }

  /** `y` is open work of milestone `up`, or an unsatisfied gate on it. */
  predicate OpenIn(g: Project, up: Id, y: Id)
    requires up in g.nodes
  {
    || ((Edge(y, up, PartOf) in g.edges || Edge(y, up, ScheduledIn) in g.edges)
        && g.nodes[y].kind in {MilestoneTask, ImpTask, DossierTask} && g.nodes[y].status != Complete)
    || (Edge(up, y, GatedBy) in g.edges && GateStateOf(g, y) != Satisfied)
  }

  /** Milestone `up`, that the milestone `x` counts under depends on, holds `x` back by `y`. */
  ghost predicate HeldThrough(g: Project, x: Id, m: Id, up: Id, y: Id)
    requires x in g.nodes
  {
    CountsUnder(g, x, m) && Edge(m, up, DependsOn) in g.edges && OpenIn(g, up, y)
  }

  lemma HeldOnIff(g: Project, up: Id, y: Id)
    requires up in g.nodes
    ensures HeldOn(g, up, y) <==> OpenIn(g, up, y)
  {
  }

  lemma UpstreamIff(g: Project, x: Id, up: Id)
    requires x in g.nodes
    ensures up in Upstream(g, x) <==> exists m :: CountsUnder(g, x, m) && Edge(m, up, DependsOn) in g.edges
  {
    var m := MilestoneOf(g, x);
    if m.Some? { MilestoneOfIff(g, x, m.value); }
    if m' :| CountsUnder(g, x, m') && Edge(m', up, DependsOn) in g.edges { MilestoneOfIff(g, x, m'); }
  }

  /** The prerequisites of a step, read off the edges. */
  lemma PrereqsByEdges(g: Project, x: Id, y: Id)
    requires x in g.nodes
    ensures g.nodes[x].kind == ReleaseGate ==>
      (y in Prereqs(g, x) <==> Edge(x, y, RequiresTask) in g.edges && g.nodes[y].status != Complete)
    ensures g.nodes[x].kind != ReleaseGate ==>
      (y in Prereqs(g, x) <==> AfterOpen(g, x, y) || exists m, up :: HeldThrough(g, x, m, up, y))
  {
    PrereqIff(g, x, y);
    if g.nodes[x].kind != ReleaseGate {
      if up :| up in Upstream(g, x) && HeldOn(g, up, y) {
        UpstreamIff(g, x, up);
        HeldOnIff(g, up, y);
        var m :| CountsUnder(g, x, m) && Edge(m, up, DependsOn) in g.edges;
        assert HeldThrough(g, x, m, up, y);
      }
      if m, up :| HeldThrough(g, x, m, up, y) {
        UpstreamIff(g, x, up);
        HeldOnIff(g, up, y);
        assert up in Upstream(g, x) && HeldOn(g, up, y);
      }
    }
  }

  /** An item that counts under no milestone, such as an imp task without an owner or a schedule, waits only on what it
      comes after. */
  lemma NoMilestoneNoUpstream(g: Project, n: Id)
    requires n in g.nodes && g.nodes[n].kind == ImpTask
    requires (forall s :: Edge(n, s, OwnedBy) !in g.edges) || (forall m :: Edge(n, m, ScheduledIn) !in g.edges)
    ensures forall y :: y in Prereqs(g, n) <==> AfterOpen(g, n, y)
    ensures PrereqsMet(g, n) <==> forall y :: !AfterOpen(g, n, y)
  {
    forall m ensures !CountsUnder(g, n, m) {
      if FirstTarget(g.edges, n, ScheduledIn, m) { assert Edge(n, m, ScheduledIn) in g.edges; }
    }
    forall y ensures y in Prereqs(g, n) <==> AfterOpen(g, n, y) { PrereqsByEdges(g, n, y); }
    PrereqsMetIff(g, n);
  }

  /** An item that counts under `m` is accepted past NOT_STARTED only when every milestone `m` depends on is COMPLETE, and
      waits on all that is open in the others. */
  lemma StartNeedsUpstream(ok: RefCheck, g: Project, a: SetArgs, m: Id, up: Id)
    requires a.id in g.nodes && CountsUnder(g, a.id, m) && Edge(m, up, DependsOn) in g.edges
    requires g.nodes[a.id].kind != ReleaseGate
    ensures ApplySet(ok, g, a).Saved? && a.state != NotStarted && a.state != Blocked ==> MilestoneStateOf(g, up) == MComplete
    ensures forall y | OpenIn(g, up, y) :: y in Prereqs(g, a.id)
  {
    StartedIsClear(ok, g, a);
    if MilestoneStateOf(g, up) != MComplete { assert UpstreamOpen(g, a.id, m, up); }
    forall y | OpenIn(g, up, y) ensures y in Prereqs(g, a.id) { WaitsOnUpstream(g, a.id, m, up, y); }
  }

  lemma StartedIsClear(ok: RefCheck, g: Project, a: SetArgs)
    requires a.id in g.nodes
    ensures ApplySet(ok, g, a).Saved? && a.state != NotStarted && a.state != Blocked ==>
      !exists m, up :: UpstreamOpen(g, a.id, m, up)
  {
    MilestoneClearIff(g, a.id);
  }

  lemma WaitsOnUpstream(g: Project, x: Id, m: Id, up: Id, y: Id)
    requires x in g.nodes && g.nodes[x].kind != ReleaseGate && HeldThrough(g, x, m, up, y)
    ensures y in Prereqs(g, x)
  {
    PrereqsByEdges(g, x, y);
  }

  // ---- the steps ------------------------------------------------------------------------

  /** Everything the release transitively waits on. */
  ghost function Steps(g: Project, rid: Id): (r: set<Id>)
    requires rid in g.nodes
    ensures r <= g.nodes.Keys
  {
    set x | x in g.nodes && exists root :: root in Roots(g, rid) && Reaches(PlanRel(g), root, x)
  }

  /** The prerequisite relation of the steps. */
  ghost function Plan(g: Project, rid: Id): (r: Rel)
    requires rid in g.nodes
    ensures r.Keys == Steps(g, rid)
  {
    map n | n in Steps(g, rid) :: Prereqs(g, n)
  }

  ghost predicate PrereqClosed(g: Project, s: set<Id>)
  {
    s <= g.nodes.Keys && forall x | x in s :: Prereqs(g, x) <= s
  }

  lemma StepsClosed(g: Project, rid: Id)
    requires rid in g.nodes
    ensures Roots(g, rid) <= Steps(g, rid) && PrereqClosed(g, Steps(g, rid))
  {
    var r := PlanRel(g);
    forall x | x in Roots(g, rid) ensures x in Steps(g, rid) {
      ReachesRefl(r, x);
    }
    forall x, y | x in Steps(g, rid) && y in Prereqs(g, x) ensures y in Steps(g, rid) {
      var root :| root in Roots(g, rid) && Reaches(r, root, x);
      ReachesSnoc(r, root, x, y);
    }
  }

  lemma {:induction false} ClosedHasWalk(g: Project, s: set<Id>, w: seq<Id>)
    requires PrereqClosed(g, s) && Walk(PlanRel(g), w) && w[0] in s
    ensures w[|w|-1] in s
  {
    if |w| > 1 {
      assert w[0+1] in Succ(PlanRel(g), w[0]);
      WalkSuffix(PlanRel(g), w, 1);
      ClosedHasWalk(g, s, w[1..]);
    }
  }

  /** The steps are the least prerequisite-closed set that holds the release's open items and unsatisfied gates. */
  lemma StepsLeast(g: Project, rid: Id, s: set<Id>)
    requires rid in g.nodes
    requires Roots(g, rid) <= s && PrereqClosed(g, s)
    ensures Steps(g, rid) <= s
  {
    forall x | x in Steps(g, rid) ensures x in s {
      var root :| root in Roots(g, rid) && Reaches(PlanRel(g), root, x);
      var w :| WalkBetween(PlanRel(g), w, root, x);
      ClosedHasWalk(g, s, w);
    }
  }

  /** A release is READY exactly when it has an item and nothing is left to do. */
  lemma ReadyIffNoSteps(g: Project, rid: Id)
    requires rid in g.nodes
    ensures ReleaseStateOf(g, rid) == Ready <==> Outs(g, rid, Includes) != [] && Steps(g, rid) == {}
  {
    StepsClosed(g, rid);
    if Roots(g, rid) == {} {
      StepsLeast(g, rid, {});
    }
    forall x | x in Outs(g, rid, Includes) && !IsComplete(g, x) ensures x in Roots(g, rid) { }
    forall x | x in Outs(g, rid, RequiresGate) && GateStateOf(g, x) != Satisfied ensures x in Roots(g, rid) { }
  }

  // ---- the worklist -----------------------------------------------------------------------

  /** The members of a set in some order, as iterating a Python set gives them. */
  method Enumerate(s: set<Id>) returns (r: seq<Id>)
    ensures forall x :: x in r <==> x in s
    ensures Distinct(r)
  {
    r := [];
    var todo := s;
    while todo != {}
      invariant todo <= s && forall x | x in r :: x in s && x !in todo
      invariant forall x | x in s :: x in todo || x in r
      invariant Distinct(r)
      decreases |todo|
    {
      var x :| x in todo;
      assert x !in r;
      r := r + [x];
      todo := todo - {x};
    }
  }

  /** The worklist's invariant: `seen` holds what was expanded, `stack` what is still to be. */
  ghost predicate Frontier(r: Rel, roots: set<Id>, all: set<Id>, seen: Rel, stack: seq<Id>)
  {
    && seen.Keys <= all && (forall x | x in stack :: x in all)
    && (forall x | x in seen :: seen[x] == Succ(r, x))
    && (forall x | x in roots :: x in seen || x in stack)
    && (forall x, y | x in seen && y in seen[x] :: y in seen || y in stack)
  }

  lemma FrontierSkip(r: Rel, roots: set<Id>, all: set<Id>, seen: Rel, stack: seq<Id>, n: Id)
    requires Frontier(r, roots, all, seen, stack + [n]) && n in seen
    ensures Frontier(r, roots, all, seen, stack)
  {
    assert forall x | x in stack :: x in stack + [n];
  }

  lemma FrontierExpand(r: Rel, roots: set<Id>, all: set<Id>, seen: Rel, stack: seq<Id>, n: Id, more: seq<Id>)
    requires Frontier(r, roots, all, seen, stack + [n]) && n !in seen
    requires forall x | x in all :: Succ(r, x) <= all
    requires forall x :: x in more <==> x in Succ(r, n) && x !in seen && x != n
    ensures n in all && Frontier(r, roots, all, seen[n := Succ(r, n)], stack + more)
  {
    assert n in stack + [n] && forall x | x in stack :: x in stack + [n];
  }

  /** The stack loop, over the prerequisite relation `r`. */
  method Expand(r: Rel, start: seq<Id>, ghost all: set<Id>) returns (prereq: Rel)
    requires forall x | x in start :: x in all
    requires forall x | x in all :: Succ(r, x) <= all
    ensures Frontier(r, (set x | x in start), all, prereq, [])
  {
    ghost var roots := set x | x in start;
    prereq := map[];
    var stack := start;
    while stack != []
      invariant Frontier(r, roots, all, prereq, stack)
      decreases all - prereq.Keys, |stack|
    {
      var nid := stack[|stack|-1];
      assert stack == stack[..|stack|-1] + [nid];
      stack := stack[..|stack|-1];
      if nid in prereq {
        FrontierSkip(r, roots, all, prereq, stack, nid);
      } else {
        var deps := Succ(r, nid);
        var more := Enumerate(set d | d in deps && d !in prereq && d != nid);
        FrontierExpand(r, roots, all, prereq, stack, nid, more);
        prereq := prereq[nid := deps];
        stack := stack + more;
      }
    }
  }

  method Start(g: Project, rid: Id) returns (stack: seq<Id>)
    requires rid in g.nodes
    ensures (set x | x in stack) == Roots(g, rid)
  {
    var items := Enumerate(OpenAmong(g, Outs(g, rid, Includes)));
    var gates := Enumerate(UnsatisfiedAmong(g, Outs(g, rid, RequiresGate)));
    stack := items + gates;
  }

  lemma PlanRelAt(g: Project, x: Id)
    requires x in g.nodes
    ensures Succ(PlanRel(g), x) == Prereqs(g, x)
  {
  }

  lemma IsPlan(g: Project, rid: Id, m: Rel)
    requires rid in g.nodes
    requires m.Keys == Steps(g, rid) && forall x | x in m :: m[x] == Prereqs(g, x)
    ensures m == Plan(g, rid)
  {
  }

  lemma FrontierCloses(r: Rel, roots: set<Id>, all: set<Id>, seen: Rel)
    requires Frontier(r, roots, all, seen, [])
    ensures roots <= seen.Keys <= all
    ensures forall x | x in seen :: seen[x] == Succ(r, x) && seen[x] <= seen.Keys
  {
  }

  lemma FrontierIsPlan(g: Project, rid: Id, prereq: Rel)
    requires rid in g.nodes
    requires Frontier(PlanRel(g), Roots(g, rid), Steps(g, rid), prereq, [])
    ensures prereq == Plan(g, rid)
  {
    FrontierCloses(PlanRel(g), Roots(g, rid), Steps(g, rid), prereq);
    forall x | x in prereq ensures prereq[x] == Prereqs(g, x) { PlanRelAt(g, x); }
    StepsLeast(g, rid, prereq.Keys);
    IsPlan(g, rid, prereq);
  }

  lemma PlanRelClosed(g: Project, s: set<Id>)
    requires PrereqClosed(g, s)
    ensures forall x | x in s :: Succ(PlanRel(g), x) <= s
  {
    forall x | x in s ensures Succ(PlanRel(g), x) <= s {
      assert Succ(PlanRel(g), x) == Prereqs(g, x);
    }
  }

  /** The worklist finds exactly the steps, each with its prerequisites. */
  method Worklist(g: Project, rid: Id) returns (prereq: Rel)
    requires rid in g.nodes
    ensures prereq == Plan(g, rid)
  {
    var stack := Start(g, rid);
    StepsClosed(g, rid);
    PlanRelClosed(g, Steps(g, rid));
    assert forall x | x in stack :: x in set y | y in stack;
    prereq := Expand(PlanRel(g), stack, Steps(g, rid));
    FrontierIsPlan(g, rid, prereq);
  }

  // ---- the plan and the commands --------------------------------------------------------------

  /** A work item passes the prerequisite checks of `set` exactly when it waits on nothing and no milestone
      upstream of it is without work (such a milestone is never COMPLETE and yet lists nothing to wait on). */
  lemma StartableIff(g: Project, n: Id)
    requires n in g.nodes && g.nodes[n].kind != ReleaseGate
    ensures PrereqsMet(g, n) <==>
      Prereqs(g, n) == {} && forall up | up in Upstream(g, n) :: MilestoneWork(g, up) != []
  {
    if PrereqsMet(g, n) {
      StartableWaitsOnNothing(g, n);
      forall y ensures y !in Prereqs(g, n) { PrereqIff(g, n, y); }
    }
    if Prereqs(g, n) == {} && forall up | up in Upstream(g, n) :: MilestoneWork(g, up) != [] {
      forall y ensures !WaitsOn(g, n, y) { PrereqIff(g, n, y); }
      FreeIsStartable(g, n);
    }
  }

  lemma StartableWaitsOnNothing(g: Project, n: Id)
    requires n in g.nodes && g.nodes[n].kind != ReleaseGate && PrereqsMet(g, n)
    ensures forall y :: !WaitsOn(g, n, y)
    ensures forall up | up in Upstream(g, n) :: MilestoneWork(g, up) != []
  {
    forall up | up in Upstream(g, n) ensures MilestoneWork(g, up) != [] && NothingHeld(g, up) {
      UnblockedIff(g, n);
      CompleteIff(g, up);
    }
  }

  lemma FreeIsStartable(g: Project, n: Id)
    requires n in g.nodes && g.nodes[n].kind != ReleaseGate
    requires forall y :: !WaitsOn(g, n, y)
    requires forall up | up in Upstream(g, n) :: MilestoneWork(g, up) != []
    ensures PrereqsMet(g, n)
  {
    forall x | x in Outs(g, n, After) ensures IsComplete(g, x) { assert !WaitsOn(g, n, x); }
    forall up | up in Upstream(g, n) ensures MilestoneStateOf(g, up) == MComplete {
      forall y ensures !HeldOn(g, up, y) { assert !WaitsOn(g, n, y); }
      CompleteIff(g, up);
    }
    UnblockedIff(g, n);
  }

  ghost predicate NothingHeld(g: Project, up: Id)
    requires up in g.nodes
  {
    forall y :: !HeldOn(g, up, y)
  }

  lemma CompleteIff(g: Project, up: Id)
    requires up in g.nodes
    ensures MilestoneStateOf(g, up) == MComplete <==> MilestoneWork(g, up) != [] && NothingHeld(g, up)
  {
    if NothingHeld(g, up) {
      forall y | y in MilestoneWork(g, up) ensures IsComplete(g, y) { assert !HeldOn(g, up, y); }
      forall y | y in Outs(g, up, GatedBy) ensures GateStateOf(g, y) == Satisfied { assert !HeldOn(g, up, y); }
    }
  }

  lemma UnblockedIff(g: Project, n: Id)
    requires n in g.nodes
    ensures MilestoneClear(g, n) <==> forall up | up in Upstream(g, n) :: MilestoneStateOf(g, up) == MComplete
  {
  }

  /** A gate passes the required-task check of `attest` exactly when it waits on nothing. */
  lemma AttestableIff(g: Project, gate: Id)
    requires gate in g.nodes && g.nodes[gate].kind == ReleaseGate
    ensures AllComplete(g, Outs(g, gate, RequiresTask)) <==> Prereqs(g, gate) == {}
  {
    if Prereqs(g, gate) == {} {
      forall x | x in Outs(g, gate, RequiresTask) ensures IsComplete(g, x) {
        assert x !in Prereqs(g, gate);
      }
    }
  }
}
