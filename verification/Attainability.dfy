/** When a release can be made READY, and by how many commands (tools/graph.py:281-369, 414-461). */
module Attainability {
  import opened Ids
  import opened Digraph
  import opened ProjectGraph
  import opened Commands
  import opened GoalPlan

  // ---- single steps -----------------------------------------------------------------

  /** `set` can move the item at all: its position in the lifecycle is known. */
  predicate Movable(n: Node)
  {
    InLifecycle(n.status) || (n.status == Blocked && InLifecycle(Ceiling(n)))
  }

  /** Nothing outside the prerequisite relation stands in the step's way for good. */
  ghost predicate Completable(g: Project, x: Id)
    requires x in g.nodes
  {
    if g.nodes[x].kind == ReleaseGate then
      && Outs(g, x, RequiresTask) != []
      && forall t | t in Outs(g, x, RequiresTask) :: IsWork(g.nodes[t].kind) || IsComplete(g, t)
    else
      && IsWork(g.nodes[x].kind) && Movable(g.nodes[x]) && !Unauthorized(g, x)
      && forall up | up in Upstream(g, x) :: MilestoneWork(g, up) != []
  }

  /** A gate's open tasks are work items. */
  ghost predicate RequiresWork(g: Project, x: Id)
    requires x in g.nodes
  {
    g.nodes[x].kind == ReleaseGate ==>
      forall t | t in Outs(g, x, RequiresTask) :: IsWork(g.nodes[t].kind) || IsComplete(g, t)
  }

  ghost predicate OpenStep(g: Project, x: Id)
    requires x in g.nodes
  {
    if g.nodes[x].kind == ReleaseGate then GateStateOf(g, x) != Satisfied else !IsComplete(g, x)
  }

  // ---- what no command changes ------------------------------------------------------------

  /** Only work items change status, and an item that cannot be moved stays that way. */
  ghost predicate Frozen(g: Project, h: Project)
  {
    && SameShape(g, h)
    && (forall n | n in g.nodes && !IsWork(g.nodes[n].kind) :: h.nodes[n].status == g.nodes[n].status)
    && (forall n | n in g.nodes && !Movable(g.nodes[n]) :: !Movable(h.nodes[n]))
  }

  lemma NextFrozen(ok: RefCheck, g: Project, c: Command)
    ensures Frozen(g, Next(ok, g, c))
  {
  }

  /** A step that cannot be completed never can be. */
  lemma NeverCompletable(g: Project, h: Project, x: Id)
    requires Frozen(g, h) && x in g.nodes && Completable(h, x)
    ensures Completable(g, x)
  {
    ShapeDecides(g, h);
    if g.nodes[x].kind == ReleaseGate {
      forall t | t in Outs(g, x, RequiresTask) ensures IsWork(g.nodes[t].kind) || IsComplete(g, t) {
        assert t in Outs(h, x, RequiresTask);
      }
    } else {
      forall d | d in Outs(g, x, AuthorizedBy) && IsProposed(g, d) ensures IsProposed(h, d) {
        assert !IsWork(g.nodes[d].kind);
      }
      forall up | up in Upstream(g, x) ensures MilestoneWork(g, up) != [] {
        assert up in Upstream(h, x);
      }
    }
  }

  // ---- stuck sets: safety ---------------------------------------------------------------------

  /** Every member is open and either cannot be completed or waits on another member. */
  ghost predicate Stuck(g: Project, d: set<Id>)
  {
    && d <= g.nodes.Keys
    && forall x | x in d :: OpenStep(g, x) && (!Completable(g, x) || Prereqs(g, x) * d != {})
  }

  /** An accepted `set` to COMPLETE is on a completable step that waits on nothing. */
  lemma CompletedWasFree(ok: RefCheck, g: Project, a: SetArgs)
    requires ApplySet(ok, g, a).Saved? && a.state == Complete && !IsComplete(g, a.id)
    ensures Completable(g, a.id) && Prereqs(g, a.id) == {}
  {
    StartableIff(g, a.id);
  }

  lemma StuckItemStaysOpen(ok: RefCheck, g: Project, c: Command, d: set<Id>, x: Id)
    requires Stuck(g, d) && x in d && g.nodes[x].kind != ReleaseGate
    ensures !IsComplete(Next(ok, g, c), x)
  {
    if IsComplete(Next(ok, g, c), x) {
      assert !IsComplete(g, x);
      CompletedWasFree(ok, g, c.args);
      assert false;
    }
  }

  lemma StuckGateStaysOpen(ok: RefCheck, g: Project, c: Command, d: set<Id>, x: Id)
    requires Stuck(g, d) && x in d && g.nodes[x].kind == ReleaseGate
    ensures GateStateOf(Next(ok, g, c), x) != Satisfied
  {
    var h := Next(ok, g, c);
    NextFrozen(ok, g, c);
    ShapeDecides(g, h);
    var required := Outs(g, x, RequiresTask);
    if required != [] {
      var t := StuckGateWaits(g, d, x);
      if IsWork(g.nodes[t].kind) {
        StuckItemStaysOpen(ok, g, c, d, t);
      }
      assert t in Outs(h, x, RequiresTask) && !IsComplete(h, t);
    }
  }

  /** A stuck gate has a required task that is not a work item, or is stuck itself. */
  lemma StuckGateWaits(g: Project, d: set<Id>, x: Id) returns (t: Id)
    requires Stuck(g, d) && x in d && g.nodes[x].kind == ReleaseGate && Outs(g, x, RequiresTask) != []
    ensures t in Outs(g, x, RequiresTask) && !IsComplete(g, t) && (IsWork(g.nodes[t].kind) ==> t in d)
  {
    if !Completable(g, x) {
      t :| t in Outs(g, x, RequiresTask) && !(IsWork(g.nodes[t].kind) || IsComplete(g, t));
    } else {
      t :| t in Prereqs(g, x) * d;
    }
  }

  lemma HeldOnStays(g: Project, h: Project, up: Id, y: Id)
    requires WellTyped(g) && SameShape(g, h) && up in g.nodes && HeldOn(g, up, y)
    requires OpenStep(h, y)
    ensures HeldOn(h, up, y)
  {
    ShapeDecides(g, h);
    if y !in MilestoneWork(g, up) {
      assert EdgeTyped(g, Edge(up, y, GatedBy));
      assert y in Outs(h, up, GatedBy);
    }
  }

  /** A prerequisite that stays open stays a prerequisite. */
  lemma OpenPrereqStays(g: Project, h: Project, x: Id, y: Id)
    requires WellTyped(g) && SameShape(g, h) && x in g.nodes && WaitsOn(g, x, y)
    requires y in g.nodes && OpenStep(h, y)
    requires !IsWork(g.nodes[y].kind) ==> g.nodes[y].status == h.nodes[y].status
    ensures WaitsOn(h, x, y)
  {
    ShapeDecides(g, h);
    assert Upstream(g, x) == Upstream(h, x);
    if g.nodes[x].kind == ReleaseGate {
      assert y in Outs(h, x, RequiresTask);
    } else if y in Outs(g, x, After) {
      assert EdgeTyped(g, Edge(x, y, After));
      assert y in Outs(h, x, After);
    } else {
      var up :| up in Upstream(g, x) && HeldOn(g, up, y);
      HeldOnStays(g, h, up, y);
    }
  }

  /** No command gets a stuck set moving. */
  lemma StuckStep(ok: RefCheck, g: Project, c: Command, d: set<Id>)
    requires WellTyped(g) && Stuck(g, d)
    ensures Stuck(Next(ok, g, c), d)
  {
    var h := Next(ok, g, c);
    NextFrozen(ok, g, c);
    forall x | x in d ensures OpenStep(h, x) {
      if g.nodes[x].kind == ReleaseGate { StuckGateStaysOpen(ok, g, c, d, x); }
      else { StuckItemStaysOpen(ok, g, c, d, x); }
    }
    forall x | x in d ensures !Completable(h, x) || Prereqs(h, x) * d != {} {
      if !Completable(g, x) {
        if Completable(h, x) { NeverCompletable(g, h, x); }
      } else {
        var y :| y in Prereqs(g, x) * d;
        PrereqIff(g, x, y);
        OpenPrereqStays(g, h, x, y);
        PrereqIff(h, x, y);
        assert y in Prereqs(h, x) * d;
      }
    }
  }

  lemma TypedStays(g: Project, h: Project)
    requires WellTyped(g) && SameShape(g, h)
    ensures WellTyped(h)
  {
    forall e | e in h.edges ensures EdgeTyped(h, e) { assert EdgeTyped(g, e); }
  }

  lemma {:induction false} StuckForever(ok: RefCheck, g: Project, cs: seq<Command>, d: set<Id>)
    requires WellTyped(g) && Stuck(g, d)
    ensures Stuck(Run(ok, g, cs), d)
    decreases cs
  {
    if cs != [] {
      StuckStep(ok, g, cs[0], d);
      TypedStays(g, Next(ok, g, cs[0]));
      StuckForever(ok, Next(ok, g, cs[0]), cs[1..], d);
    }
  }

  /** A root of the release in a stuck set keeps the release from READY. */
  lemma StuckRootNotReady(g: Project, h: Project, rid: Id, d: set<Id>, root: Id)
    requires WellTyped(g) && SameShape(g, h) && rid in g.nodes
    requires root in Roots(g, rid) && root in d && Stuck(h, d)
    ensures ReleaseStateOf(h, rid) != Ready
  {
    ShapeDecides(g, h);
    if root in Outs(g, rid, Includes) {
      assert EdgeTyped(g, Edge(rid, root, Includes));
      assert root in Outs(h, rid, Includes) && !IsComplete(h, root);
    } else {
      assert Edge(rid, root, RequiresGate) in g.edges && EdgeTyped(g, Edge(rid, root, RequiresGate));
      assert root in Outs(h, rid, RequiresGate) && GateStateOf(h, root) != Satisfied;
    }
  }

  // ---- from a bad plan to a stuck set ---------------------------------------------------------

  lemma HeldIsOpen(g: Project, up: Id, y: Id)
    requires WellTyped(g) && up in g.nodes && HeldOn(g, up, y)
    ensures y in g.nodes && OpenStep(g, y)
  {
    if y !in MilestoneWork(g, up) || IsComplete(g, y) {
      assert EdgeTyped(g, Edge(up, y, GatedBy));
    }
  }

  /** What a step waits on is open, unless the step is a gate that waits on something other than work. */
  lemma PrereqOpen(g: Project, x: Id, y: Id)
    requires WellTyped(g) && x in g.nodes && y in g.nodes && WaitsOn(g, x, y) && RequiresWork(g, x)
    ensures OpenStep(g, y)
  {
    if g.nodes[x].kind != ReleaseGate {
      if y in Outs(g, x, After) && !IsComplete(g, y) {
        assert EdgeTyped(g, Edge(x, y, After));
      } else {
        var up :| up in Upstream(g, x) && HeldOn(g, up, y);
        HeldIsOpen(g, up, y);
      }
    }
  }

  lemma RootOpen(g: Project, rid: Id, root: Id)
    requires WellTyped(g) && rid in g.nodes && root in Roots(g, rid)
    ensures OpenStep(g, root)
  {
    if root in Outs(g, rid, Includes) && !IsComplete(g, root) {
      assert EdgeTyped(g, Edge(rid, root, Includes));
    } else {
      assert EdgeTyped(g, Edge(rid, root, RequiresGate));
    }
  }

  /** Every step of a plan whose gates wait on work only is open. */
  lemma StepOpen(g: Project, rid: Id, x: Id)
    requires WellTyped(g) && rid in g.nodes && x in Steps(g, rid)
    requires forall z | z in Steps(g, rid) :: RequiresWork(g, z)
    ensures OpenStep(g, x)
  {
    var r := PlanRel(g);
    var root :| root in Roots(g, rid) && Reaches(r, root, x);
    var w :| WalkBetween(r, w, root, x);
    if |w| == 1 {
      RootOpen(g, rid, x);
    } else {
      var z := w[|w|-2];
      assert x == w[|w|-2+1] && x in Succ(r, z);
      assert WalkBetween(r, w[..|w|-1], root, z);
      assert z in Steps(g, rid);
      PrereqIff(g, z, x);
      PrereqOpen(g, z, x);
    }
  }

  /** The open steps that lead to `c`, where `c` cannot be completed or lies on a cycle, are stuck. */
  lemma LeadingToIsStuck(g: Project, c: Id) returns (d: set<Id>)
    requires WellTyped(g) && c in g.nodes
    requires !Completable(g, c) || ReachesPlus(PlanRel(g), c, c)
    ensures Stuck(g, d)
    ensures forall x | x in g.nodes && OpenStep(g, x) && Reaches(PlanRel(g), x, c) :: x in d
  {
    var r := PlanRel(g);
    d := set x | x in g.nodes && OpenStep(g, x) && Reaches(r, x, c);
    forall x | x in d ensures !Completable(g, x) || Prereqs(g, x) * d != {} {
      if Completable(g, x) {
        assert ReachesPlus(r, x, c) by {
          var w :| WalkBetween(r, w, x, c);
          assert x != c ==> |w| >= 2;
        }
        var y := ReachesPlusFirst(r, x, c);
        PlanRelAt(g, x);
        PrereqIff(g, x, y);
        PrereqOpen(g, x, y);
        assert y in Prereqs(g, x) * d;
      }
    }
  }

  /** The plan can be worked off: no cycle, and no step that can never be completed. */
  ghost predicate Workable(g: Project, rid: Id)
    requires rid in g.nodes
  {
    Acyclic(Plan(g, rid)) && forall x | x in Steps(g, rid) :: Completable(g, x)
  }

  /** A plan that cannot be worked off has a stuck set with one of the release's own items or gates in it. */
  lemma UnworkableIsStuck(g: Project, rid: Id) returns (d: set<Id>, root: Id)
    requires WellTyped(g) && rid in g.nodes && !Workable(g, rid)
    ensures Stuck(g, d) && root in d && root in Roots(g, rid)
  {
    var r := PlanRel(g);
    var c: Id;
    if x :| x in Steps(g, rid) && !Completable(g, x) {
      c := x;
    } else {
      var w :| ClosedWalk(Plan(g, rid), w);
      c := w[0];
      assert w[0+1] in Succ(Plan(g, rid), w[0]);
      forall i | 0 <= i < |w| - 1 ensures w[i+1] in Succ(r, w[i]) {
        assert w[i+1] in Succ(Plan(g, rid), w[i]);
        PlanRelAt(g, w[i]);
      }
      assert WalkBetween(r, w, c, c);
    }
    d := LeadingToIsStuck(g, c);
    root :| root in Roots(g, rid) && Reaches(r, root, c);
    RootOpen(g, rid, root);
  }
}
