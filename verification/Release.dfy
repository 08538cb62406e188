/** The parts together: a graph that passes the dependency check is never deadlocked by any run of commands. */
module Release {
  import opened Ids
  import opened Digraph
  import opened ProjectGraph
  import opened Commands
  import opened DependencyFindings
  import opened GoalPlan
  import opened Attainability
  import opened Execution
  import opened Transfer

  /** Where an item can be moved, it still can after any command. */
  lemma MovableStays(ok: RefCheck, g: Project, c: Command, x: Id)
    requires x in g.nodes && Movable(g.nodes[x])
    ensures Movable(Next(ok, g, c).nodes[x])
  {
  }

  lemma SoundStep(ok: RefCheck, g: Project, c: Command)
    requires Sound(g)
    ensures Sound(Next(ok, g, c))
  {
    var h := Next(ok, g, c);
    ShapeDecides(g, h);
    NextFrozen(ok, g, c);
    forall e | e in h.edges && e.kind == DependsOn ensures MilestoneWork(h, e.dst) != [] {
      assert MilestoneWork(h, e.dst) == MilestoneWork(g, e.dst);
    }
    forall n | n in h.nodes && h.nodes[n].kind == ReleaseGate ensures Outs(h, n, RequiresTask) != [] {
      assert Outs(h, n, RequiresTask) == Outs(g, n, RequiresTask);
    }
    forall n | n in h.nodes ensures !IsProposed(h, n) {
      assert !IsProposed(g, n);
    }
    forall n | n in h.nodes && IsWork(h.nodes[n].kind) ensures Movable(h.nodes[n]) {
      MovableStays(ok, g, c, n);
    }
  }

  lemma {:induction false} SoundRun(ok: RefCheck, g: Project, cs: seq<Command>)
    requires Sound(g)
    ensures Sound(Run(ok, g, cs))
    decreases cs
  {
    if cs != [] {
      SoundStep(ok, g, cs[0]);
      SoundRun(ok, Next(ok, g, cs[0]), cs[1..]);
    }
  }

  /** Whatever commands were issued before, accepted or refused, forward or back, a release with an item can still be
      made READY by accepted commands: at most seven sets per open item and one attestation per unsatisfied gate. */
  lemma AlwaysRecoverable(ok: RefCheck, g: Project, past: seq<Command>, rid: Id, proof: string)
    returns (cs: seq<Command>)
    requires MilestonesKnown(g) && Clean(g) && GatedIsLast(g) && Sound(g)
    requires ok(proof) && rid in g.nodes && Outs(g, rid, Includes) != []
    ensures var h := Run(ok, g, past);
      && AllAccepted(ok, h, cs) && ReleaseStateOf(Run(ok, h, cs), rid) == Ready
      && SetCount(cs) <= 7 * |WorkSteps(h, rid)|
      && |cs| - SetCount(cs) <= |GateSteps(h, rid)|
  {
    var h := Run(ok, g, past);
    CleanIsTyped(g);
    TypedStays(g, h);
    SoundRun(ok, g, past);
    CleanTransfers(g);
    assert Acyclic(PlanRel(h));
    assert Outs(h, rid, Includes) == Outs(g, rid, Includes);
    cs := NoDeadlock(ok, h, rid, proof);
  }
}
