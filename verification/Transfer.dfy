/** From the checked relation of `dependency_findings` to the planned one of `goal_plan`
    (tools/graph.py:171-216, 431-451; tools/build_graph.py:632-637). */
module Transfer {
  import opened Ids
  import opened Text
  import opened Digraph
  import opened ProjectGraph
  import opened DependencyFindings
  import opened GoalPlan

  // ---- the envelope: what a step may ever wait on ---------------------------------------------

  ghost predicate UpstreamPart(g: Project, up: Id, y: Id)
    requires up in g.nodes
  {
    y in MilestoneWork(g, up) || y in Outs(g, up, GatedBy)
  }

  ghost predicate MayWait(g: Project, x: Id, y: Id)
    requires x in g.nodes
  {
    if g.nodes[x].kind == ReleaseGate then y in Outs(g, x, RequiresTask)
    else y in Outs(g, x, After) || exists up :: up in Upstream(g, x) && UpstreamPart(g, up, y)
  }

  ghost function Envelope(g: Project): (r: Rel)
    ensures forall x, y :: y in Succ(r, x) <==> x in g.nodes && y in g.nodes && MayWait(g, x, y)
  {
    map x | x in g.nodes :: set y | y in g.nodes && MayWait(g, x, y)
  }

  lemma WaitsWithinEnvelope(g: Project, h: Project, x: Id, y: Id)
    requires SameShape(g, h) && x in g.nodes && WaitsOn(h, x, y)
    ensures MayWait(g, x, y)
  {
    ShapeDecides(g, h);
    if g.nodes[x].kind == ReleaseGate {
      assert y in Outs(g, x, RequiresTask);
    } else if y in Outs(h, x, After) {
      assert y in Outs(g, x, After);
    } else {
      var up :| up in Upstream(h, x) && HeldOn(h, up, y);
      assert up in Upstream(g, x);
      assert MilestoneWork(g, up) == MilestoneWork(h, up) && Outs(g, up, GatedBy) == Outs(h, up, GatedBy);
      assert UpstreamPart(g, up, y);
    }
  }

  /** The same graph with nothing started and nothing attested. */
  ghost function Reset(g: Project): (h: Project)
    ensures SameShape(g, h)
    ensures forall n :: !IsComplete(h, n)
  {
    var h := g.(nodes := map n | n in g.nodes :: g.nodes[n].(status := NotStarted, evidence := []));
    assert WellFormed(h) by {
      forall n | n in h.nodes && h.nodes[n].kind == MilestoneTask ensures Outs(h, n, PartOf) != [] {
        assert Outs(h, n, PartOf) == Outs(g, n, PartOf);
      }
    }
    h
  }

  /** In the reset graph a step waits on everything it may ever wait on. */
  lemma ResetWaits(g: Project, x: Id, y: Id)
    requires x in g.nodes && MayWait(g, x, y)
    ensures WaitsOn(Reset(g), x, y)
  {
    var h := Reset(g);
    ShapeDecides(g, h);
    if g.nodes[x].kind == ReleaseGate {
      assert y in Outs(h, x, RequiresTask);
    } else if y in Outs(g, x, After) {
      assert y in Outs(h, x, After);
    } else {
      var up :| up in Upstream(g, x) && UpstreamPart(g, up, y);
      assert up in Upstream(h, x);
      assert MilestoneWork(g, up) == MilestoneWork(h, up) && Outs(g, up, GatedBy) == Outs(h, up, GatedBy);
      ResetGate(g, up, y);
    }
  }

  lemma ResetGate(g: Project, up: Id, y: Id)
    requires up in g.nodes && UpstreamPart(g, up, y)
    ensures HeldOn(Reset(g), up, y)
  {
    var h := Reset(g);
    ShapeDecides(g, h);
    if y in Outs(g, up, GatedBy) {
      assert y in Outs(h, up, GatedBy) && h.nodes[y].evidence == [];
    }
  }

  /** The plan has no cycle in any state exactly when the envelope has none. */
  lemma EnvelopeIff(g: Project)
    ensures Acyclic(Envelope(g)) <==> forall h: Project | SameShape(g, h) :: Acyclic(PlanRel(h))
  {
    if Acyclic(Envelope(g)) {
      forall h: Project | SameShape(g, h) ensures Acyclic(PlanRel(h)) {
        forall x, y | y in Succ(PlanRel(h), x) ensures y in Succ(Envelope(g), x) {
          PrereqIff(h, x, y);
          WaitsWithinEnvelope(g, h, x, y);
        }
        SubAcyclic(PlanRel(h), Envelope(g));
      }
    }
    if forall h: Project | SameShape(g, h) :: Acyclic(PlanRel(h)) {
      var h := Reset(g);
      assert Acyclic(PlanRel(h));
      forall x, y | y in Succ(Envelope(g), x) ensures y in Succ(PlanRel(h), x) {
        ResetWaits(g, x, y);
        PrereqIff(h, x, y);
      }
      SubAcyclic(Envelope(g), PlanRel(h));
    }
  }

  // ---- the transfer -------------------------------------------------------------------------------

  /** No milestone is both gated and depended on, as the builder makes it: only the last one is gated. */
  ghost predicate GatedIsLast(g: Project)
  {
    forall e, f | e in g.edges && f in g.edges && e.kind == GatedBy && f.kind == DependsOn :: e.src != f.dst
  }

  /** Gates require work items. */
  ghost predicate TasksTyped(g: Project)
  {
    forall e | e in g.edges && e.kind == RequiresTask :: IsWork(g.nodes[e.dst].kind)
  }

  lemma ProjectMilestonesKnown(g: Project)
    ensures MilestonesKnown(g)
  {
  }

  /** Work of an upstream milestone lies two checked edges ahead. */
  lemma UpstreamAhead(g: Project, x: Id, up: Id, y: Id)
    requires MilestonesKnown(g) && WellTyped(g) && x in g.nodes
    requires up in Upstream(g, x) && y in MilestoneWork(g, up)
    ensures Depends(g, x, up) && Depends(g, up, y)
  {
    var m := MilestoneOf(g, x).value;
    assert EdgeTyped(g, Edge(m, up, DependsOn));
    assert IsMilestone(g, m) && IsMilestone(g, up);
    assert Rolled(g, up, up, y);
    if m == x {
      assert Direct(g, g.edges, x, up);
    } else {
      assert x in MilestoneWork(g, m) && Rolled(g, m, x, up);
    }
  }

  /** Ranks of the checked relation, with every gate above them, rank the envelope. */
  lemma EnvelopeRanked(g: Project, rank: map<Id, nat>, x: Id, y: Id)
    requires MilestonesKnown(g) && WellTyped(g) && GatedIsLast(g) && TasksTyped(g)
    requires rank.Keys == g.nodes.Keys
    requires forall a, b | a in rank && b in rank && Depends(g, a, b) :: rank[b] < rank[a]
    requires x in g.nodes && y in g.nodes && MayWait(g, x, y)
    ensures g.nodes[y].kind != ReleaseGate
    ensures g.nodes[x].kind != ReleaseGate ==> rank[y] < rank[x]
  {
    if g.nodes[x].kind == ReleaseGate {
      assert Edge(x, y, RequiresTask) in g.edges;
    } else if y in Outs(g, x, After) {
      assert EdgeTyped(g, Edge(x, y, After));
      assert Direct(g, g.edges, x, y) && Depends(g, x, y);
    } else {
      var up :| up in Upstream(g, x) && UpstreamPart(g, up, y);
      var e := Edge(MilestoneOf(g, x).value, up, DependsOn);
      assert e in g.edges;
      if y !in Outs(g, up, GatedBy) {
        UpstreamAhead(g, x, up, y);
      } else if Edge(up, y, GatedBy).src != e.dst {
        assert false;
      }
    }
  }

  lemma EnvelopeAcyclic(g: Project, rank: map<Id, nat>)
    requires MilestonesKnown(g) && WellTyped(g) && GatedIsLast(g) && TasksTyped(g)
    requires rank.Keys == g.nodes.Keys && forall x | x in rank :: rank[x] < |g.nodes.Keys|
    requires forall a, b | a in rank && b in rank && Depends(g, a, b) :: rank[b] < rank[a]
    ensures Acyclic(Envelope(g))
  {
    var top := |g.nodes.Keys|;
    var lifted: map<Id, nat> := map x | x in g.nodes :: if g.nodes[x].kind == ReleaseGate then top else rank[x];
    forall x, y | y in Succ(Envelope(g), x) ensures x in lifted && y in lifted && lifted[y] < lifted[x] {
      EnvelopeRanked(g, rank, x, y);
    }
    RankedIsAcyclic(Envelope(g), lifted);
  }

  lemma CleanIsTyped(g: Project)
    requires MilestonesKnown(g) && Clean(g)
    ensures WellTyped(g)
  {
    forall e | e in g.edges ensures EdgeTyped(g, e) { assert EdgeFinding(g, e).None?; }
  }

  /** With no findings and no milestone both gated and depended on, the plan has no cycle in any state. */
  lemma CleanTransfers(g: Project)
    requires MilestonesKnown(g) && Clean(g) && GatedIsLast(g) && TasksTyped(g)
    ensures forall h: Project | SameShape(g, h) :: Acyclic(PlanRel(h))
  {
    CleanIsTyped(g);
    var rank := RankExists(Combined(g), g.nodes.Keys);
    forall a, b | a in rank && b in rank && Depends(g, a, b) ensures rank[b] < rank[a] {
      assert b in Succ(Combined(g), a);
    }
    EnvelopeAcyclic(g, rank);
    EnvelopeIff(g);
  }

  // ---- why the gate condition is needed ----------------------------------------------------------------

  /** A gate on a milestone that requires a task below that milestone: task and gate wait on each other. */
  lemma GateKnotCycles(g: Project, t: Id, up: Id, gate: Id)
    requires t in g.nodes && g.nodes[t].kind != ReleaseGate && !IsComplete(g, t)
    requires up in Upstream(g, t) && gate in Outs(g, up, GatedBy)
    requires g.nodes[gate].kind == ReleaseGate && t in Outs(g, gate, RequiresTask)
    ensures !Acyclic(PlanRel(g))
  {
    assert HeldOn(g, up, gate);
    PrereqIff(g, t, gate);
    PrereqIff(g, gate, t);
    MutualIsCyclic(PlanRel(g), t, gate);
  }

  function Started(k: Kind): Node
  {
    Node(k, NotStarted, [], None, 0)
  }

  /** Milestone `n`, with task `t`, depends on milestone `m`, with task `s`; `m` is gated by `k`, and `k` requires `t`. */
  function Knot(m: Id, n: Id, s: Id, t: Id, k: Id): Graph
  {
    Graph(
      map[m := Started(Milestone), n := Started(Milestone),
          s := Started(MilestoneTask), t := Started(MilestoneTask), k := Started(ReleaseGate)],
      [Edge(n, m, DependsOn), Edge(t, n, PartOf), Edge(m, k, GatedBy), Edge(k, t, RequiresTask), Edge(s, m, PartOf)])
  }

  predicate FiveIds(m: Id, n: Id, s: Id, t: Id, k: Id)
  {
    m != n && m != s && m != t && m != k && n != s && n != t && n != k && s != t && s != k && t != k
  }

  lemma KnotWellFormed(m: Id, n: Id, s: Id, t: Id, k: Id)
    requires FiveIds(m, n, s, t, k)
    ensures WellFormed(Knot(m, n, s, t, k))
  {
    var g := Knot(m, n, s, t, k);
    assert g.edges[1] == Edge(t, n, PartOf) && n in Outs(g, t, PartOf);
    assert g.edges[4] == Edge(s, m, PartOf) && m in Outs(g, s, PartOf);
  }

  /** What the proofs use of the knot: its prerequisite and membership edges, and that all edges are typed. */
  ghost predicate KnotEdges(g: Project, m: Id, n: Id, s: Id, t: Id)
  {
    && (forall a, b :: Edge(a, b, After) !in g.edges && Edge(a, b, ScheduledIn) !in g.edges)
    && (forall a, b :: Edge(a, b, DependsOn) in g.edges <==> a == n && b == m)
    && (forall a, b :: Edge(a, b, PartOf) in g.edges <==> (a == t && b == n) || (a == s && b == m))
  }

  lemma KnotEdge(m: Id, n: Id, s: Id, t: Id, k: Id, e: Edge)
    ensures e in Knot(m, n, s, t, k).edges <==>
      e in {Edge(n, m, DependsOn), Edge(t, n, PartOf), Edge(m, k, GatedBy), Edge(k, t, RequiresTask), Edge(s, m, PartOf)}
  {
    var es := Knot(m, n, s, t, k).edges;
    assert es[0] in es && es[1] in es && es[2] in es && es[3] in es && es[4] in es;
  }

  lemma KnotHasEdges(m: Id, n: Id, s: Id, t: Id, k: Id)
    requires WellFormed(Knot(m, n, s, t, k))
    ensures KnotEdges(Knot(m, n, s, t, k), m, n, s, t)
  {
    forall a, b ensures Edge(a, b, After) !in Knot(m, n, s, t, k).edges { KnotEdge(m, n, s, t, k, Edge(a, b, After)); }
    forall a, b ensures Edge(a, b, ScheduledIn) !in Knot(m, n, s, t, k).edges { KnotEdge(m, n, s, t, k, Edge(a, b, ScheduledIn)); }
    forall a, b ensures Edge(a, b, DependsOn) in Knot(m, n, s, t, k).edges <==> a == n && b == m {
      KnotEdge(m, n, s, t, k, Edge(a, b, DependsOn));
    }
    forall a, b ensures Edge(a, b, PartOf) in Knot(m, n, s, t, k).edges <==> (a == t && b == n) || (a == s && b == m) {
      KnotEdge(m, n, s, t, k, Edge(a, b, PartOf));
    }
  }

  lemma KnotTyped(m: Id, n: Id, s: Id, t: Id, k: Id, e: Edge)
    requires FiveIds(m, n, s, t, k) && e in Knot(m, n, s, t, k).edges
    ensures EdgeFinding(Knot(m, n, s, t, k), e).None?
  {
    KnotEdge(m, n, s, t, k, e);
  }

  lemma KnotDepends(g: Project, m: Id, n: Id, s: Id, t: Id, a: Id, b: Id)
    requires MilestonesKnown(g) && KnotEdges(g, m, n, s, t) && m != n && Depends(g, a, b)
    ensures (a == n && b in {m, t}) || (a == m && b == s) || (a == t && b == m)
  {
    if !Direct(g, g.edges, a, b) {
      var u :| IsMilestone(g, u) && Rolled(g, u, a, b);
    }
  }

  lemma KnotAcyclic(g: Project, m: Id, n: Id, s: Id, t: Id, k: Id)
    requires MilestonesKnown(g) && KnotEdges(g, m, n, s, t) && FiveIds(m, n, s, t, k)
    ensures Acyclic(Combined(g))
  {
    var rank: map<Id, nat> := map[s := 0, m := 1, t := 2, n := 3];
    var r := Combined(g);
    forall a, b | b in Succ(r, a) ensures a in rank && b in rank && rank[b] < rank[a] {
      KnotDepends(g, m, n, s, t, a, b);
    }
    RankedIsAcyclic(r, rank);
  }

  /** `dependency_findings` follows no gate edge, so it reports nothing on the knot ... */
  lemma KnotClean(m: Id, n: Id, s: Id, t: Id, k: Id)
    requires FiveIds(m, n, s, t, k)
    ensures WellFormed(Knot(m, n, s, t, k)) && MilestonesKnown(Knot(m, n, s, t, k)) && Clean(Knot(m, n, s, t, k))
  {
    KnotWellFormed(m, n, s, t, k);
    KnotHasEdges(m, n, s, t, k);
    forall e | e in Knot(m, n, s, t, k).edges ensures EdgeFinding(Knot(m, n, s, t, k), e).None? {
      KnotTyped(m, n, s, t, k, e);
    }
    ProjectMilestonesKnown(Knot(m, n, s, t, k));
    KnotAcyclic(Knot(m, n, s, t, k), m, n, s, t, k);
  }

  /** ... and yet its plan has a cycle. */
  lemma KnotPlanCycles(m: Id, n: Id, s: Id, t: Id, k: Id)
    requires FiveIds(m, n, s, t, k)
    ensures WellFormed(Knot(m, n, s, t, k)) && !Acyclic(PlanRel(Knot(m, n, s, t, k)))
  {
    KnotWellFormed(m, n, s, t, k);
    var g: Project := Knot(m, n, s, t, k);
    var ms := Outs(g, t, PartOf);
    assert Edge(t, ms[0], PartOf) in g.edges by { assert ms[0] in ms; }
    assert MilestoneOf(g, t) == Some(n);
    assert g.edges[0] == Edge(n, m, DependsOn) && g.edges[2] == Edge(m, k, GatedBy) && g.edges[3] == Edge(k, t, RequiresTask);
    assert m in Upstream(g, t) && k in Outs(g, m, GatedBy) && t in Outs(g, k, RequiresTask);
    GateKnotCycles(g, t, m, k);
  }

  // ---- why gates must require work --------------------------------------------------------------------------

  /** A gate that requires itself. */
  function SelfGate(k: Id): Graph
  {
    Graph(map[k := Started(ReleaseGate)], [Edge(k, k, RequiresTask)])
  }

  /** The check reports nothing on it and it gates no milestone, and yet its plan has a cycle. */
  lemma SelfGateCycles(k: Id)
    ensures WellFormed(SelfGate(k)) && MilestonesKnown(SelfGate(k)) && Clean(SelfGate(k)) && GatedIsLast(SelfGate(k))
    ensures !Acyclic(PlanRel(SelfGate(k)))
  {
    SelfGateClean(k);
    SelfGateWaits(k);
    MutualIsCyclic(PlanRel(SelfGate(k)), k, k);
  }

  lemma SelfGateClean(k: Id)
    ensures WellFormed(SelfGate(k)) && MilestonesKnown(SelfGate(k)) && Clean(SelfGate(k)) && GatedIsLast(SelfGate(k))
  {
    var rank: map<Id, nat> := map[];
    RankedIsAcyclic(Combined(SelfGate(k)), rank);
  }

  lemma SelfGateWaits(k: Id)
    requires WellFormed(SelfGate(k))
    ensures k in Succ(PlanRel(SelfGate(k)), k)
  {
    var g: Project := SelfGate(k);
    assert g.edges[0] == Edge(k, k, RequiresTask) && k in Outs(g, k, RequiresTask);
    PrereqIff(g, k, k);
  }
}
