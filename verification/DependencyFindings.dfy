/** The structural and cycle check over executable prerequisites (tools/graph.py:171-216). */
module DependencyFindings {
  import opened Ids
  import opened Text
  import opened Digraph
  import opened CycleSearch
  import opened ProjectGraph

  datatype Finding =
    | Dangling(edge: Edge)
    | Mistyped(edge: Edge)
    | Cycle(path: seq<Id>)

  // ---- the combined relation, stated without the adjacency ------------------------

  /** Membership edges into milestones come from known nodes (the source looks those nodes up unguarded). */
  predicate MilestonesKnown(g: Graph)
  {
    forall m | m in g.nodes && g.nodes[m].kind == Milestone :: MembersKnown(g, m)
  }

  /** An explicit prerequisite edge between known nodes. */
  predicate Direct(g: Graph, edges: seq<Edge>, a: Id, b: Id)
  {
    a in g.nodes && b in g.nodes && (Edge(a, b, After) in edges || Edge(a, b, DependsOn) in edges)
  }

  /** The prerequisites milestone `m` adds: its work, and for that work everything `m` depends on. */
  predicate Rolled(g: Graph, m: Id, a: Id, b: Id)
    requires MembersKnown(g, m)
  {
    || (a == m && b in MilestoneWork(g, m))
    || (a in MilestoneWork(g, m) && Edge(m, b, DependsOn) in g.edges)
  }

  predicate IsMilestone(g: Graph, m: Id)
  {
    m in g.nodes && g.nodes[m].kind == Milestone
  }

  ghost predicate Depends(g: Graph, a: Id, b: Id)
    requires MilestonesKnown(g)
  {
    Direct(g, g.edges, a, b) || exists m :: IsMilestone(g, m) && Rolled(g, m, a, b)
  }

  /** Every id an edge or a node names. */
  ghost function Named(g: Graph): set<Id>
  {
    g.nodes.Keys + set e | e in g.edges :: e.dst
  }

  ghost function Combined(g: Graph): (r: Rel)
    requires MilestonesKnown(g)
    ensures forall a, b :: b in Succ(r, a) <==> Depends(g, a, b)
  {
    var r := map a | a in g.nodes :: set b | b in Named(g) && Depends(g, a, b);
    assert forall a, b | Depends(g, a, b) :: a in g.nodes && b in Named(g) by {
      forall a, b | Depends(g, a, b) ensures a in g.nodes && b in Named(g) { DependsNamed(g, a, b); }
    }
    r
  }

  /** `x` is a work item that belongs to milestone `m`. */
  predicate WorkOf(g: Graph, m: Id, x: Id)
  {
    && m in g.nodes && g.nodes[m].kind == Milestone && x in g.nodes && g.nodes[x].kind in {MilestoneTask, ImpTask, DossierTask}
    && (Edge(x, m, PartOf) in g.edges || Edge(x, m, ScheduledIn) in g.edges)
  }

  /** The combined relation over the edges: explicit prerequisites between known nodes, well typed or not; a milestone on
      its work; and the work on everything its milestone depends on. */
  lemma CombinedByEdges(g: Graph, a: Id, b: Id)
    requires MilestonesKnown(g)
    ensures b in Succ(Combined(g), a) <==>
      || (a in g.nodes && b in g.nodes && (Edge(a, b, After) in g.edges || Edge(a, b, DependsOn) in g.edges))
      || WorkOf(g, a, b)
      || exists m :: WorkOf(g, m, a) && Edge(m, b, DependsOn) in g.edges
  {
    assert b in Succ(Combined(g), a) <==> Depends(g, a, b);
    if m :| IsMilestone(g, m) && Rolled(g, m, a, b) {
      if !(a == m && b in MilestoneWork(g, m)) { assert WorkOf(g, m, a) && Edge(m, b, DependsOn) in g.edges; }
    }
    if WorkOf(g, a, b) { assert IsMilestone(g, a) && Rolled(g, a, a, b); }
    if m :| WorkOf(g, m, a) && Edge(m, b, DependsOn) in g.edges { assert IsMilestone(g, m) && Rolled(g, m, a, b); }
  }

  // ---- structural findings ----------------------------------------------------------

  function EdgeFinding(g: Graph, e: Edge): Option<Finding>
  {
    if e.src !in g.nodes || e.dst !in g.nodes then Some(Dangling(e))
    else if !EdgeTyped(g, e) then Some(Mistyped(e))
    else None
  }

  function EdgeFindings(g: Graph, edges: seq<Edge>): (r: seq<Finding>)
    ensures forall f | f in r :: !f.Cycle?
    ensures r == [] <==> forall e | e in edges :: EdgeFinding(g, e).None?
  {
    if edges == [] then [] else
    var n := |edges| - 1;
    var r := EdgeFindings(g, edges[..n]);
    assert edges == edges[..n] + [edges[n]];
    var f := EdgeFinding(g, edges[n]);
    if f.Some? then r + [f.value] else r
  }

  /** The kinds of nodes an edge joins are not the ones its kind calls for. */
  predicate JoinsWrong(g: Graph, e: Edge)
    requires e.src in g.nodes && e.dst in g.nodes
  {
    var s, d := g.nodes[e.src].kind, g.nodes[e.dst].kind;
    || (e.kind == After && (s !in {MilestoneTask, ImpTask, DossierTask} || d !in {MilestoneTask, ImpTask, DossierTask}))
    || (e.kind == DependsOn && (s != Milestone || d != Milestone))
    || (e.kind == Includes && (s != Release || d !in {MilestoneTask, ImpTask}))
    || (e.kind == RequiresGate && (s != Release || d != ReleaseGate))
    || (e.kind == GatedBy && (s != Milestone || d != ReleaseGate))
  }

  lemma TypedIff(g: Graph, e: Edge)
    requires e.src in g.nodes && e.dst in g.nodes
    ensures EdgeTyped(g, e) <==> !JoinsWrong(g, e)
  {
  }

  lemma {:induction false} ReportedIff(g: Graph, edges: seq<Edge>, e: Edge, f: Finding)
    requires f == Dangling(e) || f == Mistyped(e)
    ensures f in EdgeFindings(g, edges) <==> e in edges && EdgeFinding(g, e) == Some(f)
  {
    if edges != [] {
      var n := |edges| - 1;
      ReportedIff(g, edges[..n], e, f);
      assert edges == edges[..n] + [edges[n]];
    }
  }

  /** Exactly the edges with an unknown end are reported dangling, and exactly the others that join the wrong kinds are
      reported mistyped; each prefix of the edges has a prefix of the findings. */
  lemma FindingsExact(g: Graph, e: Edge, k: nat)
    requires k <= |g.edges|
    ensures Dangling(e) in EdgeFindings(g, g.edges) <==> e in g.edges && (e.src !in g.nodes || e.dst !in g.nodes)
    ensures Mistyped(e) in EdgeFindings(g, g.edges) <==>
      e in g.edges && e.src in g.nodes && e.dst in g.nodes && JoinsWrong(g, e)
    ensures EdgeFindings(g, g.edges[..k]) <= EdgeFindings(g, g.edges)
  {
    FindingsGrow(g, g.edges, k);
    ReportedIff(g, g.edges, e, Dangling(e));
    ReportedIff(g, g.edges, e, Mistyped(e));
    if e.src in g.nodes && e.dst in g.nodes { TypedIff(g, e); }
  }

  lemma {:induction false} FindingsGrow(g: Graph, edges: seq<Edge>, k: nat)
    requires k <= |edges|
    ensures EdgeFindings(g, edges[..k]) <= EdgeFindings(g, edges)
  {
    if k < |edges| {
      FindingsGrow(g, edges[..|edges|-1], k);
      assert edges[..|edges|-1][..k] == edges[..k];
    } else {
      assert edges[..k] == edges;
    }
  }

  // ---- building the adjacency ---------------------------------------------------------

  function AddEdge(r: Rel, a: Id, b: Id): (s: Rel)
    ensures forall x, y :: y in Succ(s, x) <==> y in Succ(r, x) || (x == a && y == b)
  {
    r[a := Succ(r, a) + {b}]
  }

  function AddEdges(r: Rel, a: Id, bs: set<Id>): (s: Rel)
    ensures forall x, y :: y in Succ(s, x) <==> y in Succ(r, x) || (x == a && y in bs)
  {
    r[a := Succ(r, a) + bs]
  }

  /** `adj` holds the explicit prerequisites among `edges`. */
  ghost predicate DirectBy(g: Graph, edges: seq<Edge>, adj: Rel)
  {
    forall a, b :: b in Succ(adj, a) <==> Direct(g, edges, a, b)
  }

  /** One turn of the scan. */
  function Scanned(g: Graph, adj: Rel, e: Edge): Rel
  {
    if e.src in g.nodes && e.dst in g.nodes && (e.kind == After || e.kind == DependsOn) then AddEdge(adj, e.src, e.dst)
    else adj
  }

  lemma ScanOne(g: Graph, edges: seq<Edge>, adj: Rel, e: Edge)
    requires DirectBy(g, edges, adj)
    ensures DirectBy(g, edges + [e], Scanned(g, adj, e))
  {
    var now := Scanned(g, adj, e);
    forall a, b ensures b in Succ(now, a) <==> Direct(g, edges + [e], a, b) {
      assert b in Succ(adj, a) <==> Direct(g, edges, a, b);
    }
  }

  lemma FindingsSnoc(g: Graph, edges: seq<Edge>, e: Edge)
    ensures EdgeFindings(g, edges + [e]) ==
      EdgeFindings(g, edges) + (match EdgeFinding(g, e) case None => [] case Some(f) => [f])
  {
    assert (edges + [e])[..|edges|] == edges;
  }

  method ScanEdges(g: Graph) returns (adj: Rel, errors: seq<Finding>)
    ensures errors == EdgeFindings(g, g.edges)
    ensures DirectBy(g, g.edges, adj)
  {
    adj, errors := map[], [];
    for i := 0 to |g.edges|
      invariant errors == EdgeFindings(g, g.edges[..i])
      invariant DirectBy(g, g.edges[..i], adj)
    {
      var e := g.edges[i];
      assert g.edges[..i+1] == g.edges[..i] + [e];
      ScanOne(g, g.edges[..i], adj, e);
      FindingsSnoc(g, g.edges[..i], e);
      if e.src !in g.nodes || e.dst !in g.nodes {
        errors := errors + [Dangling(e)];
      } else {
        if !EdgeTyped(g, e) { errors := errors + [Mistyped(e)]; }
        if e.kind == After || e.kind == DependsOn { adj := AddEdge(adj, e.src, e.dst); }
      }
    }
    assert g.edges[..|g.edges|] == g.edges;
  }

  /** `adj` is `adj0` with `work` below `m` and everything `m` depends on below `work`. */
  ghost predicate RolledBy(adj0: Rel, adj: Rel, m: Id, work: seq<Id>, ups: seq<Id>)
  {
    forall a, b :: b in Succ(adj, a) <==> b in Succ(adj0, a) || (a == m && b in work) || (a in work && b in ups)
  }

  lemma RollOne(adj0: Rel, adj: Rel, m: Id, work: seq<Id>, t: Id, ups: seq<Id>)
    requires RolledBy(adj0, adj, m, work, ups)
    ensures RolledBy(adj0, AddEdges(AddEdge(adj, m, t), t, set u | u in ups), m, work + [t], ups)
  {
  }

  method RollUp(g: Graph, m: Id, adj0: Rel) returns (adj: Rel)
    requires MembersKnown(g, m)
    ensures forall a, b :: b in Succ(adj, a) <==> b in Succ(adj0, a) || Rolled(g, m, a, b)
  {
    adj := adj0;
    var work := MilestoneWork(g, m);
    var ups := Outs(g, m, DependsOn);
    for i := 0 to |work|
      invariant RolledBy(adj0, adj, m, work[..i], ups)
    {
      var t := work[i];
      RollOne(adj0, adj, m, work[..i], t, ups);
      adj := AddEdge(adj, m, t);
      adj := AddEdges(adj, t, set u | u in ups);
      assert work[..i+1] == work[..i] + [t];
    }
    assert work[..|work|] == work;
    forall a, b ensures b in Succ(adj, a) <==> b in Succ(adj0, a) || Rolled(g, m, a, b) {
      assert b in ups <==> Edge(m, b, DependsOn) in g.edges;
    }
  }

  method BuildAdjacency(g: Graph) returns (adj: Rel, errors: seq<Finding>)
    requires MilestonesKnown(g)
    ensures errors == EdgeFindings(g, g.edges)
    ensures forall a, b :: b in Succ(adj, a) <==> Depends(g, a, b)
  {
    adj, errors := ScanEdges(g);
    var todo := set m | m in g.nodes && g.nodes[m].kind == Milestone;
    while todo != {}
      invariant forall m | m in todo :: IsMilestone(g, m)
      invariant forall a, b :: b in Succ(adj, a) <==>
        || Direct(g, g.edges, a, b)
        || exists m :: IsMilestone(g, m) && m !in todo && Rolled(g, m, a, b)
      decreases |todo|
    {
      var m :| m in todo;
      adj := RollUp(g, m, adj);
      todo := todo - {m};
    }
  }

  // ---- the check --------------------------------------------------------------------------

  function Reported(cycles: seq<seq<Id>>): (r: seq<Finding>)
    ensures |r| == |cycles| && forall i | 0 <= i < |r| :: r[i] == Cycle(cycles[i])
  {
    seq(|cycles|, i requires 0 <= i < |cycles| => Cycle(cycles[i]))
  }

  /** The whole check: structural findings in edge order, then the cycles. */
  method Findings(g: Graph) returns (errors: seq<Finding>, cycles: seq<seq<Id>>)
    requires MilestonesKnown(g)
    ensures errors == EdgeFindings(g, g.edges) + Reported(cycles)
    // every reported path leads into a cycle and once around it, from the least node that reaches it
    ensures ReportsRooted(Combined(g), cycles)
    // a cycle is reported exactly when there is one, and every cycle is met by a report
    ensures cycles == [] <==> Acyclic(Combined(g))
    ensures EveryCycleReported(Combined(g), cycles)
    // the reported paths come in lexicographic order, none twice
    ensures Lexical(cycles)
    // the reported paths are closed walks exactly when every cycle goes through the least node that reaches it
    ensures (forall i | 0 <= i < |cycles| :: ClosedWalk(Combined(g), cycles[i])) <==> CyclesThroughLeast(Combined(g))
    // the first report starts at the least node that leads into a cycle
    ensures cycles != [] ==> Lasso(Combined(g), cycles[0]) && LeastLeading(Combined(g), cycles[0][0])
    ensures errors == [] <==> Clean(g)
  {
    var adj, structural := BuildAdjacency(g);
    ghost var r := Combined(g);
    forall x ensures Succ(adj, x) == Succ(r, x) && Succ(r, x) <= Named(g) && (Succ(r, x) != {} ==> x in g.nodes) {
      assert forall b :: b in Succ(adj, x) <==> b in Succ(r, x);
      CombinedNamed(g, x);
    }
    cycles := SearchAll(g.nodes.Keys, adj, r, Named(g));
    errors := structural + Reported(cycles);
    NoReportIff(r, cycles);
    ReportsClosedIff(r, cycles);
    if cycles != [] { FirstIsLeast(r, cycles); }
  }

  /** Task `a` comes after `b`, and `b` after itself: the search starts at `a` and reports `a`, `b`, `b`. */
  lemma LeadInExample(g: Graph, cycles: seq<seq<Id>>, a: Id, b: Id)
    requires a != b && Le(a, b) && g.nodes.Keys == {a, b}
    requires g.nodes[a].kind == DossierTask && g.nodes[b].kind == DossierTask
    requires g.edges == [Edge(a, b, After), Edge(b, b, After)]
    requires MilestonesKnown(g) && cycles != []
    requires Lasso(Combined(g), cycles[0]) && LeastLeading(Combined(g), cycles[0][0])
    ensures cycles[0][0] == a && !ClosedWalk(Combined(g), cycles[0])
  {
    var r := Combined(g);
    forall x, y | y in Succ(r, x) ensures y == b && (x == a || x == b) {
      assert Depends(g, x, y);
      if Direct(g, g.edges, x, y) {
        assert Edge(x, y, After) in g.edges || Edge(x, y, DependsOn) in g.edges;
      }
    }
    assert Edge(a, b, After) == g.edges[0] && Edge(b, b, After) == g.edges[1];
    assert Direct(g, g.edges, a, b) && Direct(g, g.edges, b, b);
    assert b in Succ(r, a) && b in Succ(r, b);
    ReachesRefl(r, b);
    ReachesStep(r, b, b, b);
    ReachesStep(r, a, b, b);
    assert OnCycle(r, b) && LeadsToCycle(r, a);
    var p := cycles[0];
    assert p[0+1] in Succ(r, p[0]);
    if p[0] != a {
      assert p[0] == b;
      LeAntisymmetric(a, b);
    }
    assert p[|p|-2+1] in Succ(r, p[|p|-2]);
  }

  /** No dangling or mistyped edge and no prerequisite cycle. */
  ghost predicate Clean(g: Graph)
    requires MilestonesKnown(g)
  {
    (forall e | e in g.edges :: EdgeFinding(g, e).None?) && Acyclic(Combined(g))
  }

  lemma CombinedNamed(g: Graph, x: Id)
    requires MilestonesKnown(g)
    ensures Succ(Combined(g), x) <= Named(g)
    ensures Succ(Combined(g), x) != {} ==> x in g.nodes
  {
    forall y | y in Succ(Combined(g), x) ensures x in g.nodes && y in Named(g) {
      DependsNamed(g, x, y);
    }
  }

  lemma DependsNamed(g: Graph, a: Id, b: Id)
    requires MilestonesKnown(g) && Depends(g, a, b)
    ensures a in g.nodes && b in Named(g)
  {
    if !Direct(g, g.edges, a, b) {
      var m :| IsMilestone(g, m) && Rolled(g, m, a, b);
      if Edge(m, b, DependsOn) in g.edges { assert Edge(m, b, DependsOn).dst in Named(g); }
    }
  }
}
