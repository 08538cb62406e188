/** The project graph and the states derived from it (`Index` in tools/graph.py). */
module ProjectGraph {
  import opened Ids
  import opened Text

  datatype Kind =
    | Milestone | MilestoneTask | ImpTask | DossierTask
    | ReleaseGate | Release | ChangeRecord | OtherKind

  /** The lifecycle, BLOCKED, and any other text a node may carry as its status. */
  datatype Status =
    | NotStarted | Auditing | Implementing | Wired | RealTesting | E2eProven | Complete
    | Blocked
    | Foreign(text: string)

  datatype EdgeKind =
    | After | DependsOn | PartOf | ScheduledIn | OwnedBy | Includes
    | RequiresGate | GatedBy | RequiresTask | AuthorizedBy | OtherEdge

  datatype Edge = Edge(src: Id, dst: Id, kind: EdgeKind)

  datatype Node = Node(kind: Kind, status: Status, evidence: seq<string>, blockedFrom: Option<Status>, order: int)

  datatype Graph = Graph(nodes: map<Id, Node>, edges: seq<Edge>)

  predicate IsWork(k: Kind)
  {
    k in {MilestoneTask, ImpTask, DossierTask}
  }

  predicate InLifecycle(s: Status)
  {
    !s.Blocked? && !s.Foreign?
  }

  const LIFECYCLE: seq<Status> := [NotStarted, Auditing, Implementing, Wired, RealTesting, E2eProven, Complete]

  /** The position of a state in LIFECYCLE. */
  function Level(s: Status): (k: nat)
    requires InLifecycle(s)
    ensures k <= 6 && LIFECYCLE[k] == s
  {
    match s
    case NotStarted => 0
    case Auditing => 1
    case Implementing => 2
    case Wired => 3
    case RealTesting => 4
    case E2eProven => 5
    case Complete => 6
  }

  // ---- edges --------------------------------------------------------------

  function Targets(edges: seq<Edge>, n: Id, k: EdgeKind): (r: seq<Id>)
    ensures forall d :: d in r <==> Edge(n, d, k) in edges
  {
    if edges == [] then
      []
    else
      var rest := Targets(edges[1..], n, k);
      assert edges == [edges[0]] + edges[1..];
      if edges[0].src == n && edges[0].kind == k then [edges[0].dst] + rest else rest
  }

  function Sources(edges: seq<Edge>, n: Id, k: EdgeKind): (r: seq<Id>)
    ensures forall s :: s in r <==> Edge(s, n, k) in edges
  {
    if edges == [] then
      []
    else
      var rest := Sources(edges[1..], n, k);
      assert edges == [edges[0]] + edges[1..];
      if edges[0].dst == n && edges[0].kind == k then [edges[0].src] + rest else rest
  }

  function Outs(g: Graph, n: Id, k: EdgeKind): (r: seq<Id>)
    ensures forall d :: d in r <==> Edge(n, d, k) in g.edges
  {
    Targets(g.edges, n, k)
  }

  function Ins(g: Graph, n: Id, k: EdgeKind): (r: seq<Id>)
    ensures forall s :: s in r <==> Edge(s, n, k) in g.edges
  {
    Sources(g.edges, n, k)
  }

  /** `m` is the target of the first edge of its kind out of `n`. */
  ghost predicate FirstTarget(edges: seq<Edge>, n: Id, k: EdgeKind, m: Id)
  {
    exists i :: FirstEdge(edges, n, k, m, i)
  }

  predicate FirstEdge(edges: seq<Edge>, n: Id, k: EdgeKind, m: Id, i: int)
  {
    0 <= i < |edges| && edges[i] == Edge(n, m, k) && forall j | 0 <= j < i :: edges[j].src != n || edges[j].kind != k
  }

  lemma {:induction false} TargetsFirst(edges: seq<Edge>, n: Id, k: EdgeKind) returns (i: nat)
    requires Targets(edges, n, k) != []
    ensures FirstEdge(edges, n, k, Targets(edges, n, k)[0], i)
  {
    if edges[0].src == n && edges[0].kind == k {
      i := 0;
    } else {
      i := TargetsFirst(edges[1..], n, k);
      i := i + 1;
    }
  }

  lemma FirstTargetIff(g: Graph, n: Id, k: EdgeKind, m: Id)
    ensures FirstTarget(g.edges, n, k, m) <==> Outs(g, n, k) != [] && Outs(g, n, k)[0] == m
  {
    if Outs(g, n, k) != [] {
      var i := TargetsFirst(g.edges, n, k);
      assert FirstEdge(g.edges, n, k, Outs(g, n, k)[0], i);
    }
    if FirstTarget(g.edges, n, k, m) {
      assert Edge(n, m, k) in g.edges && m in Outs(g, n, k);
      var i := TargetsFirst(g.edges, n, k);
      var j :| FirstEdge(g.edges, n, k, m, j);
      assert i == j;
    }
  }

  /** What the queries demand of a graph: no dangling edge, and a milestone for every milestone task. */
  ghost predicate WellFormed(g: Graph)
  {
    && (forall e | e in g.edges :: e.src in g.nodes && e.dst in g.nodes)
    && (forall n | n in g.nodes && g.nodes[n].kind == MilestoneTask :: Outs(g, n, PartOf) != [])
  }

  type Project = g: Graph | WellFormed(g) witness Graph(map[], [])

  // ---- milestones -----------------------------------------------------------

  function MilestoneOf(g: Project, n: Id): (m: Option<Id>)
    requires n in g.nodes
    ensures m.Some? ==> m.value in g.nodes
    ensures m.Some? ==>
      || m.value == n
      || Edge(n, m.value, PartOf) in g.edges
      || Edge(n, m.value, ScheduledIn) in g.edges
  {
    match g.nodes[n].kind
    case Milestone => Some(n)
    case MilestoneTask =>
      var ms := Outs(g, n, PartOf);
      assert ms[0] in ms;
      Some(ms[0])
    case ImpTask =>
      var ms := Outs(g, n, ScheduledIn);
      if Outs(g, n, OwnedBy) == [] || ms == [] then None else
      assert ms[0] in ms;
      Some(ms[0])
    case _ => None
  }

  /** The milestone an item counts under, read off the edges: for an imp task its first schedule, if it has an owner. */
  ghost predicate CountsUnder(g: Graph, n: Id, m: Id)
    requires n in g.nodes
  {
    match g.nodes[n].kind
    case Milestone => m == n
    case MilestoneTask => FirstTarget(g.edges, n, PartOf, m)
    case ImpTask => (exists s :: Edge(n, s, OwnedBy) in g.edges) && FirstTarget(g.edges, n, ScheduledIn, m)
    case _ => false
  }

  /** A single edge is the first. */
  lemma {:induction false} SingleIsFirst(edges: seq<Edge>, n: Id, k: EdgeKind, m: Id)
    requires Edge(n, m, k) in edges && forall e | e in edges && e.src == n && e.kind == k :: e.dst == m
    ensures FirstTarget(edges, n, k, m)
  {
    assert m in Targets(edges, n, k);
    var i := TargetsFirst(edges, n, k);
    assert edges[i] in edges;
  }

  lemma MilestoneOfIff(g: Project, n: Id, m: Id)
    requires n in g.nodes
    ensures MilestoneOf(g, n) == Some(m) <==> CountsUnder(g, n, m)
  {
    FirstTargetIff(g, n, PartOf, m);
    FirstTargetIff(g, n, ScheduledIn, m);
    var owners := Outs(g, n, OwnedBy);
    if owners != [] { assert owners[0] in owners; }
  }

  predicate MembersKnown(g: Graph, m: Id)
  {
    forall e | e in g.edges && e.dst == m && (e.kind == PartOf || e.kind == ScheduledIn) :: e.src in g.nodes
  }

  function WorkAmong(g: Graph, ids: seq<Id>): (r: seq<Id>)
    requires forall x | x in ids :: x in g.nodes
    ensures forall x :: x in r <==> x in ids && IsWork(g.nodes[x].kind)
  {
    if ids == [] then
      []
    else
      assert ids[0] in ids;
      var rest := WorkAmong(g, ids[1..]);
      assert ids == [ids[0]] + ids[1..];
      if IsWork(g.nodes[ids[0]].kind) then [ids[0]] + rest else rest
  }

  /** The work items that belong to a milestone. */
  function MilestoneWork(g: Graph, m: Id): (r: seq<Id>)
    requires MembersKnown(g, m)
    ensures forall x :: x in r <==>
      && (Edge(x, m, PartOf) in g.edges || Edge(x, m, ScheduledIn) in g.edges)
      && x in g.nodes && IsWork(g.nodes[x].kind)
  {
    WorkAmong(g, Ins(g, m, PartOf) + Ins(g, m, ScheduledIn))
  }

  datatype MilestoneState = MNotStarted | MBlocked | MGated | MComplete | MInProgress

  datatype GateState = Open | TasksComplete | Satisfied

  predicate IsComplete(g: Graph, n: Id)
  {
    n in g.nodes && g.nodes[n].status == Complete
  }

  predicate AllComplete(g: Graph, ids: seq<Id>)
  {
    forall x | x in ids :: IsComplete(g, x)
  }

  function GateStateOf(g: Project, gate: Id): (s: GateState)
    requires gate in g.nodes
    ensures s == Satisfied <==>
      Outs(g, gate, RequiresTask) != [] && AllComplete(g, Outs(g, gate, RequiresTask)) && g.nodes[gate].evidence != []
    ensures s == TasksComplete <==>
      Outs(g, gate, RequiresTask) != [] && AllComplete(g, Outs(g, gate, RequiresTask)) && g.nodes[gate].evidence == []
  {
    var required := Outs(g, gate, RequiresTask);
    if required == [] || exists t | t in required :: !IsComplete(g, t) then Open
    else if g.nodes[gate].evidence != [] then Satisfied else TasksComplete
  }

  function MilestoneStateOf(g: Project, m: Id): (s: MilestoneState)
    requires m in g.nodes
    ensures s == MComplete <==>
      && MilestoneWork(g, m) != [] && AllComplete(g, MilestoneWork(g, m))
      && forall gate | gate in Outs(g, m, GatedBy) :: GateStateOf(g, gate) == Satisfied
  {
    var work := MilestoneWork(g, m);
    if work == [] then MNotStarted
    else if exists w | w in work :: g.nodes[w].status == Blocked then
      var w :| w in work && g.nodes[w].status == Blocked;
      assert !IsComplete(g, w);
      MBlocked
    else if AllComplete(g, work) then
      if exists gate | gate in Outs(g, m, GatedBy) :: GateStateOf(g, gate) != Satisfied then MGated else MComplete
    else if forall w | w in work :: g.nodes[w].status == NotStarted then MNotStarted
    else MInProgress
  }

  /** The roll-up, state by state: the states exclude each other and one always holds. */
  lemma MilestoneRollUp(g: Project, m: Id)
    requires m in g.nodes
    ensures var work, s := MilestoneWork(g, m), MilestoneStateOf(g, m);
      && (s == MBlocked <==> exists w | w in work :: g.nodes[w].status == Blocked)
      && (s == MGated <==>
            && work != [] && AllComplete(g, work)
            && exists gate | gate in Outs(g, m, GatedBy) :: GateStateOf(g, gate) != Satisfied)
      && (s == MNotStarted <==> forall w | w in work :: g.nodes[w].status == NotStarted)
  {
    var work := MilestoneWork(g, m);
    if work != [] {
      assert work[0] in work;
    }
    if AllComplete(g, work) {
      forall w | w in work ensures g.nodes[w].status == Complete { assert IsComplete(g, w); }
    }
  }

  predicate MilestoneUnblocked(g: Project, m: Id)
    requires m in g.nodes
  {
    forall up | up in Outs(g, m, DependsOn) :: MilestoneStateOf(g, up) == MComplete
  }

  // ---- releases -------------------------------------------------------------

  datatype ReleaseState = NotReady | ReleaseBlocked | Ready

  function ReleaseStateOf(g: Project, rid: Id): (s: ReleaseState)
    requires rid in g.nodes
    ensures s == ReleaseBlocked <==> exists i | i in Outs(g, rid, Includes) :: g.nodes[i].status == Blocked
    ensures s == Ready <==>
      && Outs(g, rid, Includes) != [] && AllComplete(g, Outs(g, rid, Includes))
      && forall gate | gate in Outs(g, rid, RequiresGate) :: GateStateOf(g, gate) == Satisfied
  {
    var items := Outs(g, rid, Includes);
    if exists i | i in items :: g.nodes[i].status == Blocked then
      var i :| i in items && g.nodes[i].status == Blocked;
      assert !IsComplete(g, i);
      ReleaseBlocked
    else if items != [] && AllComplete(g, items)
      && forall gate | gate in Outs(g, rid, RequiresGate) :: GateStateOf(g, gate) == Satisfied then Ready
    else NotReady
  }

  // ---- monotonicity ---------------------------------------------------------

  /** `h` is `g` with some statuses and evidence changed: the structure is the same. */
  ghost predicate SameShape(g: Graph, h: Graph)
  {
    && g.edges == h.edges
    && g.nodes.Keys == h.nodes.Keys
    && forall n | n in g.nodes :: g.nodes[n].kind == h.nodes[n].kind
  }

  /** Nothing COMPLETE stopped being COMPLETE and no node lost all its evidence. */
  ghost predicate Advances(g: Graph, h: Graph)
  {
    && SameShape(g, h)
    && (forall n | n in g.nodes && g.nodes[n].status == Complete :: h.nodes[n].status == Complete)
    && (forall n | n in g.nodes && g.nodes[n].evidence != [] :: h.nodes[n].evidence != [])
  }

  lemma {:induction false} WorkAmongSame(g: Graph, h: Graph, ids: seq<Id>)
    requires SameShape(g, h) && forall x | x in ids :: x in g.nodes
    ensures WorkAmong(g, ids) == WorkAmong(h, ids)
  {
    if ids != [] {
      assert ids[0] in ids;
      WorkAmongSame(g, h, ids[1..]);
    }
  }

  /** Membership, structure and milestones depend on the shape alone. */
  lemma ShapeDecides(g: Project, h: Project)
    requires SameShape(g, h)
    ensures forall n, k :: Outs(g, n, k) == Outs(h, n, k)
    ensures forall m :: MilestoneWork(g, m) == MilestoneWork(h, m)
    ensures forall n | n in g.nodes :: MilestoneOf(g, n) == MilestoneOf(h, n)
  {
    forall m ensures MilestoneWork(g, m) == MilestoneWork(h, m) {
      WorkAmongSame(g, h, Ins(g, m, PartOf) + Ins(g, m, ScheduledIn));
    }
  }

  /** Satisfied gates and COMPLETE milestones stay so while nothing leaves COMPLETE. */
  lemma AdvancesKeeps(g: Project, h: Project)
    requires Advances(g, h)
    ensures forall gate | gate in g.nodes && GateStateOf(g, gate) == Satisfied :: GateStateOf(h, gate) == Satisfied
    ensures forall m | m in g.nodes && MilestoneStateOf(g, m) == MComplete :: MilestoneStateOf(h, m) == MComplete
  {
    ShapeDecides(g, h);
    forall m | m in g.nodes && MilestoneStateOf(g, m) == MComplete
      ensures MilestoneStateOf(h, m) == MComplete
    {
      forall gate | gate in Outs(h, m, GatedBy) ensures GateStateOf(h, gate) == Satisfied {
        assert gate in Outs(g, m, GatedBy);
      }
    }
  }

  // ---- edge typing --------------------------------------------------------------

  /** The edge typing `dependency_findings` reports on (tools/graph.py:179-195), for a graph without dangling edges. */
  predicate EdgeTyped(g: Graph, e: Edge)
    requires e.src in g.nodes && e.dst in g.nodes
  {
    var s, d := g.nodes[e.src].kind, g.nodes[e.dst].kind;
    match e.kind
    case After => IsWork(s) && IsWork(d)
    case DependsOn => s == Milestone && d == Milestone
    case Includes => s == Release && (d == MilestoneTask || d == ImpTask)
    case RequiresGate => s == Release && d == ReleaseGate
    case GatedBy => s == Milestone && d == ReleaseGate
    case _ => true
  }

  ghost predicate WellTyped(g: Project)
  {
    forall e | e in g.edges :: EdgeTyped(g, e)
  }
}
