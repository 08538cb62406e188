/** The ordered steps of a goal (tools/graph.py:489-504). */
module GoalSteps {
  import opened Ids
  import opened Text
  import opened Digraph
  import opened ProjectGraph
  import opened GoalPlan
  import opened Waves
  import Commands

  datatype Step = Step(wave: nat, id: Id, kind: Kind, order: int, heldBy: set<Id>)

  // ---- the sort key -----------------------------------------------------------------

  predicate IdLe(a: Step, b: Step)
  {
    (a.kind == MilestoneTask && b.kind != MilestoneTask) ||
    ((a.kind == MilestoneTask <==> b.kind == MilestoneTask) && Le(a.id, b.id))
  }

  predicate OrderLe(a: Step, b: Step)
  {
    a.order < b.order || (a.order == b.order && IdLe(a, b))
  }

  predicate GateLe(a: Step, b: Step)
  {
    (a.kind != ReleaseGate && b.kind == ReleaseGate) ||
    ((a.kind == ReleaseGate <==> b.kind == ReleaseGate) && OrderLe(a, b))
  }

  /** Wave, work before gates, milestone order, milestone tasks first, id. */
  predicate KeyLe(a: Step, b: Step)
  {
    a.wave < b.wave || (a.wave == b.wave && GateLe(a, b))
  }

  /** What the key means for two steps, the first of which is listed first. */
  predicate ListedBefore(a: Step, b: Step)
  {
    var sameWave := a.wave == b.wave;
    var samePart := sameWave && (a.kind == ReleaseGate <==> b.kind == ReleaseGate);
    var sameMilestone := samePart && a.order == b.order;
    var sameKind := sameMilestone && (a.kind == MilestoneTask <==> b.kind == MilestoneTask);
    && a.wave <= b.wave
    && (sameWave && a.kind == ReleaseGate ==> b.kind == ReleaseGate)
    && (samePart ==> a.order <= b.order)
    && (sameMilestone && b.kind == MilestoneTask ==> a.kind == MilestoneTask)
    && (sameKind ==> Le(a.id, b.id))
  }

  lemma KeyMeans(a: Step, b: Step)
    ensures KeyLe(a, b) <==> ListedBefore(a, b)
  {
  }

  lemma KeyTotal(a: Step, b: Step)
    ensures KeyLe(a, b) || KeyLe(b, a)
  {
    LeTotal(a.id, b.id);
  }

  lemma KeyTransitive(a: Step, b: Step, c: Step)
    requires KeyLe(a, b) && KeyLe(b, c)
    ensures KeyLe(a, c)
  {
    if Le(a.id, b.id) && Le(b.id, c.id) {
      LeTransitive(a.id, b.id, c.id);
    }
  }

  ghost predicate InOrder(s: seq<Step>)
  {
    forall i, j | 0 <= i < j < |s| :: KeyLe(s[i], s[j])
  }

  function Insert(s: seq<Step>, x: Step): (r: seq<Step>)
    ensures forall y :: y in r <==> y == x || y in s
  {
    if s == [] then [x]
    else if KeyLe(x, s[0]) then [x] + s
    else
      assert s == [s[0]] + s[1..];
      [s[0]] + Insert(s[1..], x)
  }

  lemma {:induction false} InsertOrdered(s: seq<Step>, x: Step)
    requires InOrder(s)
    ensures InOrder(Insert(s, x))
  {
    if s != [] && KeyLe(x, s[0]) {
      forall j | 0 <= j < |s| ensures KeyLe(x, s[j]) {
        if j > 0 { KeyTransitive(x, s[0], s[j]); }
      }
    } else if s != [] {
      KeyTotal(x, s[0]);
      InsertOrdered(s[1..], x);
      var rest := Insert(s[1..], x);
      forall j | 0 <= j < |rest| ensures KeyLe(s[0], rest[j]) {
        assert rest[j] in rest;
        if rest[j] != x {
          var k :| 0 <= k < |s| - 1 && s[1..][k] == rest[j];
        }
      }
    }
  }

  lemma {:induction false} InsertDistinct(s: seq<Step>, x: Step)
    requires Distinct(s) && x !in s
    ensures Distinct(Insert(s, x))
  {
    if s != [] && !KeyLe(x, s[0]) {
      InsertDistinct(s[1..], x);
      var rest := Insert(s[1..], x);
      forall j | 0 <= j < |rest| ensures s[0] != rest[j] {
        assert rest[j] in rest;
      }
    }
  }

  // ---- the plan -----------------------------------------------------------------------

  function MilestoneOrder(g: Project, n: Id): int
    requires n in g.nodes
  {
    if g.nodes[n].kind == ReleaseGate then -1 else
    var m := MilestoneOf(g, n);
    if m.Some? then g.nodes[m.value].order else -1
  }

  function StepOf(g: Project, wave: map<Id, nat>, held: map<Id, set<Id>>, n: Id): Step
    requires n in g.nodes && n in wave && n in held
  {
    Step(wave[n], n, g.nodes[n].kind, MilestoneOrder(g, n), held[n])
  }

  ghost function BlockedNodes(g: Graph): set<Id>
  {
    set n | n in g.nodes && g.nodes[n].status == Blocked
  }

  method Arrange(g: Project, wave: map<Id, nat>, held: map<Id, set<Id>>, ids: seq<Id>) returns (steps: seq<Step>)
    requires Distinct(ids) && forall n | n in ids :: n in g.nodes && n in wave && n in held
    ensures InOrder(steps) && Distinct(steps)
    ensures forall s | s in steps :: s.id in ids && s == StepOf(g, wave, held, s.id)
    ensures forall n | n in ids :: StepOf(g, wave, held, n) in steps
  {
    steps := [];
    for i := 0 to |ids|
      invariant InOrder(steps) && Distinct(steps)
      invariant forall s | s in steps :: s.id in ids[..i] && s == StepOf(g, wave, held, s.id)
      invariant forall k | 0 <= k < i :: StepOf(g, wave, held, ids[k]) in steps
    {
      assert ids[i] in ids && ids[i] !in ids[..i];
      assert ids[..i+1] == ids[..i] + [ids[i]];
      InsertOrdered(steps, StepOf(g, wave, held, ids[i]));
      InsertDistinct(steps, StepOf(g, wave, held, ids[i]));
      steps := Insert(steps, StepOf(g, wave, held, ids[i]));
    }
    assert ids[..|ids|] == ids;
  }

  /** The steps cover the plan, one each. */
  ghost predicate Covers(steps: seq<Step>, ids: set<Id>)
  {
    && (forall i, j | 0 <= i < j < |steps| :: steps[i].id != steps[j].id)
    && (forall s | s in steps :: s.id in ids)
    && (forall n | n in ids :: exists s :: s in steps && s.id == n)
  }

  /** The step shows its node's kind, and the order of the milestone it counts under: -1 for gates and without one. */
  ghost predicate Shown(g: Project, s: Step)
  {
    && s.id in g.nodes && s.kind == g.nodes[s.id].kind
    && (forall m | s.kind != ReleaseGate && CountsUnder(g, s.id, m) :: m in g.nodes && s.order == g.nodes[m].order)
    && (s.kind == ReleaseGate || (forall m :: !CountsUnder(g, s.id, m)) ==> s.order == -1)
  }

  lemma StepShown(g: Project, wave: map<Id, nat>, held: map<Id, set<Id>>, n: Id)
    requires n in g.nodes && n in wave && n in held
    ensures Shown(g, StepOf(g, wave, held, n))
  {
    forall m ensures CountsUnder(g, n, m) <==> MilestoneOf(g, n) == Some(m) { MilestoneOfIff(g, n, m); }
  }

  /** The steps are shown as they are and listed by wave, work before gates, milestone order, milestone tasks first, id. */
  ghost predicate Listed(g: Project, steps: seq<Step>)
  {
    && (forall s | s in steps :: Shown(g, s))
    && (forall i, j | 0 <= i < j < |steps| :: ListedBefore(steps[i], steps[j]))
  }

  /** On an acyclic plan: every wave is the exact longest-path length and `heldBy` the exact set of blockers. */
  ghost predicate Exact(r: Rel, blocked: set<Id>, steps: seq<Step>)
  {
    forall s | s in steps :: Longest(r, s.id, s.wave) && s.heldBy == Blockers(r, blocked, s.id)
  }

  /** On every plan, cyclic or not: a wave is the length of some chain of prerequisites, and what is listed as a blocker
      is one. */
  ghost predicate Grounded(r: Rel, blocked: set<Id>, steps: seq<Step>)
  {
    forall s | s in steps :: HasWalk(r, s.id, s.wave) && s.heldBy <= Blockers(r, blocked, s.id)
  }

  /** Every prerequisite is listed before the steps that wait on it. */
  ghost predicate PrereqsFirst(r: Rel, steps: seq<Step>)
  {
    forall i, j | 0 <= i < |steps| && 0 <= j < |steps| && steps[j].id in Succ(r, steps[i].id) :: j < i
  }

  lemma OrderedPlan(r: Rel, blocked: set<Id>, steps: seq<Step>)
    requires InOrder(steps) && Exact(r, blocked, steps)
    ensures PrereqsFirst(r, steps)
  {
    forall i, j | 0 <= i < |steps| && 0 <= j < |steps| && steps[j].id in Succ(r, steps[i].id) ensures j < i {
      assert i < j ==> KeyLe(steps[i], steps[j]);
      WaveDescends(r, steps[i].id, steps[i].wave, steps[j].id, steps[j].wave);
    }
  }

  lemma ArrangedCovers(g: Project, wave: map<Id, nat>, held: map<Id, set<Id>>, ids: seq<Id>, steps: seq<Step>)
    requires forall n | n in ids :: n in g.nodes && n in wave && n in held
    requires Distinct(steps) && forall s | s in steps :: s.id in ids && s == StepOf(g, wave, held, s.id)
    requires forall n | n in ids :: StepOf(g, wave, held, n) in steps
    ensures Covers(steps, set n | n in ids)
  {
    forall i, j | 0 <= i < j < |steps| ensures steps[i].id != steps[j].id {
      assert steps[i] in steps && steps[j] in steps;
    }
    forall n | n in ids ensures exists s :: s in steps && s.id == n {
      assert StepOf(g, wave, held, n).id == n;
    }
  }

  /** Both tables of a plan, with its steps in some order. */
  method Tables(prereq: Rel, blocked: set<Id>) returns (ids: seq<Id>, wave: map<Id, nat>, held: map<Id, set<Id>>)
    requires forall x | x in prereq :: prereq[x] <= prereq.Keys
    ensures Distinct(ids) && (set n | n in ids) == wave.Keys == held.Keys == prereq.Keys
    ensures forall x | x in prereq :: wave[x] == 0 <==> prereq[x] == {}
    ensures forall x | x in prereq :: HasWalk(prereq, x, wave[x]) && held[x] <= Blockers(prereq, blocked, x)
    ensures Acyclic(prereq) ==> forall x | x in prereq ::
      Longest(prereq, x, wave[x]) && held[x] == Blockers(prereq, blocked, x)
  {
    var planner := new Planner(prereq, blocked);
    ids := Enumerate(prereq.Keys);
    planner.Fill(ids);
    wave, held := planner.wave, planner.held;
  }

  lemma ArrangedExact(g: Project, r: Rel, blocked: set<Id>, wave: map<Id, nat>, held: map<Id, set<Id>>, steps: seq<Step>)
    requires wave.Keys == held.Keys == r.Keys && r.Keys <= g.nodes.Keys
    requires forall x | x in r :: Longest(r, x, wave[x]) && held[x] == Blockers(r, blocked, x)
    requires forall s | s in steps :: s.id in r && s == StepOf(g, wave, held, s.id)
    ensures Exact(r, blocked, steps)
  {
  }

  /** The steps of a plan, from its prerequisite table. */
  method Lay(g: Project, prereq: Rel, blocked: set<Id>) returns (steps: seq<Step>)
    requires prereq.Keys <= g.nodes.Keys && forall x | x in prereq :: prereq[x] <= prereq.Keys
    ensures Covers(steps, prereq.Keys) && Listed(g, steps)
    ensures forall s | s in steps :: s.wave == 0 <==> Succ(prereq, s.id) == {}
    ensures Grounded(prereq, blocked, steps)
    ensures Acyclic(prereq) ==> Exact(prereq, blocked, steps) && PrereqsFirst(prereq, steps)
  {
    var ids, wave, held := Tables(prereq, blocked);
    assert forall n | n in ids :: n in set m | m in ids;
    steps := Arrange(g, wave, held, ids);
    ArrangedCovers(g, wave, held, ids, steps);
    forall s | s in steps ensures Shown(g, s) { StepShown(g, wave, held, s.id); }
    forall i, j | 0 <= i < j < |steps| ensures ListedBefore(steps[i], steps[j]) { KeyMeans(steps[i], steps[j]); }
    if Acyclic(prereq) {
      ArrangedExact(g, prereq, blocked, wave, held, steps);
      OrderedPlan(prereq, blocked, steps);
    }
  }

  lemma PlanAt(g: Project, rid: Id, x: Id)
    requires rid in g.nodes && x in Steps(g, rid)
    ensures Succ(Plan(g, rid), x) == Prereqs(g, x) && Prereqs(g, x) <= Plan(g, rid).Keys
  {
    StepsClosed(g, rid);
  }

  method Goal(g: Project, rid: Id) returns (steps: seq<Step>)
    requires rid in g.nodes
    ensures Covers(steps, Steps(g, rid)) && Listed(g, steps)
    ensures forall s | s in steps :: s.wave == 0 <==> Prereqs(g, s.id) == {}
    ensures Grounded(Plan(g, rid), BlockedNodes(g), steps)
    ensures Acyclic(Plan(g, rid)) ==>
      Exact(Plan(g, rid), BlockedNodes(g), steps) && PrereqsFirst(Plan(g, rid), steps)
  {
    var prereq := Worklist(g, rid);
    var blocked := set n | n in g.nodes && g.nodes[n].status == Blocked;
    forall x | x in prereq ensures prereq[x] == Prereqs(g, x) && prereq[x] <= prereq.Keys { PlanAt(g, rid, x); }
    steps := Lay(g, prereq, blocked);
  }

  /** The wave-0 work items are exactly the open steps that `set` would let start, when no milestone upstream
      of the plan is without work; without that, `set` refuses the ones below an empty milestone. */
  lemma WaveZeroStartable(g: Project, s: Step)
    requires s.id in g.nodes && g.nodes[s.id].kind != ReleaseGate
    requires s.wave == 0 <==> Prereqs(g, s.id) == {}
    ensures Commands.PrereqsMet(g, s.id) <==>
      s.wave == 0 && forall up | up in Upstream(g, s.id) :: MilestoneWork(g, up) != []
  {
    StartableIff(g, s.id);
  }
}
