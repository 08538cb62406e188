/** The depth-first search for prerequisite cycles (tools/graph.py:200-216), over any finite relation. */
module CycleSearch {
  import opened Ids
  import opened Digraph

  // ---- what a report is -----------------------------------------------------------------

  /** A walk that runs into one of its own earlier nodes: a way into a cycle and once around it. */
  ghost predicate Lasso(r: Rel, p: seq<Id>)
  {
    && Walk(r, p) && |p| >= 2
    && p[|p|-1] in p[..|p|-1]
    && Distinct(p[..|p|-1])
  }

  /** The end of a lasso is a closed walk; the lasso itself is one only when it starts on its cycle. */
  lemma LassoHasCycle(r: Rel, p: seq<Id>) returns (i: nat)
    requires Lasso(r, p)
    ensures i < |p| - 1 && p[i] == p[|p|-1] && ClosedWalk(r, p[i..])
    ensures ClosedWalk(r, p) <==> i == 0
  {
    var q := p[..|p|-1];
    i :| 0 <= i < |q| && q[i] == p[|p|-1];
    WalkSuffix(r, p, i);
    assert q[0] == p[0];
  }

  /** `x` is the least node from which `v` can be reached. */
  ghost predicate LeastReaching(r: Rel, x: Id, v: Id)
  {
    Reaches(r, x, v) && forall y | Reaches(r, y, v) :: Le(x, y)
  }

  /** `x` is the least node that leads into a cycle. */
  ghost predicate LeastLeading(r: Rel, x: Id)
  {
    LeadsToCycle(r, x) && forall y | LeadsToCycle(r, y) :: Le(x, y)
  }

  ghost predicate HasLeast(r: Rel, w: seq<Id>, x: Id)
    requires w != []
  {
    x in w && LeastReaching(r, x, w[0])
  }

  /** Every cycle goes through the least node that reaches it. */
  ghost predicate CyclesThroughLeast(r: Rel)
  {
    forall w | ClosedWalk(r, w) :: exists x :: HasLeast(r, w, x)
  }

  ghost predicate Rooted(r: Rel, p: seq<Id>)
  {
    Lasso(r, p) && LeastReaching(r, p[0], p[|p|-1])
  }

  /** Every report is a lasso, from the least node that reaches its cycle. */
  ghost predicate ReportsRooted(r: Rel, cycles: seq<seq<Id>>)
  {
    forall i {:trigger Rooted(r, cycles[i])} | 0 <= i < |cycles| :: Rooted(r, cycles[i])
  }

  /** Some report ends on the walk. */
  ghost predicate ReportedOn(cycles: seq<seq<Id>>, w: seq<Id>)
  {
    exists k :: 0 <= k < |cycles| && cycles[k] != [] && cycles[k][|cycles[k]|-1] in w
  }

  ghost predicate EveryCycleReported(r: Rel, cycles: seq<seq<Id>>)
  {
    forall w | ClosedWalk(r, w) :: ReportedOn(cycles, w)
  }

  lemma LeastUnique(r: Rel, x: Id, y: Id, v: Id)
    requires LeastReaching(r, x, v) && LeastReaching(r, y, v)
    ensures x == y
  {
    LeAntisymmetric(x, y);
  }

  lemma LassoClosedByLeast(r: Rel, p: seq<Id>)
    requires Lasso(r, p) && LeastReaching(r, p[0], p[|p|-1]) && CyclesThroughLeast(r)
    ensures ClosedWalk(r, p)
  {
    var i := LassoHasCycle(r, p);
    var w := p[i..];
    var x :| HasLeast(r, w, x);
    LeastUnique(r, x, p[0], w[0]);
    var k :| 0 <= k < |w| && w[k] == p[0];
    var q := p[..|p|-1];
    assert w[k] == p[i+k] && q[0] == p[0];
    if i + k < |p| - 1 { assert q[i+k] == q[0]; } else { assert q[i] == q[0]; }
  }

  lemma CycleHasLeast(r: Rel, w: seq<Id>, u: Id)
    requires ClosedWalk(r, w) && u in w && LeastReaching(r, u, u)
    ensures HasLeast(r, w, u)
  {
    ClosedWalkConnects(r, w, u);
    forall y | Reaches(r, y, w[0]) ensures Le(u, y) { ReachesTrans(r, y, w[0], u); }
  }

  /** All reports are closed walks exactly when every cycle goes through the least node that reaches it. */
  lemma ReportsClosedIff(r: Rel, cycles: seq<seq<Id>>)
    requires ReportsRooted(r, cycles) && EveryCycleReported(r, cycles)
    ensures (forall i | 0 <= i < |cycles| :: ClosedWalk(r, cycles[i])) <==> CyclesThroughLeast(r)
  {
    if CyclesThroughLeast(r) {
      forall i | 0 <= i < |cycles| ensures ClosedWalk(r, cycles[i]) {
        assert Rooted(r, cycles[i]);
        LassoClosedByLeast(r, cycles[i]);
      }
    }
    if forall i | 0 <= i < |cycles| :: ClosedWalk(r, cycles[i]) {
      forall w | ClosedWalk(r, w) ensures exists x :: HasLeast(r, w, x) {
        assert ReportedOn(cycles, w);
        var k :| 0 <= k < |cycles| && cycles[k] != [] && cycles[k][|cycles[k]|-1] in w;
        assert ClosedWalk(r, cycles[k]) && Rooted(r, cycles[k]);
        CycleHasLeast(r, w, cycles[k][0]);
      }
    }
  }

  /** There is no report exactly when there is no cycle. */
  lemma NoReportIff(r: Rel, cycles: seq<seq<Id>>)
    requires ReportsRooted(r, cycles) && EveryCycleReported(r, cycles)
    ensures cycles == [] <==> Acyclic(r)
  {
    if cycles != [] {
      assert Rooted(r, cycles[0]);
      var i := LassoHasCycle(r, cycles[0]);
    } else {
      forall w ensures !ClosedWalk(r, w) { assert ClosedWalk(r, w) ==> ReportedOn(cycles, w); }
    }
  }

  /** The reports start at nodes in increasing order. */
  ghost predicate RootsInOrder(cycles: seq<seq<Id>>)
  {
    forall i, j | 0 <= i <= j < |cycles| :: cycles[i] != [] && cycles[j] != [] && Le(cycles[i][0], cycles[j][0])
  }

  /** The first report starts at the least node that leads into a cycle. */
  lemma FirstIsLeast(r: Rel, cycles: seq<seq<Id>>)
    requires ReportsRooted(r, cycles) && EveryCycleReported(r, cycles) && RootsInOrder(cycles) && cycles != []
    ensures Lasso(r, cycles[0]) && LeastLeading(r, cycles[0][0])
  {
    assert Rooted(r, cycles[0]);
    LassoLeads(r, cycles[0]);
    forall y | LeadsToCycle(r, y) ensures Le(cycles[0][0], y) {
      var v :| Reaches(r, y, v) && OnCycle(r, v);
      var w :| WalkBetween(r, w, v, v) && |w| >= 2;
      assert ClosedWalk(r, w) && ReportedOn(cycles, w);
      var k :| 0 <= k < |cycles| && cycles[k] != [] && cycles[k][|cycles[k]|-1] in w;
      var u := cycles[k][|cycles[k]|-1];
      assert Rooted(r, cycles[k]);
      ClosedWalkConnects(r, w, u);
      ReachesTrans(r, y, v, u);
      assert Le(cycles[0][0], cycles[k][0]) && Le(cycles[k][0], y);
      LeTransitive(cycles[0][0], cycles[k][0], y);
    }
  }

  lemma LassoLeads(r: Rel, p: seq<Id>)
    requires Lasso(r, p)
    ensures LeadsToCycle(r, p[0]) && Reaches(r, p[0], p[|p|-1]) && OnCycle(r, p[|p|-1])
  {
    var i := LassoHasCycle(r, p);
    assert WalkBetween(r, p[i..], p[i], p[i]);
    assert WalkBetween(r, p, p[0], p[|p|-1]);
    assert Reaches(r, p[0], p[i]) && OnCycle(r, p[i]);
  }

  // ---- what the search keeps ---------------------------------------------------------------

  /** A report ends with the edge from `x` to `y`. */
  ghost predicate BackEdge(cycles: seq<seq<Id>>, x: Id, y: Id)
  {
    exists k :: 0 <= k < |cycles| && EndsWith(cycles[k], x, y)
  }

  ghost predicate EndsWith(p: seq<Id>, x: Id, y: Id)
  {
    |p| >= 2 && p[|p|-2] == x && p[|p|-1] == y
  }

  lemma BackEdgeStays(cycles: seq<seq<Id>>, more: seq<seq<Id>>, x: Id, y: Id)
    requires cycles <= more && BackEdge(cycles, x, y)
    ensures BackEdge(more, x, y)
  {
    var k :| 0 <= k < |cycles| && EndsWith(cycles[k], x, y);
    assert EndsWith(more[k], x, y);
  }

  ghost predicate Settled(finished: seq<Id>, cycles: seq<seq<Id>>, i: nat, y: Id)
    requires i < |finished|
  {
    y in finished[..i] || BackEdge(cycles, finished[i], y)
  }

  /** Every edge of a finished node leads to a node finished before it, or was reported. */
  ghost predicate EdgesSettled(r: Rel, finished: seq<Id>, cycles: seq<seq<Id>>)
  {
    forall i, y | 0 <= i < |finished| && y in Succ(r, finished[i]) :: Settled(finished, cycles, i, y)
  }

  lemma SettledStays(r: Rel, finished: seq<Id>, cycles: seq<seq<Id>>, more: seq<seq<Id>>)
    requires EdgesSettled(r, finished, cycles) && cycles <= more
    ensures EdgesSettled(r, finished, more)
  {
    forall i, y | 0 <= i < |finished| && y in Succ(r, finished[i]) ensures Settled(finished, more, i, y) {
      assert Settled(finished, cycles, i, y);
      if y !in finished[..i] { BackEdgeStays(cycles, more, finished[i], y); }
    }
  }

  lemma FinishSettles(r: Rel, finished: seq<Id>, cycles: seq<seq<Id>>, x: Id)
    requires EdgesSettled(r, finished, cycles)
    requires forall y | y in Succ(r, x) :: y in finished || BackEdge(cycles, x, y)
    ensures EdgesSettled(r, finished + [x], cycles)
  {
    var f := finished + [x];
    forall i, y | 0 <= i < |f| && y in Succ(r, f[i]) ensures Settled(f, cycles, i, y) {
      assert f[..i] == finished[..i];
      if i < |finished| { assert Settled(finished, cycles, i, y); } else { assert finished[..i] == finished; }
    }
  }

  /** What the finished nodes lead to is finished or on the path. */
  ghost predicate Enclosed(r: Rel, visited: set<Id>, active: set<Id>)
  {
    forall x, y | x in visited && y in Succ(r, x) :: y in visited || y in active
  }

  /** Along a walk over finished nodes, positions fall until a reported edge. */
  lemma {:induction false} FallOrReport(r: Rel, finished: seq<Id>, cycles: seq<seq<Id>>, w: seq<Id>, i: nat) returns (j: nat)
    requires EdgesSettled(r, finished, cycles) && Walk(r, w) && i < |finished| && finished[i] == w[0]
    ensures ReportedOn(cycles, w) || (j + |w| - 1 <= i && finished[j] == w[|w|-1])
    decreases |w|
  {
    j := i;
    if |w| > 1 {
      assert w[0+1] in Succ(r, finished[i]) && Settled(finished, cycles, i, w[1]);
      if w[1] in finished[..i] {
        var k :| 0 <= k < i && finished[..i][k] == w[1];
        WalkSuffix(r, w, 1);
        j := FallOrReport(r, finished, cycles, w[1..], k);
        if ReportedOn(cycles, w[1..]) { ReportedOnPart(cycles, w[1..], w); }
      } else {
        var k :| 0 <= k < |cycles| && EndsWith(cycles[k], finished[i], w[1]);
        assert cycles[k][|cycles[k]|-1] in w;
      }
    }
  }

  lemma ReportedOnPart(cycles: seq<seq<Id>>, part: seq<Id>, w: seq<Id>)
    requires ReportedOn(cycles, part) && forall x | x in part :: x in w
    ensures ReportedOn(cycles, w)
  {
  }

  /** Once every node with a successor is finished, some report ends on every cycle. */
  lemma AllReported(r: Rel, finished: seq<Id>, cycles: seq<seq<Id>>)
    requires Distinct(finished) && EdgesSettled(r, finished, cycles)
    requires forall x | Succ(r, x) != {} :: x in finished
    ensures EveryCycleReported(r, cycles)
  {
    forall w | ClosedWalk(r, w) ensures ReportedOn(cycles, w) {
      assert w[0+1] in Succ(r, w[0]);
      var i :| 0 <= i < |finished| && finished[i] == w[0];
      var j := FallOrReport(r, finished, cycles, w, i);
    }
  }

  /** A set closed under successors holds all that its members reach. */
  lemma {:induction false} EnclosedReaches(r: Rel, visited: set<Id>, w: seq<Id>)
    requires Enclosed(r, visited, {}) && Walk(r, w) && w[0] in visited
    ensures w[|w|-1] in visited
    decreases |w|
  {
    if |w| > 1 {
      assert w[0+1] in Succ(r, w[0]);
      WalkSuffix(r, w, 1);
      EnclosedReaches(r, visited, w[1..]);
    }
  }

  /** A node on a cycle that the earlier roots did not reach has root `order[i]` as the least node reaching it. */
  lemma RootIsLeast(r: Rel, visited: set<Id>, order: seq<Id>, i: nat, v: Id)
    requires i < |order| && Enclosed(r, visited, {}) && v !in visited && OnCycle(r, v) && Reaches(r, order[i], v)
    requires Ordered(order) && forall k | 0 <= k < i :: order[k] in visited
    requires forall x | Succ(r, x) != {} :: x in order
    ensures LeastReaching(r, order[i], v)
  {
    forall z | Reaches(r, z, v) ensures Le(order[i], z) {
      ReachesTrans(r, z, v, v);
      var y := ReachesPlusFirst(r, z, v);
      var k :| 0 <= k < |order| && order[k] == z;
      if k < i {
        var w :| WalkBetween(r, w, z, v);
        EnclosedReaches(r, visited, w);
      }
      LeTotal(z, z);
    }
  }

  // ---- the order of the reports ------------------------------------------------------------

  /** The paths agree before position `n`, where `p` has the smaller node. */
  predicate SmallerFrom(p: seq<Id>, q: seq<Id>, n: int)
  {
    0 <= n < |p| && n < |q| && p[..n] == q[..n] && p[n] != q[n] && Le(p[n], q[n])
  }

  ghost predicate LexLess(p: seq<Id>, q: seq<Id>)
  {
    exists n :: SmallerFrom(p, q, n)
  }

  /** The paths come in lexicographic order; in particular none comes twice. */
  ghost predicate Lexical(paths: seq<seq<Id>>)
  {
    forall i, j | 0 <= i < j < |paths| :: LexLess(paths[i], paths[j])
  }

  /** Every path continues `here` with one of `nexts`. */
  ghost predicate Continue(here: seq<Id>, nexts: seq<Id>, paths: seq<seq<Id>>)
  {
    forall i | 0 <= i < |paths| :: |paths[i]| > |here| && here <= paths[i] && paths[i][|here|] in nexts
  }

  lemma LexJoin(here: seq<Id>, nexts: seq<Id>, i: nat, before: seq<seq<Id>>, added: seq<seq<Id>>)
    requires i < |nexts| && Ordered(nexts) && Distinct(nexts)
    requires Lexical(before) && Continue(here, nexts[..i], before)
    requires Lexical(added) && forall k | 0 <= k < |added| :: here + [nexts[i]] <= added[k]
    ensures Lexical(before + added) && Continue(here, nexts[..i+1], before + added)
  {
    var all := before + added;
    forall k | 0 <= k < |all| ensures |all[k]| > |here| && here <= all[k] && all[k][|here|] in nexts[..i+1] {
      if k >= |before| { AddedContinues(here, nexts[i], added[k - |before|]); assert nexts[..i+1][i] == nexts[i]; }
      else { assert nexts[..i] <= nexts[..i+1]; }
    }
    forall a, b | 0 <= a < b < |all| ensures LexLess(all[a], all[b]) {
      if a < |before| <= b {
        var k :| 0 <= k < i && nexts[..i][k] == before[a][|here|];
        AddedContinues(here, nexts[i], added[b - |before|]);
        assert SmallerFrom(all[a], all[b], |here|);
      } else if b < |before| {
        assert LexLess(before[a], before[b]);
      } else {
        assert LexLess(added[a - |before|], added[b - |before|]);
      }
    }
  }

  lemma AddedContinues(here: seq<Id>, next: Id, path: seq<Id>)
    requires here + [next] <= path
    ensures |path| > |here| && here <= path && path[|here|] == next && path[..|here|] == here
  {
    assert (here + [next])[|here|] == next;
    assert path[..|here|] == (here + [next])[..|here|] == here;
  }

  /** What a visit adds: reports in lexicographic order that continue `here` and end off the nodes visited before. */
  ghost predicate Adds(before: seq<seq<Id>>, cycles: seq<seq<Id>>, here: seq<Id>, visited: set<Id>)
  {
    && before <= cycles && Lexical(cycles[|before|..])
    && forall k | |before| <= k < |cycles| ::
         here <= cycles[k] && cycles[k] != [] && cycles[k][|cycles[k]|-1] !in visited
  }

  /** One turn of the loop over successors. */
  lemma AddsMore(first: seq<seq<Id>>, before: seq<seq<Id>>, cycles: seq<seq<Id>>, here: seq<Id>, nexts: seq<Id>, i: nat,
                 visited: set<Id>, now: set<Id>)
    requires i < |nexts| && Ordered(nexts) && Distinct(nexts) && visited <= now
    requires Adds(first, before, here, visited) && Continue(here, nexts[..i], before[|first|..])
    requires Adds(before, cycles, here + [nexts[i]], now)
    ensures Adds(first, cycles, here, visited) && Continue(here, nexts[..i+1], cycles[|first|..])
  {
    var old', new' := before[|first|..], cycles[|before|..];
    forall k | 0 <= k < |new'| ensures here + [nexts[i]] <= new'[k] { assert new'[k] == cycles[|before| + k]; }
    LexJoin(here, nexts, i, old', new');
    assert old' + new' == cycles[|first|..];
    forall k | |first| <= k < |cycles| ensures here <= cycles[k] && cycles[k] != [] && cycles[k][|cycles[k]|-1] !in visited {
      if k < |before| { assert cycles[k] == before[k]; }
      else { AddedContinues(here, nexts[i], cycles[k]); }
    }
  }

  /** The first `i` successors of `nid` are visited, or reported as back edges. */
  ghost predicate Handled(deps: seq<Id>, i: nat, nid: Id, visited: set<Id>, active: set<Id>, cycles: seq<seq<Id>>)
    requires i <= |deps|
  {
    forall k | 0 <= k < i :: deps[k] in visited || (deps[k] in active && BackEdge(cycles, nid, deps[k]))
  }

  lemma HandledMore(deps: seq<Id>, i: nat, nid: Id, visited: set<Id>, active: set<Id>, before: seq<seq<Id>>,
                    now: set<Id>, cycles: seq<seq<Id>>)
    requires i < |deps| && Handled(deps, i, nid, visited, active, before) && visited <= now && before <= cycles
    requires deps[i] in now || (deps[i] in active && BackEdge(cycles, nid, deps[i]))
    ensures Handled(deps, i + 1, nid, now, active, cycles)
  {
    forall k | 0 <= k < i && deps[k] !in now ensures BackEdge(cycles, nid, deps[k]) {
      BackEdgeStays(before, cycles, nid, deps[k]);
    }
  }

  // ---- the search as it runs ----------------------------------------------------------------

  /** `visit` with its shared sets; `cycles` are the paths reported so far. The relation searched is `rel`, given by
      the adjacency `adj`. */
  class Search {
    const adj: Rel
    ghost const rel: Rel
    ghost const universe: set<Id>
    var visited: set<Id>
    var active: set<Id>
    var cycles: seq<seq<Id>>
    ghost var finished: seq<Id>

    constructor (adj: Rel, ghost rel: Rel, ghost universe: set<Id>)
      requires forall x :: Succ(adj, x) == Succ(rel, x)
      requires forall x | x in universe :: Succ(rel, x) <= universe
      ensures this.rel == rel && this.universe == universe
      ensures Valid([]) && cycles == [] && visited == {}
    {
      this.adj, this.rel := adj, rel;
      this.universe := universe;
      visited, active := {}, {};
      cycles := [];
      finished := [];
    }

    ghost predicate Faithful()
    {
      && (forall x :: Succ(adj, x) == Succ(rel, x))
      && (forall x | x in universe :: Succ(rel, x) <= universe)
    }

    ghost predicate Valid(path: seq<Id>)
      reads this
    {
      && Faithful()
      && active <= universe && visited !! active
      && active == (set x | x in path) && Distinct(path)
      && visited == (set x | x in finished) && Distinct(finished)
      && (forall i {:trigger Lasso(rel, cycles[i])} | 0 <= i < |cycles| :: Lasso(rel, cycles[i]))
      && EdgesSettled(rel, finished, cycles)
      && Enclosed(rel, visited, active)
    }

    twostate predicate Progress(here: seq<Id>)
      reads this
    {
      active == old(active) && old(visited) <= visited && Adds(old(cycles), cycles, here, old(visited))
    }

    method Visit(nid: Id, path: seq<Id>)
      requires Valid(path) && nid in universe && Walk(rel, path + [nid])
      modifies this
      ensures Valid(path) && Progress(path + [nid])
      ensures nid in visited || (path != [] && nid in active && BackEdge(cycles, path[|path|-1], nid))
      decreases universe - active, 1
    {
      if nid in active {
        Report(nid, path);
        return;
      }
      if nid in visited {
        return;
      }
      active := active + {nid};
      VisitAll(nid, path + [nid]);
      active := active - {nid};
      FinishSettles(rel, finished, cycles, nid);
      visited := visited + {nid};
      finished := finished + [nid];
    }

    /** A visit from the top, where no node is active. */
    method VisitRoot(nid: Id)
      requires Valid([]) && nid in universe
      modifies this
      ensures Valid([]) && nid in visited && Enclosed(rel, old(visited), {})
      ensures old(visited) <= visited && old(cycles) <= cycles && Lexical(cycles[|old(cycles)|..])
      ensures forall k | |old(cycles)| <= k < |cycles| ::
        [nid] <= cycles[k] && cycles[k][|cycles[k]|-1] !in old(visited)
    {
      assert active == {} && [] + [nid] == [nid];
      Visit(nid, []);
    }

    method Report(nid: Id, path: seq<Id>)
      requires Valid(path) && nid in active && Walk(rel, path + [nid])
      modifies this`cycles
      ensures Valid(path) && cycles == old(cycles) + [path + [nid]]
      ensures path != [] && BackEdge(cycles, path[|path|-1], nid)
    {
      var p := path + [nid];
      assert p[..|path|] == path;
      SettledStays(rel, finished, cycles, cycles + [p]);
      cycles := cycles + [p];
      assert EndsWith(cycles[|cycles|-1], path[|path|-1], nid);
    }

    /** The loop over the sorted successors of `nid`, the last node of `here`. */
    method VisitAll(nid: Id, here: seq<Id>)
      requires Valid(here) && nid in universe && here != [] && here[|here|-1] == nid && Walk(rel, here)
      modifies this
      ensures Valid(here) && Progress(here)
      ensures forall y | y in Succ(rel, nid) :: y in visited || (y in active && BackEdge(cycles, nid, y))
      decreases universe - active, 2
    {
      var deps := Sorted(Succ(adj, nid));
      for i := 0 to |deps|
        invariant Valid(here) && Progress(here) && Continue(here, deps[..i], cycles[|old(cycles)|..])
        invariant Handled(deps, i, nid, visited, active, cycles)
      {
        assert deps[i] in deps && Walk(rel, here + [deps[i]]);
        ghost var before, seen := cycles, visited;
        Visit(deps[i], here);
        AddsMore(old(cycles), before, cycles, here, deps, i, old(visited), seen);
        HandledMore(deps, i, nid, seen, active, before, visited, cycles);
      }
      forall y | y in Succ(rel, nid) ensures y in visited || (y in active && BackEdge(cycles, nid, y)) {
        assert y in deps;
      }
    }
  }

  /** The first `i` roots are searched, and every report so far starts at one of them. */
  ghost predicate RootsDone(r: Rel, order: seq<Id>, i: nat, visited: set<Id>, cycles: seq<seq<Id>>)
  {
    && i <= |order| && (forall k | 0 <= k < i :: order[k] in visited)
    && ReportsRooted(r, cycles) && RootsInOrder(cycles)
    && Lexical(cycles) && Continue([], order[..i], cycles)
    && (i < |order| ==> forall k | 0 <= k < |cycles| :: cycles[k] != [] && Le(cycles[k][0], order[i]))
  }

  lemma RootDone(r: Rel, order: seq<Id>, i: nat, visited: set<Id>, before: seq<seq<Id>>, now: set<Id>, cycles: seq<seq<Id>>)
    requires RootsDone(r, order, i, visited, before) && i < |order| && Ordered(order) && Enclosed(r, visited, {})
    requires forall x | Succ(r, x) != {} :: x in order
    requires visited <= now && order[i] in now
    requires before <= cycles && forall k {:trigger Lasso(r, cycles[k])} | 0 <= k < |cycles| :: Lasso(r, cycles[k])
    requires forall k | |before| <= k < |cycles| ::
      [order[i]] <= cycles[k] && cycles[k][|cycles[k]|-1] !in visited
    requires Distinct(order) && Lexical(cycles[|before|..])
    ensures RootsDone(r, order, i + 1, now, cycles)
  {
    var added := cycles[|before|..];
    forall k | 0 <= k < |added| ensures [] + [order[i]] <= added[k] { assert added[k] == cycles[|before| + k]; }
    LexJoin([], order, i, before, added);
    assert before + added == cycles;
    RootedFrom(r, visited, order, i, before, cycles);
    LaterRoots(before, cycles, order, i);
  }

  /** The search from every node in sorted order. */
  method SearchAll(nodes: set<Id>, adj: Rel, ghost rel: Rel, ghost universe: set<Id>) returns (cycles: seq<seq<Id>>)
    requires forall x :: Succ(adj, x) == Succ(rel, x)
    requires forall x | Succ(rel, x) != {} :: x in nodes
    requires nodes <= universe && forall x :: Succ(rel, x) <= universe
    ensures ReportsRooted(rel, cycles) && EveryCycleReported(rel, cycles) && RootsInOrder(cycles) && Lexical(cycles)
  {
    var search := new Search(adj, rel, universe);
    var order := Sorted(nodes);
    for i := 0 to |order|
      invariant search.Valid([]) && search.rel == rel && search.universe == universe
      invariant RootsDone(rel, order, i, search.visited, search.cycles)
    {
      assert order[i] in order;
      ghost var visited, before := search.visited, search.cycles;
      search.VisitRoot(order[i]);
      RootDone(rel, order, i, visited, before, search.visited, search.cycles);
    }
    cycles := search.cycles;
    AllReported(rel, search.finished, cycles);
  }

  /** The reports a root adds are rooted there. */
  lemma RootedFrom(r: Rel, visited: set<Id>, order: seq<Id>, i: nat, before: seq<seq<Id>>, cycles: seq<seq<Id>>)
    requires i < |order| && Ordered(order) && Enclosed(r, visited, {}) && forall k | 0 <= k < i :: order[k] in visited
    requires forall x | Succ(r, x) != {} :: x in order
    requires before <= cycles && ReportsRooted(r, before) && forall k {:trigger Lasso(r, cycles[k])} | 0 <= k < |cycles| :: Lasso(r, cycles[k])
    requires forall k | |before| <= k < |cycles| ::
      [order[i]] <= cycles[k] && cycles[k][|cycles[k]|-1] !in visited
    ensures ReportsRooted(r, cycles)
  {
    forall k | 0 <= k < |cycles| ensures Rooted(r, cycles[k]) {
      if k < |before| {
        assert Rooted(r, before[k]) && cycles[k] == before[k];
      } else {
        LassoLeads(r, cycles[k]);
        RootIsLeast(r, visited, order, i, cycles[k][|cycles[k]|-1]);
      }
    }
  }

  lemma LaterRoots(before: seq<seq<Id>>, cycles: seq<seq<Id>>, order: seq<Id>, i: nat)
    requires i < |order| && Ordered(order) && before <= cycles && RootsInOrder(before)
    requires forall k | 0 <= k < |before| :: before[k] != [] && Le(before[k][0], order[i])
    requires forall k | |before| <= k < |cycles| :: cycles[k] != [] && cycles[k][0] == order[i]
    ensures RootsInOrder(cycles)
    ensures i + 1 < |order| ==> forall k | 0 <= k < |cycles| :: cycles[k] != [] && Le(cycles[k][0], order[i+1])
  {
    LeTotal(order[i], order[i]);
    forall k | 0 <= k < |before| ensures cycles[k] == before[k] { }
    if i + 1 < |order| {
      forall k | 0 <= k < |cycles| ensures cycles[k] != [] && Le(cycles[k][0], order[i+1]) {
        assert Le(order[i], order[i+1]);
        LeTransitive(cycles[k][0], order[i], order[i+1]);
      }
    }
  }
}
