/** The layered order of milestones (tools/graph.py:619-628). */
module TopoMilestones {
  import opened Ids
  import opened Text
  import opened Digraph
  import opened ProjectGraph
  import opened DependencyFindings
  import opened Waves

  /** Each milestone with the set of its `depends_on` targets. */
  function MilestoneDeps(g: Graph): (ms: Rel)
    ensures forall m :: m in ms <==> IsMilestone(g, m)
    ensures forall m, d :: d in Succ(ms, m) <==> IsMilestone(g, m) && Edge(m, d, DependsOn) in g.edges
  {
    map m | m in g.nodes && g.nodes[m].kind == Milestone :: set d | d in Outs(g, m, DependsOn)
  }

  /** The list goes by layer, and by id within a layer. */
  ghost predicate ByLayer(order: seq<Id>, layer: map<Id, nat>)
    requires forall x | x in order :: x in layer
  {
    forall i, j | 0 <= i < j < |order| ::
      layer[order[i]] < layer[order[j]] || (layer[order[i]] == layer[order[j]] && Le(order[i], order[j]))
  }

  /** What is ordered so far: some milestones, each once and after everything it depends on. */
  ghost predicate Placed(ms: Rel, done: set<Id>, order: seq<Id>)
  {
    && done == (set x | x in order) && done <= ms.Keys
    && Distinct(order) && |order| == |done| && FinishedInOrder(ms, order)
  }

  /** The layer of a milestone is the round it was taken in: one more than the highest among its dependencies. */
  ghost predicate Layered(ms: Rel, done: set<Id>, order: seq<Id>, layer: map<Id, nat>, round: nat)
  {
    && layer.Keys == done && (forall x | x in layer :: layer[x] < round) && WavesRight(ms, layer)
    && (forall x | x in order :: x in layer) && ByLayer(order, layer)
  }

  /** What is left could not have been taken in the last round. */
  ghost predicate LeftOver(ms: Rel, done: set<Id>, layer: map<Id, nat>, round: nat)
  {
    forall m | m in ms && m !in done && round > 0 :: exists d :: LateDep(ms, layer, round, m, d)
  }

  /** Milestone `m` depends on something that was not there before the last round. */
  predicate LateDep(ms: Rel, layer: map<Id, nat>, round: nat, m: Id, d: Id)
  {
    m in ms && d in ms[m] && (d !in layer || layer[d] + 1 == round)
  }

  /** The layers once `ready` is taken in round `round`. */
  ghost function WithLayer(layer: map<Id, nat>, ready: seq<Id>, round: nat): map<Id, nat>
  {
    map x | x in layer.Keys + (set y | y in ready) :: if x in layer then layer[x] else round
  }

  /** The members of `ready` are what the round takes: not done, with all dependencies done. */
  ghost predicate Takes(ms: Rel, done: set<Id>, ready: seq<Id>)
  {
    && Distinct(ready) && Ordered(ready)
    && forall x :: x in ready <==> x in ms && x !in done && ms[x] <= done
  }

  lemma LayerRight(ms: Rel, done: set<Id>, layer: map<Id, nat>, round: nat, ready: seq<Id>)
    requires layer.Keys == done && WavesRight(ms, layer) && (forall x | x in layer :: layer[x] < round)
    requires LeftOver(ms, done, layer, round) && Takes(ms, done, ready)
    ensures WavesRight(ms, WithLayer(layer, ready, round))
  {
    var now := WithLayer(layer, ready, round);
    forall x | x in now ensures WaveEntry(ms, now, x) {
      if x in layer {
        assert WaveEntry(ms, layer, x);
        WaveEntryStays(ms, layer, now, x);
      } else {
        assert x in ready && Succ(ms, x) <= done;
        if round > 0 {
          var d :| LateDep(ms, layer, round, x, d);
          assert d in Succ(ms, x) && now[d] + 1 == now[x];
        }
      }
    }
  }

  lemma LayerOrder(order: seq<Id>, layer: map<Id, nat>, round: nat, ready: seq<Id>)
    requires (forall x | x in order :: x in layer) && ByLayer(order, layer) && (forall x | x in layer :: layer[x] < round)
    requires Ordered(ready) && forall x | x in ready :: x !in layer
    ensures forall x | x in order + ready :: x in WithLayer(layer, ready, round)
    ensures ByLayer(order + ready, WithLayer(layer, ready, round))
  {
    var now := WithLayer(layer, ready, round);
    var f := order + ready;
    forall i, j | 0 <= i < j < |f| ensures now[f[i]] < now[f[j]] || (now[f[i]] == now[f[j]] && Le(f[i], f[j])) {
      if j < |order| {
        assert f[i] == order[i] && f[j] == order[j];
      } else {
        assert f[j] in ready && now[f[j]] == round;
        if i < |order| { assert f[i] in order && now[f[i]] < round; }
        else { assert f[i] in ready && f[i] == ready[i - |order|] && f[j] == ready[j - |order|]; }
      }
    }
  }

  lemma NextPlaced(ms: Rel, done: set<Id>, order: seq<Id>, ready: seq<Id>)
    requires Placed(ms, done, order) && Takes(ms, done, ready)
    ensures Placed(ms, done + (set x | x in ready), order + ready)
  {
    AppendLayer(ms, order, ready);
    DistinctSize(order + ready);
    assert (set x | x in order + ready) == done + (set x | x in ready);
  }

  lemma NextLeftOver(ms: Rel, done: set<Id>, layer: map<Id, nat>, round: nat, ready: seq<Id>)
    requires layer.Keys == done && Takes(ms, done, ready)
    ensures LeftOver(ms, done + (set x | x in ready), WithLayer(layer, ready, round), round + 1)
  {
    var now, next := WithLayer(layer, ready, round), round + 1;
    var all := done + set x | x in ready;
    forall m | m in ms && m !in all ensures exists d :: LateDep(ms, now, next, m, d) {
      assert m !in ready;
      var d :| d in ms[m] && d !in done;
      assert LateDep(ms, now, next, m, d);
    }
  }

  lemma NextLayered(ms: Rel, done: set<Id>, order: seq<Id>, layer: map<Id, nat>, round: nat, ready: seq<Id>)
    requires Layered(ms, done, order, layer, round) && LeftOver(ms, done, layer, round) && Takes(ms, done, ready)
    ensures Layered(ms, done + (set x | x in ready), order + ready, WithLayer(layer, ready, round), round + 1)
  {
    LayerRight(ms, done, layer, round, ready);
    LayerOrder(order, layer, round, ready);
  }

  /** The order, or None where the source exits with "cycle in milestone dependencies". */
  method Topo(g: Graph) returns (result: Option<seq<Id>>, ghost layer: map<Id, nat>)
    ensures result.Some? <==>
      Acyclic(MilestoneDeps(g)) && forall m, d | d in Succ(MilestoneDeps(g), m) :: IsMilestone(g, d)
    ensures result.Some? ==>
      && Distinct(result.value)
      && (forall m :: m in result.value <==> IsMilestone(g, m))
      && FinishedInOrder(MilestoneDeps(g), result.value)
      // by the length of the longest chain of dependencies below, then by id
      && (forall m | m in result.value :: m in layer && Longest(MilestoneDeps(g), m, layer[m]))
      && ByLayer(result.value, layer)
  {
    var ms := MilestoneDeps(g);
    var done: set<Id>, order: seq<Id> := {}, [];
    ghost var round := 0;
    layer := map[];
    while |order| < |ms.Keys|
      invariant Placed(ms, done, order) && Layered(ms, done, order, layer, round) && LeftOver(ms, done, layer, round)
      decreases ms.Keys - done
    {
      var free := set m | m in ms && m !in done && ms[m] <= done;
      var ready := Sorted(free);
      if ready == [] {
        forall m | m in ms && m !in done ensures !(ms[m] <= done) {
          assert m !in ready && m !in free;
        }
        NoneReady(g, ms, done);
        return None, layer;
      }
      assert ready[0] in ready;
      NextPlaced(ms, done, order, ready);
      NextLayered(ms, done, order, layer, round, ready);
      NextLeftOver(ms, done, layer, round, ready);
      layer, round := WithLayer(layer, ready, round), round + 1;
      order := order + ready;
      done := done + set x | x in ready;
    }
    FullSubset(done, ms.Keys);
    FullOrder(g, ms, order);
    result := Some(order);
    forall m | m in order ensures Longest(ms, m, layer[m]) { RightWaveIsLongest(ms, layer, m); }
  }

  /** An order of all milestones in which every dependency comes first. */
  lemma FullOrder(g: Graph, ms: Rel, order: seq<Id>)
    requires ms == MilestoneDeps(g) && Distinct(order) && FinishedInOrder(ms, order)
    requires forall m :: m in order <==> IsMilestone(g, m)
    ensures Acyclic(ms) && forall m, d | d in Succ(ms, m) :: IsMilestone(g, d)
  {
    OrderIsAcyclic(ms, order);
    forall m, d | d in Succ(ms, m) ensures IsMilestone(g, d) {
      var i :| 0 <= i < |order| && order[i] == m;
      assert d in order[..i];
    }
  }

  lemma {:induction false} DistinctSize(s: seq<Id>)
    requires Distinct(s)
    ensures |s| == |set x | x in s|
  {
    if s != [] {
      var n := |s| - 1;
      DistinctSize(s[..n]);
      assert (set x | x in s) == (set x | x in s[..n]) + {s[n]};
    }
  }

  lemma FullSubset(a: set<Id>, b: set<Id>)
    requires a <= b && |a| >= |b|
    ensures a == b
  {
    if x :| x in b && x !in a {
      assert a <= b - {x};
      SubsetSize(a, b - {x});
    }
  }

  lemma AppendLayer(ms: Rel, order: seq<Id>, ready: seq<Id>)
    requires Distinct(order) && Distinct(ready) && FinishedInOrder(ms, order)
    requires forall x | x in ready :: x !in order && forall y | y in Succ(ms, x) :: y in order
    ensures Distinct(order + ready) && FinishedInOrder(ms, order + ready)
  {
    var f := order + ready;
    forall i, j | 0 <= i < j < |f| ensures f[i] != f[j] {
      if i < |order| <= j { assert f[j] in ready && f[i] in order; }
    }
    forall i, y | 0 <= i < |f| && y in Succ(ms, f[i]) ensures y in f[..i] {
      if i < |order| {
        assert f[..i] == order[..i];
      } else {
        assert f[i] in ready && f[..i] == order + ready[..i - |order|];
      }
    }
  }

  /** With nothing ready, the milestones left over hold a cycle or depend on something that is no milestone. */
  lemma NoneReady(g: Graph, ms: Rel, done: set<Id>)
    requires ms == MilestoneDeps(g) && done <= ms.Keys && done != ms.Keys
    requires forall m | m in ms && m !in done :: !(ms[m] <= done)
    ensures !Acyclic(ms) || exists m, d | d in Succ(ms, m) :: !IsMilestone(g, d)
  {
    if Acyclic(ms) && forall m, d | d in Succ(ms, m) :: IsMilestone(g, d) {
      var left :| left in ms.Keys && left !in done;
      assert left in ms.Keys - done;
      var x := SinkExists(ms, ms.Keys - done);
      var d :| d in ms[x] && d !in done;
      assert d in Succ(ms, x) * (ms.Keys - done);
    }
  }

  /** A graph without findings always has an order. */
  lemma CleanHasOrder(g: Graph)
    requires MilestonesKnown(g) && Clean(g)
    ensures Acyclic(MilestoneDeps(g)) && forall m, d | d in Succ(MilestoneDeps(g), m) :: IsMilestone(g, d)
  {
    var ms := MilestoneDeps(g);
    forall m, d | d in Succ(ms, m) ensures IsMilestone(g, d) && d in Succ(Combined(g), m) {
      var e := Edge(m, d, DependsOn);
      assert e in g.edges && EdgeFinding(g, e).None?;
      assert Direct(g, g.edges, m, d);
    }
    SubAcyclic(ms, Combined(g));
  }
}
