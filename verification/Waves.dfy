/** The memoised layers and blockers of a plan (tools/graph.py:463-491). */
module Waves {
  import opened Ids
  import opened Digraph

  // ---- what the memo tables mean ------------------------------------------------------

  ghost predicate WalkFrom(r: Rel, w: seq<Id>, x: Id)
  {
    Walk(r, w) && w[0] == x
  }

  /** Some walk from `x` has `n` edges. */
  ghost predicate HasWalk(r: Rel, x: Id, n: nat)
  {
    exists w :: WalkFrom(r, w, x) && |w| == n + 1
  }

  lemma NoStep(r: Rel, x: Id)
    ensures HasWalk(r, x, 0)
  {
    assert WalkFrom(r, [x], x);
  }

  lemma OneStepMore(r: Rel, x: Id, d: Id, n: nat)
    requires d in Succ(r, x) && HasWalk(r, d, n)
    ensures HasWalk(r, x, n + 1)
  {
    var w :| WalkFrom(r, w, d) && |w| == n + 1;
    assert WalkFrom(r, [x] + w, x);
  }

  /** The longest walk from `x` has `n` edges. */
  ghost predicate Longest(r: Rel, x: Id, n: nat)
  {
    && HasWalk(r, x, n)
    && (forall w :: WalkFrom(r, w, x) ==> |w| <= n + 1)
  }

  /** The blocked nodes reachable from `x` by at least one edge. */
  ghost function Blockers(r: Rel, blocked: set<Id>, x: Id): set<Id>
  {
    set b | b in blocked && ReachesPlus(r, x, b)
  }

  // ---- tables that are right entry by entry ---------------------------------------------

  /** The entry of `x` is one more than the highest entry among its successors, or zero without any. */
  ghost predicate WaveEntry(r: Rel, wave: map<Id, nat>, x: Id)
    requires x in wave
  {
    && Succ(r, x) <= wave.Keys
    && (forall d | d in Succ(r, x) :: wave[d] < wave[x])
    && (wave[x] == 0 || exists d :: d in Succ(r, x) && wave[d] + 1 == wave[x])
  }

  /** What is held through successor `d`: itself when blocked, and what is listed for it. */
  ghost function Through(blocked: set<Id>, held: map<Id, set<Id>>, d: Id): set<Id>
  {
    (if d in blocked then {d} else {}) + (if d in held then held[d] else {})
  }

  ghost function Gathered(blocked: set<Id>, held: map<Id, set<Id>>, done: set<Id>): set<Id>
  {
    set d, b | d in done && b in Through(blocked, held, d) :: b
  }

  /** The entry of `x` is what is held through its successors. */
  ghost predicate HeldEntry(r: Rel, blocked: set<Id>, held: map<Id, set<Id>>, x: Id)
    requires x in held
  {
    Succ(r, x) <= held.Keys && held[x] == Gathered(blocked, held, Succ(r, x))
  }

  ghost predicate WavesRight(r: Rel, wave: map<Id, nat>)
  {
    forall x {:trigger WaveEntry(r, wave, x)} | x in wave :: WaveEntry(r, wave, x)
  }

  ghost predicate HeldRight(r: Rel, blocked: set<Id>, held: map<Id, set<Id>>)
  {
    forall x {:trigger HeldEntry(r, blocked, held, x)} | x in held :: HeldEntry(r, blocked, held, x)
  }

  lemma WalkTail(r: Rel, w: seq<Id>)
    requires Walk(r, w) && |w| >= 2
    ensures w[1] in Succ(r, w[0]) && WalkFrom(r, w[1..], w[1])
  {
    assert w[0+1] in Succ(r, w[0]);
    forall i | 0 <= i < |w[1..]| - 1 ensures w[1..][i+1] in Succ(r, w[1..][i]) {
      assert w[i+1+1] in Succ(r, w[i+1]);
    }
  }

  lemma {:induction false} WalkBounded(r: Rel, wave: map<Id, nat>, w: seq<Id>)
    requires WavesRight(r, wave) && Walk(r, w) && w[0] in wave
    ensures |w| <= wave[w[0]] + 1
    decreases |w|
  {
    if |w| >= 2 {
      WalkTail(r, w);
      assert WaveEntry(r, wave, w[0]);
      WalkBounded(r, wave, w[1..]);
    }
  }

  lemma {:induction false} WalkAttained(r: Rel, wave: map<Id, nat>, x: Id) returns (w: seq<Id>)
    requires WavesRight(r, wave) && x in wave
    ensures WalkFrom(r, w, x) && |w| == wave[x] + 1
    decreases wave[x]
  {
    assert WaveEntry(r, wave, x);
    if wave[x] == 0 {
      w := [x];
    } else {
      var d :| d in Succ(r, x) && wave[d] + 1 == wave[x];
      var v := WalkAttained(r, wave, d);
      w := [x] + v;
    }
  }

  /** A table that is right entry by entry holds the longest-path lengths. */
  lemma RightWaveIsLongest(r: Rel, wave: map<Id, nat>, x: Id)
    requires WavesRight(r, wave) && x in wave
    ensures Longest(r, x, wave[x])
  {
    var w := WalkAttained(r, wave, x);
    forall v | WalkFrom(r, v, x) ensures |v| <= wave[x] + 1 { WalkBounded(r, wave, v); }
  }

  /** A table that is right entry by entry holds exactly the blockers, when the waves are right too. */
  lemma {:induction false} RightHeldIsBlockers(r: Rel, wave: map<Id, nat>, blocked: set<Id>, held: map<Id, set<Id>>, x: Id)
    requires WavesRight(r, wave) && HeldRight(r, blocked, held) && x in held && x in wave
    ensures held[x] == Blockers(r, blocked, x)
    decreases wave[x]
  {
    assert HeldEntry(r, blocked, held, x) && WaveEntry(r, wave, x);
    forall b ensures b in held[x] <==> b in Blockers(r, blocked, x) {
      if b in held[x] {
        var d :| d in Succ(r, x) && b in Through(blocked, held, d);
        RightHeldIsBlockers(r, wave, blocked, held, d);
        HeldStep(r, blocked, x, d, b);
      }
      if b in blocked && ReachesPlus(r, x, b) {
        var d := ReachesPlusFirst(r, x, b);
        RightHeldIsBlockers(r, wave, blocked, held, d);
        if d != b { PlusOfReaches(r, d, b); }
        assert b in Through(blocked, held, d);
      }
    }
  }

  lemma HeldStep(r: Rel, blocked: set<Id>, x: Id, d: Id, b: Id)
    requires d in Succ(r, x) && ((d == b && d in blocked) || b in Blockers(r, blocked, d))
    ensures b in Blockers(r, blocked, x)
  {
    if d == b { ReachesRefl(r, d); } else { ReachesOfPlus(r, d, b); }
    ReachesStep(r, x, d, b);
  }

  lemma HeldBelow(r: Rel, blocked: set<Id>, x: Id, d: Id, more: set<Id>)
    requires d in Succ(r, x) && more <= Blockers(r, blocked, d)
    ensures (d in blocked ==> d in Blockers(r, blocked, x)) && more <= Blockers(r, blocked, x)
  {
    if d in blocked { HeldStep(r, blocked, x, d, d); }
    forall b | b in more ensures b in Blockers(r, blocked, x) { HeldStep(r, blocked, x, d, b); }
  }

  lemma ReachesOfPlus(r: Rel, a: Id, b: Id)
    requires ReachesPlus(r, a, b)
    ensures Reaches(r, a, b)
  {
    var w :| WalkBetween(r, w, a, b) && |w| >= 2;
  }

  lemma PlusOfReaches(r: Rel, a: Id, b: Id)
    requires Reaches(r, a, b) && a != b
    ensures ReachesPlus(r, a, b)
  {
    var w :| WalkBetween(r, w, a, b);
    assert |w| >= 2;
  }

  /** The successor of a node is at least one layer lower. */
  lemma WaveDescends(r: Rel, x: Id, n: nat, d: Id, m: nat)
    requires Longest(r, x, n) && d in Succ(r, x) && Longest(r, d, m)
    ensures m < n
  {
    var v :| WalkFrom(r, v, d) && |v| == m + 1;
    assert WalkFrom(r, [x] + v, x);
  }

  // ---- the recursion path -------------------------------------------------------------------

  /** Every node of the recursion path ranks above `x`. */
  ghost predicate PathAbove(rank: map<Id, nat>, path: seq<Id>, x: Id)
  {
    x in rank && forall y | y in path :: y in rank && rank[x] < rank[y]
  }

  /** `rank` falls along every edge. */
  ghost predicate Falls(r: Rel, rank: map<Id, nat>)
  {
    r.Keys <= rank.Keys && forall x, d | x in r && d in r[x] :: d in rank && rank[d] < rank[x]
  }

  /** The nodes that are not on the path: what a recursion has left. */
  ghost function OffPath(r: Rel, path: seq<Id>): nat
  {
    |r.Keys - set x | x in path|
  }

  lemma OffPathShrinks(r: Rel, path: seq<Id>, x: Id)
    requires x in r && x !in path
    ensures OffPath(r, path + [x]) < OffPath(r, path)
  {
    var off, off' := r.Keys - (set y | y in path), r.Keys - (set y | y in path + [x]);
    assert x in path + [x] && forall y | y in path :: y in path + [x];
    assert off' <= off - {x};
    SubsetSize(off', off - {x});
  }

  lemma PathAboveStep(r: Rel, rank: map<Id, nat>, path: seq<Id>, x: Id, d: Id)
    requires Falls(r, rank) && PathAbove(rank, path, x) && x in r && d in r[x]
    ensures PathAbove(rank, path + [x], d)
  {
  }

  // ---- the memoised recursions --------------------------------------------------------

  /** `now` has every entry of `before`, unchanged, and no new one for a node of `path`. */
  ghost predicate Grew<V>(before: map<Id, V>, now: map<Id, V>, path: seq<Id>)
  {
    && (forall x | x in before :: x in now && now[x] == before[x])
    && (forall x | x in path && x !in before :: x !in now)
  }

  lemma GrewTransitive<V>(a: map<Id, V>, b: map<Id, V>, c: map<Id, V>, path: seq<Id>)
    requires Grew(a, b, path) && Grew(b, c, path)
    ensures Grew(a, c, path)
  {
  }

  lemma MoveOver(done: set<Id>, todo: set<Id>, d: Id)
    requires d in todo
    ensures (done + {d}) + (todo - {d}) == done + todo && done + {d} != {}
  {
    assert d in done + {d};
  }

  function Higher(w: nat, v: nat): nat
  {
    if v + 1 > w then v + 1 else w
  }

  /** `w` is one more than the highest entry over `done`, or zero when that is empty. */
  ghost predicate AboveAll(wave: map<Id, nat>, done: set<Id>, w: nat)
  {
    && done <= wave.Keys
    && (forall d | d in done :: wave[d] < w)
    && (w == 0 || exists d :: d in done && wave[d] + 1 == w)
  }

  lemma AboveOneMore(wave: map<Id, nat>, now: map<Id, nat>, done: set<Id>, w: nat, d: Id, v: nat)
    requires AboveAll(wave, done, w) && (forall x | x in wave :: x in now && now[x] == wave[x])
    requires d in now && now[d] == v
    ensures AboveAll(now, done + {d}, Higher(w, v))
  {
    if v + 1 > w {
      assert d in done + {d} && now[d] + 1 == v + 1;
    } else {
      var e :| e in done && wave[e] + 1 == w;
      assert e in done + {d};
    }
  }

  lemma WaveEntryStays(r: Rel, wave: map<Id, nat>, now: map<Id, nat>, y: Id)
    requires y in wave && WaveEntry(r, wave, y) && forall x | x in wave :: x in now && now[x] == wave[x]
    ensures WaveEntry(r, now, y)
  {
    if wave[y] != 0 {
      var d :| d in Succ(r, y) && wave[d] + 1 == wave[y];
      assert now[d] + 1 == now[y];
    }
  }

  lemma NewWaveRight(r: Rel, wave: map<Id, nat>, x: Id, w: nat)
    requires WavesRight(r, wave) && x !in wave && AboveAll(wave, Succ(r, x), w)
    ensures WavesRight(r, wave[x := w])
  {
    var now := wave[x := w];
    forall y | y in now ensures WaveEntry(r, now, y) {
      if y != x {
        assert WaveEntry(r, wave, y);
        WaveEntryStays(r, wave, now, y);
      } else if w != 0 {
        var d :| d in Succ(r, x) && wave[d] + 1 == w;
        assert now[d] + 1 == w;
      }
    }
  }

  lemma GatheredStays(blocked: set<Id>, held: map<Id, set<Id>>, now: map<Id, set<Id>>, done: set<Id>)
    requires done <= held.Keys && forall x | x in held :: x in now && now[x] == held[x]
    ensures Gathered(blocked, now, done) == Gathered(blocked, held, done)
  {
    assert forall d | d in done :: Through(blocked, now, d) == Through(blocked, held, d);
  }

  /** `found` is what is held through the successors in `done`. */
  ghost predicate Collected(blocked: set<Id>, held: map<Id, set<Id>>, done: set<Id>, found: set<Id>)
  {
    done <= held.Keys && found == Gathered(blocked, held, done)
  }

  /** One turn of the loop over prerequisites. */
  function Added(blocked: set<Id>, found: set<Id>, d: Id, more: set<Id>): set<Id>
  {
    (if d in blocked then found + {d} else found) + more
  }

  lemma CollectedOneMore(blocked: set<Id>, held: map<Id, set<Id>>, now: map<Id, set<Id>>, done: set<Id>, found: set<Id>, d: Id)
    requires Collected(blocked, held, done, found) && (forall x | x in held :: x in now && now[x] == held[x]) && d in now
    ensures Collected(blocked, now, done + {d}, Added(blocked, found, d, now[d]))
  {
    GatheredStays(blocked, held, now, done);
    assert Added(blocked, found, d, now[d]) == found + Through(blocked, now, d);
    assert d in done + {d} && forall e | e in done :: e in done + {d};
    assert Gathered(blocked, now, done + {d}) == found + Through(blocked, now, d);
  }

  lemma NewHeldRight(r: Rel, blocked: set<Id>, held: map<Id, set<Id>>, x: Id, found: set<Id>)
    requires HeldRight(r, blocked, held) && x !in held
    requires Collected(blocked, held, Succ(r, x), found)
    ensures HeldRight(r, blocked, held[x := found])
  {
    var now := held[x := found];
    forall y | y in now ensures HeldEntry(r, blocked, now, y) {
      if y != x { assert HeldEntry(r, blocked, held, y); }
      GatheredStays(blocked, held, now, Succ(r, y));
    }
  }

  class Planner {
    const prereq: Rel
    const blocked: set<Id>
    ghost const acyclic: bool
    ghost const rank: map<Id, nat>
    var wave: map<Id, nat>
    var held: map<Id, set<Id>>

    constructor (prereq: Rel, blocked: set<Id>)
      requires forall x | x in prereq :: prereq[x] <= prereq.Keys
      ensures this.prereq == prereq && this.blocked == blocked && acyclic == Acyclic(prereq)
      ensures Faithful() && wave == map[] && held == map[]
    {
      this.prereq := prereq;
      this.blocked := blocked;
      wave, held := map[], map[];
      ghost var found: map<Id, nat> := map[];
      if Acyclic(prereq) { found := RankExists(prereq, prereq.Keys); }
      acyclic, rank := Acyclic(prereq), found;
    }

    /** The relation stays among its own nodes, and ranks them when it has no cycle. */
    ghost predicate Faithful()
    {
      (forall x | x in prereq :: prereq[x] <= prereq.Keys) && (acyclic ==> Falls(prereq, rank))
    }

    ghost predicate WavesValid()
      reads this
    {
      && wave.Keys <= prereq.Keys
      && (forall x | x in wave :: (wave[x] == 0 <==> prereq[x] == {}) && HasWalk(prereq, x, wave[x]))
      && (acyclic ==> WavesRight(prereq, wave))
    }

    ghost predicate HeldValid()
      reads this
    {
      && held.Keys <= prereq.Keys && (forall x | x in held :: held[x] <= Blockers(prereq, blocked, x))
      && (acyclic ==> HeldRight(prereq, blocked, held))
    }

    /** `wave_of`: ends on every graph, because the path never holds a node twice. */
    method WaveOf(nid: Id, path: seq<Id>) returns (w: nat)
      requires Faithful() && WavesValid() && nid in prereq && (acyclic ==> PathAbove(rank, path, nid))
      modifies this`wave
      ensures WavesValid() && Grew(old(wave), wave, path)
      ensures acyclic || nid !in path ==> nid in wave && wave[nid] == w
      ensures HasWalk(prereq, nid, w)
      decreases OffPath(prereq, path), 1
    {
      if nid in wave { return wave[nid]; }
      NoStep(prereq, nid);
      if nid in path { return 0; }
      w := WaveAbove(nid, path);
      if acyclic { NewWaveRight(prereq, wave, nid, w); }
      wave := wave[nid := w];
    }

    /** One more than the highest wave among the prerequisites. */
    method WaveAbove(nid: Id, path: seq<Id>) returns (w: nat)
      requires Faithful() && WavesValid() && nid in prereq && (acyclic ==> PathAbove(rank, path, nid))
      requires nid !in path && nid !in wave
      modifies this`wave
      ensures WavesValid() && Grew(old(wave), wave, path + [nid])
      ensures (w == 0 <==> prereq[nid] == {}) && HasWalk(prereq, nid, w)
      ensures acyclic ==> AboveAll(wave, Succ(prereq, nid), w)
      decreases OffPath(prereq, path), 0
    {
      w := 0;
      NoStep(prereq, nid);
      var todo := prereq[nid];
      ghost var done: set<Id> := {};
      while todo != {}
        invariant done + todo == prereq[nid]
        invariant WavesValid() && Grew(old(wave), wave, path + [nid])
        invariant (w == 0 <==> done == {}) && HasWalk(prereq, nid, w)
        invariant acyclic ==> AboveAll(wave, done, w)
        decreases |todo|
      {
        var d :| d in todo;
        OffPathShrinks(prereq, path, nid);
        if acyclic { PathAboveStep(prereq, rank, path, nid, d); }
        ghost var before := wave;
        var v := WaveOf(d, path + [nid]);
        if acyclic { AboveOneMore(before, wave, done, w, d, v); }
        OneStepMore(prereq, nid, d, v);
        w := Higher(w, v);
        GrewTransitive(old(wave), before, wave, path + [nid]);
        MoveOver(done, todo, d);
        todo, done := todo - {d}, done + {d};
      }
      assert done == prereq[nid];
    }

    /** `held_by`. */
    method HeldBy(nid: Id, path: seq<Id>) returns (found: set<Id>)
      requires Faithful() && HeldValid() && nid in prereq && (acyclic ==> PathAbove(rank, path, nid))
      modifies this`held
      ensures HeldValid() && Grew(old(held), held, path)
      ensures acyclic || nid !in path ==> nid in held && held[nid] == found
      ensures found <= Blockers(prereq, blocked, nid)
      decreases OffPath(prereq, path), 1
    {
      if nid in held { return held[nid]; }
      if nid in path { return {}; }
      found := HeldAbove(nid, path);
      if acyclic { NewHeldRight(prereq, blocked, held, nid, found); }
      held := held[nid := found];
    }

    method HeldAbove(nid: Id, path: seq<Id>) returns (found: set<Id>)
      requires Faithful() && HeldValid() && nid in prereq && (acyclic ==> PathAbove(rank, path, nid))
      requires nid !in path && nid !in held
      modifies this`held
      ensures HeldValid() && Grew(old(held), held, path + [nid])
      ensures found <= Blockers(prereq, blocked, nid)
      ensures acyclic ==> Collected(blocked, held, Succ(prereq, nid), found)
      decreases OffPath(prereq, path), 0
    {
      found := {};
      var todo := prereq[nid];
      ghost var done: set<Id> := {};
      while todo != {}
        invariant done + todo == prereq[nid]
        invariant HeldValid() && Grew(old(held), held, path + [nid])
        invariant found <= Blockers(prereq, blocked, nid)
        invariant acyclic ==> Collected(blocked, held, done, found)
        decreases |todo|
      {
        var d :| d in todo;
        OffPathShrinks(prereq, path, nid);
        if acyclic { PathAboveStep(prereq, rank, path, nid, d); }
        ghost var before := held;
        var more := HeldBy(d, path + [nid]);
        if acyclic { CollectedOneMore(blocked, before, held, done, found, d); }
        HeldBelow(prereq, blocked, nid, d, more);
        found := Added(blocked, found, d, more);
        GrewTransitive(old(held), before, held, path + [nid]);
        MoveOver(done, todo, d);
        todo, done := todo - {d}, done + {d};
      }
      assert done == prereq[nid];
    }

    /** Both tables for every step, in whatever order the steps come. */
    method Fill(order: seq<Id>)
      requires Faithful() && wave == map[] && held == map[]
      requires forall x :: x in order <==> x in prereq
      modifies this
      ensures wave.Keys == prereq.Keys && held.Keys == prereq.Keys
      ensures forall x | x in prereq :: wave[x] == 0 <==> prereq[x] == {}
      ensures forall x | x in prereq :: HasWalk(prereq, x, wave[x]) && held[x] <= Blockers(prereq, blocked, x)
      ensures acyclic ==> forall x | x in prereq ::
        Longest(prereq, x, wave[x]) && held[x] == Blockers(prereq, blocked, x)
    {
      for i := 0 to |order|
        invariant WavesValid() && HeldValid()
        invariant forall k | 0 <= k < i :: order[k] in wave && order[k] in held
      {
        assert order[i] in order;
        var w := WaveOf(order[i], []);
        var h := HeldBy(order[i], []);
      }
      if acyclic {
        forall x | x in prereq ensures Longest(prereq, x, wave[x]) && held[x] == Blockers(prereq, blocked, x) {
          RightWaveIsLongest(prereq, wave, x);
          RightHeldIsBlockers(prereq, wave, blocked, held, x);
        }
      }
    }
  }
}
