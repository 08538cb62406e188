/** Finite directed relations: walks, cycles, sinks and ranks. */
module Digraph {
  import opened Ids

  /** A finite relation: `b` is a successor of `a` when `b in Succ(r, a)`. */
  type Rel = map<Id, set<Id>>

  function Succ(r: Rel, x: Id): set<Id>
  {
    if x in r then r[x] else {}
  }

  ghost predicate Walk(r: Rel, w: seq<Id>)
  {
    w != [] && forall i | 0 <= i < |w| - 1 :: w[i+1] in Succ(r, w[i])
  }

  ghost predicate WalkBetween(r: Rel, w: seq<Id>, a: Id, b: Id)
  {
    Walk(r, w) && w[0] == a && w[|w|-1] == b
  }

  ghost predicate ClosedWalk(r: Rel, w: seq<Id>)
  {
    Walk(r, w) && |w| >= 2 && w[0] == w[|w|-1]
  }

  ghost predicate Acyclic(r: Rel)
  {
    forall w :: !ClosedWalk(r, w)
  }

  lemma MutualIsCyclic(r: Rel, a: Id, b: Id)
    requires b in Succ(r, a) && a in Succ(r, b)
    ensures !Acyclic(r)
  {
    assert ClosedWalk(r, [a, b, a]);
  }

  /** Reflexive-transitive reachability. */
  ghost predicate Reaches(r: Rel, a: Id, b: Id)
  {
    exists w :: WalkBetween(r, w, a, b)
  }

  /** Reachability by at least one edge. */
  ghost predicate ReachesPlus(r: Rel, a: Id, b: Id)
  {
    exists w :: WalkBetween(r, w, a, b) && |w| >= 2
  }

  lemma ReachesRefl(r: Rel, a: Id)
    ensures Reaches(r, a, a)
  {
    assert WalkBetween(r, [a], a, a);
  }

  lemma ReachesStep(r: Rel, a: Id, b: Id, c: Id)
    requires b in Succ(r, a) && Reaches(r, b, c)
    ensures ReachesPlus(r, a, c) && Reaches(r, a, c)
  {
    var w :| WalkBetween(r, w, b, c);
    assert WalkBetween(r, [a] + w, a, c);
  }

  lemma ReachesSnoc(r: Rel, a: Id, b: Id, c: Id)
    requires Reaches(r, a, b) && c in Succ(r, b)
    ensures ReachesPlus(r, a, c) && Reaches(r, a, c)
  {
    var w :| WalkBetween(r, w, a, b);
    assert WalkBetween(r, w + [c], a, c);
  }

  lemma ReachesTrans(r: Rel, a: Id, b: Id, c: Id)
    requires Reaches(r, a, b) && Reaches(r, b, c)
    ensures Reaches(r, a, c)
    ensures ReachesPlus(r, a, b) || ReachesPlus(r, b, c) ==> ReachesPlus(r, a, c)
  {
    var w :| WalkBetween(r, w, a, b) && (ReachesPlus(r, a, b) ==> |w| >= 2);
    var v :| WalkBetween(r, v, b, c) && (ReachesPlus(r, b, c) ==> |v| >= 2);
    var u := w + v[1..];
    forall i | 0 <= i < |u| - 1 ensures u[i+1] in Succ(r, u[i]) {
      if i < |w| - 1 {
        assert u[i] == w[i] && u[i+1] == w[i+1];
      } else {
        assert u[i] == v[i - |w| + 1] && u[i+1] == v[i + 1 - |w| + 1];
      }
    }
    assert WalkBetween(r, u, a, c);
  }

  /** The first edge of a non-empty walk. */
  lemma ReachesPlusFirst(r: Rel, a: Id, c: Id) returns (b: Id)
    requires ReachesPlus(r, a, c)
    ensures b in Succ(r, a) && Reaches(r, b, c)
  {
    var w :| WalkBetween(r, w, a, c) && |w| >= 2;
    b := w[1];
    assert WalkBetween(r, w[1..], b, c);
  }

  /** A relation is acyclic when it is contained in an acyclic one. */
  lemma SubAcyclic(r: Rel, s: Rel)
    requires forall x, y | y in Succ(r, x) :: y in Succ(s, x)
    requires Acyclic(s)
    ensures Acyclic(r)
  {
    forall w ensures !ClosedWalk(r, w) {
      assert ClosedWalk(r, w) ==> ClosedWalk(s, w);
    }
  }

  // ---- ranks ------------------------------------------------------------

  ghost predicate RankedBy(r: Rel, rank: map<Id, nat>)
  {
    forall x, y {:trigger y in Succ(r, x)} :: y in Succ(r, x) ==> x in rank && y in rank && rank[y] < rank[x]
  }

  lemma {:induction false} WalkDescends(r: Rel, rank: map<Id, nat>, w: seq<Id>)
    requires RankedBy(r, rank) && Walk(r, w) && |w| >= 2
    ensures w[0] in rank && w[|w|-1] in rank
    ensures rank[w[|w|-1]] < rank[w[0]]
  {
    var x, y := w[0], w[1];
    assert y == w[0+1] && y in Succ(r, x);
    assert x in rank && y in rank && rank[y] < rank[x];
    if |w| > 2 {
      WalkDescends(r, rank, w[1..]);
    }
  }

  lemma RankedIsAcyclic(r: Rel, rank: map<Id, nat>)
    requires RankedBy(r, rank)
    ensures Acyclic(r)
  {
    forall w ensures !ClosedWalk(r, w) {
      if ClosedWalk(r, w) { WalkDescends(r, rank, w); }
    }
  }

  // ---- pigeonhole and sinks -----------------------------------------------

  lemma {:induction false} Pigeonhole(s: set<Id>, w: seq<Id>)
    requires forall x | x in w :: x in s
    requires Distinct(w)
    ensures |w| <= |s|
  {
    if w != [] {
      var last := w[|w|-1];
      Pigeonhole(s - {last}, w[..|w|-1]);
    }
  }

  /** Without a closed walk, no walk visits a node twice. */
  lemma AcyclicWalkDistinct(r: Rel, w: seq<Id>)
    requires Acyclic(r) && Walk(r, w)
    ensures Distinct(w)
  {
    forall i, j | 0 <= i < j < |w| ensures w[i] != w[j] {
      assert Walk(r, w[i..j+1]);
      assert !ClosedWalk(r, w[i..j+1]);
    }
  }

  lemma {:induction false} WalkInside(r: Rel, s: set<Id>, x: Id, n: nat) returns (w: seq<Id>)
    requires x in s && forall y | y in s :: Succ(r, y) * s != {}
    ensures Walk(r, w) && |w| == n + 1 && forall y | y in w :: y in s
  {
    if n == 0 {
      w := [x];
    } else {
      var v := WalkInside(r, s, x, n - 1);
      var y :| y in Succ(r, v[n-1]) * s;
      w := v + [y];
    }
  }

  /** In an acyclic relation every non-empty finite set has a member with no successor in the set. */
  lemma SinkExists(r: Rel, s: set<Id>) returns (x: Id)
    requires Acyclic(r) && s != {}
    ensures x in s && Succ(r, x) * s == {}
  {
    if y :| y in s && Succ(r, y) * s == {} {
      x := y;
    } else {
      var a :| a in s;
      var w := WalkInside(r, s, a, |s|);
      AcyclicWalkDistinct(r, w);
      Pigeonhole(s, w);
      assert false;
    }
  }

  /** An acyclic relation can be ranked on any finite set of nodes. */
  /** Ranking a node without successors below all the others. */
  lemma RankSinkFirst(r: Rel, s: set<Id>, x: Id, rest: map<Id, nat>) returns (rank: map<Id, nat>)
    requires x in s && Succ(r, x) * s == {} && rest.Keys == s - {x}
    requires forall y | y in rest :: rest[y] < |s| - 1
    requires forall a, b | a in rest && b in Succ(r, a) && b in rest :: rest[b] < rest[a]
    ensures rank.Keys == s && forall y | y in s :: rank[y] < |s|
    ensures forall a, b | a in s && b in Succ(r, a) && b in s :: rank[b] < rank[a]
  {
    rank := map y | y in s :: if y == x then 0 else rest[y] + 1;
    forall a, b | a in s && b in Succ(r, a) && b in s ensures rank[b] < rank[a] {
      assert b in Succ(r, a) * s;
    }
  }

  lemma {:induction false} RankExists(r: Rel, s: set<Id>) returns (rank: map<Id, nat>)
    requires Acyclic(r)
    ensures rank.Keys == s && forall x | x in s :: rank[x] < |s|
    ensures forall x, y | x in s && y in Succ(r, x) && y in s :: rank[y] < rank[x]
  {
    if s == {} {
      rank := map[];
    } else {
      var x := SinkExists(r, s);
      var rest := RankExists(r, s - {x});
      assert |s - {x}| == |s| - 1;
      rank := RankSinkFirst(r, s, x, rest);
    }
  }

  // ---- orders that put successors first ------------------------------------------

  /** Every node of the list comes after all its successors. */
  ghost predicate FinishedInOrder(r: Rel, finished: seq<Id>)
  {
    forall i, y | 0 <= i < |finished| && y in Succ(r, finished[i]) :: y in finished[..i]
  }

  lemma OrderIsAcyclic(r: Rel, finished: seq<Id>)
    requires Distinct(finished) && FinishedInOrder(r, finished)
    requires forall x | Succ(r, x) != {} :: x in finished
    ensures Acyclic(r)
  {
    var rank: map<Id, nat> := map i | 0 <= i < |finished| :: finished[i] := i;
    forall x, y | y in Succ(r, x) ensures x in rank && y in rank && rank[y] < rank[x] {
      var i :| 0 <= i < |finished| && finished[i] == x;
      var j :| 0 <= j < i && finished[..i][j] == y;
      assert finished[j] == y;
    }
    RankedIsAcyclic(r, rank);
  }

  // ---- nodes that lead into a cycle -----------------------------------------------

  ghost predicate OnCycle(r: Rel, x: Id)
  {
    ReachesPlus(r, x, x)
  }

  ghost predicate LeadsToCycle(r: Rel, x: Id)
  {
    exists y :: Reaches(r, x, y) && OnCycle(r, y)
  }

  lemma WalkSuffix(r: Rel, w: seq<Id>, i: nat)
    requires Walk(r, w) && i < |w|
    ensures Walk(r, w[i..])
  {
    var c := w[i..];
    forall k | 0 <= k < |c| - 1 ensures c[k+1] in Succ(r, c[k]) {
      assert w[i+k+1] in Succ(r, w[i+k]);
    }
  }

  /** A node of a closed walk and the start of the walk reach each other. */
  lemma ClosedWalkConnects(r: Rel, w: seq<Id>, u: Id)
    requires ClosedWalk(r, w) && u in w
    ensures Reaches(r, w[0], u) && Reaches(r, u, w[0])
  {
    var i :| 0 <= i < |w| && w[i] == u;
    WalkSuffix(r, w, i);
    assert WalkBetween(r, w[i..], u, w[0]);
    var p := w[..i+1];
    forall k | 0 <= k < |p| - 1 ensures p[k+1] in Succ(r, p[k]) { assert w[k+1] in Succ(r, w[k]); }
    assert WalkBetween(r, p, w[0], u);
  }
}
