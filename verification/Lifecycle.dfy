/** What every run keeps of an item's lifecycle history (tools/graph.py:298-331). */
module Lifecycle {
  import opened Ids
  import opened Text
  import opened ProjectGraph
  import opened Commands

  /** The graphs stored before and after each command of a run. */
  ghost function Trace(ok: RefCheck, g: Project, cs: seq<Command>): (tr: seq<Project>)
    ensures |tr| == |cs| + 1
    ensures forall t | t in tr :: SameShape(g, t)
    decreases cs
  {
    if cs == [] then [g]
    else
      var n := |cs| - 1;
      var tr := Trace(ok, g, cs[..n]);
      assert SameShape(g, tr[n]);
      tr + [Next(ok, tr[n], cs[n])]
  }

  /** The item enters `s` for the first time at index `i`. */
  ghost predicate FirstAt(tr: seq<Project>, x: Id, s: Status, i: nat)
    requires forall t | t in tr :: x in t.nodes
  {
    i < |tr| && tr[i].nodes[x].status == s && forall j | 0 <= j < i :: tr[j].nodes[x].status != s
  }

  /** The item is at a lifecycle state, or BLOCKED from one. */
  predicate Placed(n: Node)
  {
    InLifecycle(n.status) || (n.status == Blocked && n.blockedFrom.Some? && InLifecycle(n.blockedFrom.value))
  }

  /** The position the item is at, or was blocked from. */
  function Attained(n: Node): nat
    requires Placed(n)
  {
    if n.status == Blocked then Level(n.blockedFrom.value) else Level(n.status)
  }

  // ---- one command ------------------------------------------------------------------------

  /** A move goes up by at most one position; entering or leaving BLOCKED never goes up. */
  lemma MoveBound(ok: RefCheck, g: Project, c: Command, x: Id)
    requires x in g.nodes && Placed(g.nodes[x])
    ensures var n := Next(ok, g, c).nodes[x];
      && Placed(n) && Attained(n) <= Attained(g.nodes[x]) + 1
      && (n.status == Blocked || g.nodes[x].status == Blocked ==> Attained(n) <= Attained(g.nodes[x]))
  {
  }

  /** A state past NOT_STARTED is entered only when every prerequisite is COMPLETE. */
  lemma EnteredWhenMet(ok: RefCheck, g: Project, c: Command, x: Id)
    requires x in g.nodes
    requires var s := Next(ok, g, c).nodes[x].status;
      s != g.nodes[x].status && s != NotStarted && s != Blocked
    ensures PrereqsMet(g, x)
  {
  }

  // ---- whole runs ---------------------------------------------------------------------------

  /** `firsts[k]` is when the item first entered position `k`; the positions were first entered in order, and
      the item was never at, nor blocked from, a position beyond them. */
  ghost predicate InLifecycleOrder(tr: seq<Project>, x: Id, firsts: seq<nat>)
    requires forall t | t in tr :: x in t.nodes
  {
    && |firsts| <= 7
    && (forall k | 0 <= k < |firsts| :: FirstAt(tr, x, LIFECYCLE[k], firsts[k]))
    && (forall k | 0 <= k < |firsts| - 1 :: firsts[k] < firsts[k+1])
    && (forall i | 0 <= i < |tr| :: Placed(tr[i].nodes[x]) && Attained(tr[i].nodes[x]) < |firsts|)
  }

  lemma {:induction false} HistoryInOrder(ok: RefCheck, g: Project, cs: seq<Command>, x: Id) returns (firsts: seq<nat>)
    requires x in g.nodes && g.nodes[x].status == NotStarted
    ensures forall t | t in Trace(ok, g, cs) :: x in t.nodes
    ensures InLifecycleOrder(Trace(ok, g, cs), x, firsts)
    decreases cs
  {
    var tr := Trace(ok, g, cs);
    if cs == [] {
      firsts := [0];
    } else {
      var n := |cs| - 1;
      var before := Trace(ok, g, cs[..n]);
      firsts := HistoryInOrder(ok, g, cs[..n], x);
      assert before[n] in before && Placed(before[n].nodes[x]);
      MoveBound(ok, before[n], cs[n], x);
      assert tr == before + [Next(ok, before[n], cs[n])];
      firsts := ExtendHistory(before, Next(ok, before[n], cs[n]), x, firsts);
    }
  }

  lemma FirstStays(before: seq<Project>, h: Project, x: Id, s: Status, i: nat)
    requires x in h.nodes && (forall t | t in before :: x in t.nodes) && FirstAt(before, x, s, i)
    ensures (forall t | t in before + [h] :: x in t.nodes) && FirstAt(before + [h], x, s, i)
  {
  }

  lemma KeepHistory(before: seq<Project>, h: Project, x: Id, firsts: seq<nat>)
    requires x in h.nodes && forall t | t in before :: x in t.nodes
    requires InLifecycleOrder(before, x, firsts) && Placed(h.nodes[x]) && Attained(h.nodes[x]) < |firsts|
    ensures (forall t | t in before + [h] :: x in t.nodes) && InLifecycleOrder(before + [h], x, firsts)
  {
    forall j | 0 <= j < |firsts| ensures FirstAt(before + [h], x, LIFECYCLE[j], firsts[j]) {
      FirstStays(before, h, x, LIFECYCLE[j], firsts[j]);
    }
  }

  /** A state not seen before is first entered now. */
  lemma FirstNow(before: seq<Project>, h: Project, x: Id, s: Status)
    requires x in h.nodes && (forall t | t in before :: x in t.nodes) && h.nodes[x].status == s
    requires forall i | 0 <= i < |before| :: before[i].nodes[x].status != s
    ensures (forall t | t in before + [h] :: x in t.nodes) && FirstAt(before + [h], x, s, |before|)
  {
  }

  lemma EnterPosition(before: seq<Project>, h: Project, x: Id, earlier: seq<nat>)
    requires x in h.nodes && forall t | t in before :: x in t.nodes
    requires InLifecycleOrder(before, x, earlier) && InLifecycle(h.nodes[x].status)
    requires Level(h.nodes[x].status) == |earlier|
    ensures (forall t | t in before + [h] :: x in t.nodes) && InLifecycleOrder(before + [h], x, earlier + [|before|])
  {
    var firsts := earlier + [|before|];
    forall j | 0 <= j < |firsts| ensures FirstAt(before + [h], x, LIFECYCLE[j], firsts[j]) {
      if j < |earlier| {
        FirstStays(before, h, x, LIFECYCLE[j], earlier[j]);
      } else {
        forall i | 0 <= i < |before| ensures before[i].nodes[x].status != LIFECYCLE[j] {
          assert Attained(before[i].nodes[x]) < j;
        }
        FirstNow(before, h, x, LIFECYCLE[j]);
      }
    }
  }

  /** One more state: a position not entered before extends the record, everything else keeps it. */
  lemma ExtendHistory(before: seq<Project>, h: Project, x: Id, earlier: seq<nat>) returns (firsts: seq<nat>)
    requires before != [] && x in h.nodes && forall t | t in before :: x in t.nodes
    requires InLifecycleOrder(before, x, earlier)
    requires var m, n := before[|before|-1].nodes[x], h.nodes[x];
      && Placed(n) && Attained(n) <= Attained(m) + 1
      && (n.status == Blocked ==> Attained(n) <= Attained(m))
    ensures forall t | t in before + [h] :: x in t.nodes
    ensures InLifecycleOrder(before + [h], x, firsts)
  {
    assert Attained(before[|before|-1].nodes[x]) < |earlier|;
    if Attained(h.nodes[x]) < |earlier| {
      KeepHistory(before, h, x, earlier);
      firsts := earlier;
    } else {
      EnterPosition(before, h, x, earlier);
      firsts := earlier + [|before|];
    }
  }

  /** Along every run, each entry into a state past NOT_STARTED found its prerequisites COMPLETE. */
  lemma {:induction false} EntriesWereMet(ok: RefCheck, g: Project, cs: seq<Command>, x: Id, i: nat)
    requires x in g.nodes && i < |cs|
    ensures var tr := Trace(ok, g, cs);
      && x in tr[i].nodes && x in tr[i+1].nodes
      && var s := tr[i+1].nodes[x].status;
        s != tr[i].nodes[x].status && s != NotStarted && s != Blocked ==> PrereqsMet(tr[i], x)
    decreases cs
  {
    var n := |cs| - 1;
    var tr := Trace(ok, g, cs);
    var before := Trace(ok, g, cs[..n]);
    assert tr == before + [Next(ok, before[n], cs[n])];
    assert before[n] in before && before[i] in before;
    if i < n {
      EntriesWereMet(ok, g, cs[..n], x, i);
      assert tr[i] == before[i] && tr[i+1] == before[i+1];
    } else {
      var s := tr[n+1].nodes[x].status;
      if s != tr[n].nodes[x].status && s != NotStarted && s != Blocked {
        EnteredWhenMet(ok, tr[n], cs[n], x);
      }
    }
  }
}
