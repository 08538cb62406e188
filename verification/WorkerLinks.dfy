/** The registry of worker links (apps/cloud-api/src/browser_view.rs:57-73, 150-218): a new link replaces the old, and
    every link removes itself on exit, all of them interleaved. */
module WorkerLinks {
  type Worker = string
  type LinkId = nat

  predicate Holds(links: map<Worker, LinkId>, w: Worker, id: LinkId)
  {
    w in links && links[w] == id
  }

  function Removed(links: map<Worker, LinkId>, w: Worker): map<Worker, LinkId>
  {
    map v | v in links && v != w :: links[v]
  }

  // ---- the interleaved links --------------------------------------------------------------------

  /** A link's task: in its loop, out of the loop but not yet past the final section, or finished. */
  datatype Phase = Running | Leaving | Finished

  datatype Link = Link(worker: Worker, phase: Phase)

  /** `tasks[id]` is the link that was the `id`-th to be inserted. */
  datatype State = State(links: map<Worker, LinkId>, tasks: seq<Link>)

  datatype Step =
    | Connect(worker: Worker)
    | Tick(id: LinkId)      // the half-second check
    | Break(id: LinkId)     // the socket or the channel ended
    | Exit(id: LinkId)      // the final section
    | Disconnect(worker: Worker)

  predicate Enabled(s: State, step: Step)
  {
    match step
    case Connect(_) => true
    case Tick(id) => id < |s.tasks| && s.tasks[id].phase == Running
    case Break(id) => id < |s.tasks| && s.tasks[id].phase == Running
    case Exit(id) => id < |s.tasks| && s.tasks[id].phase == Leaving
    case Disconnect(_) => true
  }

  function At(s: State, id: LinkId, p: Phase): State
    requires id < |s.tasks|
  {
    s.(tasks := s.tasks[id := s.tasks[id].(phase := p)])
  }

  function Do(s: State, step: Step): State
    requires Enabled(s, step)
  {
    match step
    case Connect(w) => State(s.links[w := |s.tasks|], s.tasks + [Link(w, Running)])
    case Tick(id) => if Holds(s.links, s.tasks[id].worker, id) then s else At(s, id, Leaving)
    case Break(id) => At(s, id, Leaving)
    case Exit(id) =>
      var w := s.tasks[id].worker;
      At(s, id, Finished).(links := if Holds(s.links, w, id) then Removed(s.links, w) else s.links)
    case Disconnect(w) => s.(links := Removed(s.links, w))
  }

  /** `t` follows from `s` by the enabled step. */
  predicate Takes(s: State, step: Step, t: State)
  {
    Enabled(s, step) && t == Do(s, step)
  }

  ghost predicate IsRun(run: seq<State>, steps: seq<Step>)
  {
    && |run| == |steps| + 1
    && run[0] == State(map[], [])
    && forall i {:trigger steps[i]} | 0 <= i < |steps| :: Takes(run[i], steps[i], run[i+1])
  }

  // ---- what every run keeps ------------------------------------------------------------------------

  /** `id` is the most recently inserted link of its worker. */
  ghost predicate Newest(s: State, id: LinkId)
  {
    id < |s.tasks| && forall j | id < j < |s.tasks| :: s.tasks[j].worker != s.tasks[id].worker
  }

  /** An entry is its worker's newest link and has not finished its exit. */
  ghost predicate Inv(s: State)
  {
    forall w | w in s.links ::
      && Newest(s, s.links[w]) && s.tasks[s.links[w]].worker == w && s.tasks[s.links[w]].phase != Finished
  }

  lemma StepKeeps(s: State, step: Step)
    requires Inv(s) && Enabled(s, step)
    ensures Inv(Do(s, step))
  {
    var t := Do(s, step);
    forall w | w in t.links
      ensures Newest(t, t.links[w]) && t.tasks[t.links[w]].worker == w && t.tasks[t.links[w]].phase != Finished
    {
      if w in s.links && t.links[w] == s.links[w] {
        assert Newest(s, s.links[w]);
        forall j | s.links[w] < j < |t.tasks| ensures t.tasks[j].worker != w {
          if j < |s.tasks| { assert s.tasks[j].worker != w; }
        }
      }
    }
  }

  lemma {:induction false} RunKeeps(run: seq<State>, steps: seq<Step>, i: nat)
    requires IsRun(run, steps) && i < |run|
    ensures Inv(run[i])
  {
    if i > 0 {
      RunKeeps(run, steps, i - 1);
      StepKeeps(run[i-1], steps[i-1]);
    }
  }

  /** On every run, the entry of a worker is its most recently inserted link and has not finished its exit. */
  lemma EntryIsNewest(run: seq<State>, steps: seq<Step>, i: nat, w: Worker)
    requires IsRun(run, steps) && i < |run| && w in run[i].links
    ensures Newest(run[i], run[i].links[w])
    ensures run[i].tasks[run[i].links[w]].worker == w && run[i].tasks[run[i].links[w]].phase != Finished
  {
    RunKeeps(run, steps, i);
  }

  /** An exit removes no entry but its own. */
  lemma ExitRemovesOwn(s: State, id: LinkId, w: Worker)
    requires Inv(s) && Enabled(s, Exit(id)) && w in s.links && s.links[w] != id
    ensures w in Do(s, Exit(id)).links && Do(s, Exit(id)).links[w] == s.links[w]
  {
  }

  // ---- a replaced link is gone for good ---------------------------------------------------------------

  /** The link was inserted and no longer holds its worker's entry. */
  predicate Dropped(s: State, id: LinkId)
  {
    id < |s.tasks| && !Holds(s.links, s.tasks[id].worker, id)
  }

  lemma DroppedStays(s: State, step: Step, id: LinkId)
    requires Enabled(s, step) && Dropped(s, id)
    ensures Dropped(Do(s, step), id)
    ensures s.tasks[id].phase != Running ==> Do(s, step).tasks[id].phase != Running
    ensures step == Tick(id) ==> Do(s, step).tasks[id].phase == Leaving
  {
  }

  /** A link replaced or disconnected by time `i` is not running after its next tick, and never again. */
  lemma {:induction false} ReplacedStops(run: seq<State>, steps: seq<Step>, i: nat, j: nat, id: LinkId)
    requires IsRun(run, steps) && i <= j < |run| && Dropped(run[i], id)
    ensures Dropped(run[j], id)
    ensures (exists k :: i <= k < j && steps[k] == Tick(id)) ==> run[j].tasks[id].phase != Running
  {
    if i < j {
      ReplacedStops(run, steps, i, j - 1, id);
      DroppedStays(run[j-1], steps[j-1], id);
    }
  }

  /** A newer link of the same worker, or a disconnect, drops the older one. */
  lemma ReplaceDrops(s: State, id: LinkId, step: Step)
    requires Inv(s) && id < |s.tasks| && Enabled(s, step)
    requires step == Connect(s.tasks[id].worker) || step == Disconnect(s.tasks[id].worker)
    ensures Dropped(Do(s, step), id)
  {
  }

  /** A link stops running only when its socket or channel ends, or at a tick that finds it dropped: one that is still
      held goes on. */
  lemma StopsOnlyWhen(run: seq<State>, steps: seq<Step>, j: nat, id: LinkId)
    requires IsRun(run, steps) && j < |steps| && id < |run[j].tasks| && id < |run[j+1].tasks|
    requires run[j].tasks[id].phase == Running && run[j+1].tasks[id].phase != Running
    ensures run[j+1].tasks[id].phase == Leaving
    ensures steps[j] == Break(id) || (steps[j] == Tick(id) && Dropped(run[j], id))
  {
    assert Takes(run[j], steps[j], run[j+1]);
  }

  /** An entry changes only by a newer link or a disconnect of its own worker, or by the exit of the link it names. */
  lemma EntryChangesOnly(run: seq<State>, steps: seq<Step>, j: nat, w: Worker)
    requires IsRun(run, steps) && j < |steps| && w in run[j].links
    requires !(w in run[j+1].links && run[j+1].links[w] == run[j].links[w])
    ensures steps[j] == Connect(w) || steps[j] == Disconnect(w) || steps[j] == Exit(run[j].links[w])
    ensures if steps[j] == Connect(w) then w in run[j+1].links && run[j+1].links[w] == |run[j].tasks| else w !in run[j+1].links
  {
    RunKeeps(run, steps, j);
    assert Takes(run[j], steps[j], run[j+1]);
  }

  /** A new link is listed and running; one that has made its exit is not listed. */
  lemma ConnectAndExit(run: seq<State>, steps: seq<Step>, j: nat)
    requires IsRun(run, steps) && j < |steps|
    ensures steps[j].Connect? ==>
      && |run[j+1].tasks| == |run[j].tasks| + 1
      && run[j+1].tasks[|run[j].tasks|] == Link(steps[j].worker, Running)
      && !Dropped(run[j+1], |run[j].tasks|)
    ensures steps[j].Exit? ==>
      && steps[j].id < |run[j+1].tasks| && run[j+1].tasks[steps[j].id].phase == Finished
      && Dropped(run[j+1], steps[j].id)
  {
    assert Takes(run[j], steps[j], run[j+1]);
  }

  /** Of one worker's links at most one is neither dropped nor finished; once all have finished, none is listed. */
  lemma OneLiveLink(run: seq<State>, steps: seq<Step>, i: nat, a: LinkId, b: LinkId)
    requires IsRun(run, steps) && i < |run|
    requires a < |run[i].tasks| && b < |run[i].tasks| && run[i].tasks[a].worker == run[i].tasks[b].worker
    requires !Dropped(run[i], a) && !Dropped(run[i], b)
    ensures a == b
    ensures run[i].tasks[a].phase != Finished
  {
    RunKeeps(run, steps, i);
  }

  // ---- the registry as it runs --------------------------------------------------------------

  /** The map under its lock, one method per critical section. `count` stands for the identity of a new link; `tasks`
      are the links' tasks as the interleaved system sees them. */
  class Registry {
    var links: map<Worker, LinkId>
    var count: nat
    ghost var tasks: seq<Link>

    ghost function View(): State
      reads this
    {
      State(links, tasks)
    }

    ghost predicate Valid()
      reads this
    {
      |tasks| == count && Inv(View())
    }

    constructor ()
      ensures Valid() && View() == State(map[], [])
    {
      links, count, tasks := map[], 0, [];
    }

    /** The start of a link's task. */
    method Connect(w: Worker) returns (id: LinkId)
      requires Valid()
      modifies this
      ensures Valid() && View() == Do(old(View()), Step.Connect(w)) && id == |old(tasks)|
    {
      StepKeeps(View(), Step.Connect(w));
      id := count;
      links := links[w := id];
      count := count + 1;
      tasks := tasks + [Link(w, Running)];
    }

    /** The half-second check; the link leaves its loop when it is not held any more. */
    method Tick(w: Worker, id: LinkId) returns (held: bool)
      requires Valid() && Enabled(View(), Step.Tick(id)) && tasks[id].worker == w
      modifies this
      ensures Valid() && View() == Do(old(View()), Step.Tick(id))
      ensures held <==> tasks[id].phase == Running
    {
      StepKeeps(View(), Step.Tick(id));
      held := w in links && links[w] == id;
      if !held { tasks := tasks[id := Link(w, Leaving)]; }
    }

    /** The end of a link's task. */
    method Exit(w: Worker, id: LinkId)
      requires Valid() && Enabled(View(), Step.Exit(id)) && tasks[id].worker == w
      modifies this
      ensures Valid() && View() == Do(old(View()), Step.Exit(id))
    {
      StepKeeps(View(), Step.Exit(id));
      if w in links && links[w] == id {
        links := links - {w};
      }
      tasks := tasks[id := Link(w, Finished)];
    }

    /** An operator's revocation; `was` tells whether a link was listed. */
    method Disconnect(w: Worker) returns (was: bool)
      requires Valid()
      modifies this
      ensures Valid() && View() == Do(old(View()), Step.Disconnect(w))
      ensures was <==> exists id: LinkId :: id < |old(tasks)| && old(tasks)[id].worker == w && !Dropped(old(View()), id)
    {
      StepKeeps(View(), Step.Disconnect(w));
      ListedIff(View(), w);
      was := w in links;
      links := links - {w};
    }
  }

  /** A worker is listed exactly when one of its links is not dropped. */
  lemma ListedIff(s: State, w: Worker)
    requires Inv(s)
    ensures w in s.links <==> exists id: LinkId :: id < |s.tasks| && s.tasks[id].worker == w && !Dropped(s, id)
  {
    if w in s.links {
      var id := s.links[w];
      assert Newest(s, id) && s.tasks[id].worker == w && !Dropped(s, id);
    }
  }
}
