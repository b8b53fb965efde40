/** activeCancels: when removing a Running task reaches its upload. The map is keyed
    by identifiers, and a worker deletes its entry only after it has recorded its
    outcome, so it can delete the entry of a newer worker for the same task. */
module SchedulerCancels {
  import opened Tasks
  import opened Scheduler
  import opened SchedulerSafety
  import opened SchedulerRuns
  import opened SchedulerPromises
  import opened SchedulerClosers

  /** Entries are of workers with that identifier that have registered. */
  ghost predicate CancelsNamed(heap: map<nat, Task>, workers: seq<Worker>, cancels: map<string, nat>)
    requires TasksKnown(heap, workers)
  {
    forall id :: id in cancels ==>
      cancels[id] < |workers| && workers[cancels[id]].phase != Spawned && heap[workers[cancels[id]].task].id == id
  }

  /** Every active worker that has registered is the one its identifier's entry cancels. */
  ghost predicate CancelsReach(heap: map<nat, Task>, workers: seq<Worker>, cancels: map<string, nat>)
    requires TasksKnown(heap, workers)
  {
    forall i :: 0 <= i < |workers| && Active(workers[i]) && workers[i].phase != Spawned ==>
      heap[workers[i].task].id in cancels && cancels[heap[workers[i].task].id] == i
  }

  /** A worker registers over, or deletes, the entry of one that is still active. */
  ghost predicate Loses(s: State, e: Event)
    requires WellFormed(s)
  {
    e.WorkerStep? && e.worker < |s.workers|
    && var w := s.workers[e.worker];
       var id := s.heap[w.task].id;
       (w.phase == Spawned || w.phase == Triggered) && id in s.cancels && Active(s.workers[s.cancels[id]])
  }

  lemma NamedAfterStep(heap: map<nat, Task>, workers: seq<Worker>, cancels: map<string, nat>, i: nat, stopping: bool,
                       ok: bool)
    requires TasksKnown(heap, workers) && CancelsNamed(heap, workers, cancels) && i < |workers|
    ensures var workers' := workers[i := Advanced(workers[i], stopping, ok)];
            && TasksKnown(heap, workers')
            && CancelsNamed(heap, workers', CancelsAfter(cancels, workers[i].phase, heap[workers[i].task].id, i))
  {
  }

  lemma ReachAfterRegister(heap: map<nat, Task>, workers: seq<Worker>, cancels: map<string, nat>, i: nat, w': Worker)
    requires TasksKnown(heap, workers) && CancelsNamed(heap, workers, cancels) && CancelsReach(heap, workers, cancels)
    requires i < |workers| && workers[i].phase == Spawned && w' == workers[i].(phase := Preparing)
    ensures TasksKnown(heap, workers[i := w'])
    ensures var id := heap[workers[i].task].id;
            CancelsReach(heap, workers[i := w'], cancels[id := i]) <==> !(id in cancels && Active(workers[cancels[id]]))
  {
    var id := heap[workers[i].task].id;
    if id in cancels && Active(workers[cancels[id]]) {
      assert workers[i := w'][cancels[id]] == workers[cancels[id]];
    }
  }

  lemma ReachAfterDelete(heap: map<nat, Task>, workers: seq<Worker>, cancels: map<string, nat>, i: nat, w': Worker)
    requires TasksKnown(heap, workers) && CancelsNamed(heap, workers, cancels) && CancelsReach(heap, workers, cancels)
    requires i < |workers| && workers[i].phase == Triggered && w' == workers[i].(phase := Unregistered)
    ensures TasksKnown(heap, workers[i := w'])
    ensures var id := heap[workers[i].task].id;
            CancelsReach(heap, workers[i := w'], cancels - {id}) <==> !(id in cancels && Active(workers[cancels[id]]))
  {
    var id := heap[workers[i].task].id;
    if id in cancels && Active(workers[cancels[id]]) {
      assert workers[i := w'][cancels[id]] == workers[cancels[id]];
    }
  }

  lemma ReachAfterOther(heap: map<nat, Task>, workers: seq<Worker>, cancels: map<string, nat>, i: nat, stopping: bool,
                        ok: bool)
    requires TasksKnown(heap, workers) && CancelsReach(heap, workers, cancels)
    requires i < |workers| && workers[i].phase != Spawned && workers[i].phase != Finished
    ensures var workers' := workers[i := Advanced(workers[i], stopping, ok)];
            TasksKnown(heap, workers') && CancelsReach(heap, workers', cancels)
  {
  }

  lemma ReachRenamedIff(heap: map<nat, Task>, heap': map<nat, Task>, workers: seq<Worker>, cancels: map<string, nat>)
    requires TasksKnown(heap, workers) && heap'.Keys == heap.Keys
             && (forall r :: r in heap ==> heap'[r].id == heap[r].id)
    ensures TasksKnown(heap', workers)
    ensures CancelsReach(heap', workers, cancels) <==> CancelsReach(heap, workers, cancels)
    ensures CancelsNamed(heap', workers, cancels) <==> CancelsNamed(heap, workers, cancels)
  {
    forall i | 0 <= i < |workers| ensures workers[i].task in heap'
      && heap'[workers[i].task].id == heap[workers[i].task].id {
      assert workers[i].task in heap.Keys;
    }
  }

  lemma AdvanceReachIff(heap: map<nat, Task>, workers: seq<Worker>, cancels: map<string, nat>, i: nat, stopping: bool,
                        ok: bool)
    requires TasksKnown(heap, workers) && CancelsNamed(heap, workers, cancels) && CancelsReach(heap, workers, cancels)
    requires i < |workers| && workers[i].phase != Finished
    ensures var w, id := workers[i], heap[workers[i].task].id;
            var workers' := workers[i := Advanced(w, stopping, ok)];
            && TasksKnown(heap, workers')
            && (CancelsReach(heap, workers', CancelsAfter(cancels, w.phase, id, i))
                <==> !((w.phase == Spawned || w.phase == Triggered) && id in cancels && Active(workers[cancels[id]])))
  {
    if workers[i].phase == Spawned {
      ReachAfterRegister(heap, workers, cancels, i, Advanced(workers[i], stopping, ok));
    } else if workers[i].phase == Triggered {
      ReachAfterDelete(heap, workers, cancels, i, Advanced(workers[i], stopping, ok));
    } else {
      ReachAfterOther(heap, workers, cancels, i, stopping, ok);
    }
  }

  lemma WorkerReachIff(s: State, i: nat, ok: bool, error: string)
    requires WellFormed(s) && CancelsNamed(s.heap, s.workers, s.cancels) && CancelsReach(s.heap, s.workers, s.cancels)
    requires i < |s.workers| && s.workers[i].phase != Finished && WellFormed(WorkerNext(s, i, ok, error))
    ensures var s' := WorkerNext(s, i, ok, error);
            CancelsReach(s'.heap, s'.workers, s'.cancels) <==> !Loses(s, WorkerStep(i, ok, error))
  {
    var w, w' := s.workers[i], Advanced(s.workers[i], s.stopping, ok);
    AdvanceReachIff(s.heap, s.workers, s.cancels, i, s.stopping, ok);
    ReachRenamedIff(s.heap, HeapAfter(s.heap, w, error), s.workers[i := w'],
                    CancelsAfter(s.cancels, w.phase, s.heap[w.task].id, i));
    WorkerNextIs(s, i, ok, error);
  }

  lemma WorkerKeepsNamed(s: State, i: nat, ok: bool, error: string)
    requires WellFormed(s) && CancelsNamed(s.heap, s.workers, s.cancels) && i < |s.workers|
             && WellFormed(WorkerNext(s, i, ok, error))
    ensures var s' := WorkerNext(s, i, ok, error); CancelsNamed(s'.heap, s'.workers, s'.cancels)
  {
    var w, w' := s.workers[i], Advanced(s.workers[i], s.stopping, ok);
    NamedAfterStep(s.heap, s.workers, s.cancels, i, s.stopping, ok);
    ReachRenamedIff(s.heap, HeapAfter(s.heap, w, error), s.workers[i := w'],
                    CancelsAfter(s.cancels, w.phase, s.heap[w.task].id, i));
    WorkerNextIs(s, i, ok, error);
  }

  lemma CancelsKept(s: State, e: Event)
    requires WellFormed(s) && Enabled(s, e) && !e.WorkerStep? && !e.Restart?
    ensures Next(s, e).cancels == s.cancels
  {
    match e
    case AddTasks(names, host) => assert Append(s, names, host).cancels == s.cancels;
    case LoopStep(exit, now) => assert s.loop != TokenTaken ==> LoopNext(s, exit, now).cancels == s.cancels;
    case _ =>
  }

  lemma CancelsFrame(heap: map<nat, Task>, heap': map<nat, Task>, workers: seq<Worker>, workers': seq<Worker>,
                     cancels: map<string, nat>)
    requires TasksKnown(heap, workers) && TasksKnown(heap', workers') && SameAsBefore(workers, workers')
    requires forall r :: r in heap ==> r in heap' && heap'[r].id == heap[r].id
    ensures CancelsNamed(heap, workers, cancels) ==> CancelsNamed(heap', workers', cancels)
    ensures CancelsReach(heap, workers, cancels) ==> CancelsReach(heap', workers', cancels)
  {
  }

  lemma OtherStepReaches(s: State, e: Event)
    requires WellFormed(s) && CancelsNamed(s.heap, s.workers, s.cancels) && CancelsReach(s.heap, s.workers, s.cancels)
    requires Enabled(s, e) && !e.WorkerStep? && WellFormed(Next(s, e))
    ensures CancelsNamed(Next(s, e).heap, Next(s, e).workers, Next(s, e).cancels)
    ensures CancelsReach(Next(s, e).heap, Next(s, e).workers, Next(s, e).cancels)
  {
    if !e.Restart? {
      GrowsOneStep(s, e);
      WorkersKept(s, e);
      CancelsKept(s, e);
      CancelsFrame(s.heap, Next(s, e).heap, s.workers, Next(s, e).workers, s.cancels);
    }
  }

  /** One step keeps the reach of cancellation just when it loses no entry. */
  lemma StepReachIff(s: State, e: Event)
    requires Inv(s) && CancelsNamed(s.heap, s.workers, s.cancels) && CancelsReach(s.heap, s.workers, s.cancels)
             && Enabled(s, e)
    ensures WellFormed(Next(s, e)) && CancelsNamed(Next(s, e).heap, Next(s, e).workers, Next(s, e).cancels)
    ensures CancelsReach(Next(s, e).heap, Next(s, e).workers, Next(s, e).cancels) <==> !Loses(s, e)
  {
    assert WellFormed(Next(s, e)) by { InvKept(s, e); }
    if e.WorkerStep? {
      WorkerKeepsNamed(s, e.worker, e.ok, e.error);
      WorkerReachIff(s, e.worker, e.ok, e.error);
    } else {
      OtherStepReaches(s, e);
    }
  }

  ghost predicate NeverLoses(s: State, events: seq<Event>)
    decreases |events|
  {
    events != [] ==>
      && WellFormed(s) && Enabled(s, events[0]) && !Loses(s, events[0])
      && NeverLoses(Next(s, events[0]), events[1..])
  }

  /** Cancellation reaches every registered active worker in every state of the run. */
  ghost predicate ReachThroughout(s: State, events: seq<Event>)
    decreases |events|
  {
    && WellFormed(s) && CancelsReach(s.heap, s.workers, s.cancels)
    && (events != [] ==> Enabled(s, events[0]) && ReachThroughout(Next(s, events[0]), events[1..]))
  }

  /** Over any run, across restarts: activeCancels reaches every active worker that
      has registered, throughout, exactly if no worker registers over or deletes the
      entry of one that is still active. */
  lemma {:induction false} ReachThroughoutIff(s: State, events: seq<Event>, s': State)
    requires Inv(s) && CancelsNamed(s.heap, s.workers, s.cancels) && CancelsReach(s.heap, s.workers, s.cancels)
    requires Runs(s, events, s')
    ensures ReachThroughout(s, events) <==> NeverLoses(s, events)
    decreases |events|
  {
    if events != [] {
      var s1 := Next(s, events[0]);
      InvKept(s, events[0]);
      StepReachIff(s, events[0]);
      if CancelsReach(s1.heap, s1.workers, s1.cancels) {
        ReachThroughoutIff(s1, events[1..], s');
      } else {
        assert !ReachThroughout(s1, events[1..]);
      }
    }
  }

  /* ---------- Removing a Running task ---------- */

  /** The listed task that ControlTask finds under the identifier is Running. */
  ghost predicate FindsRunning(s: State, id: string)
    requires WellFormed(s)
  {
    var i := Position(s.list, s.heap, id);
    i < |s.list| && s.heap[s.list[i]].status == Running
  }

  /** Removing it cancels the worker of the entry, and no other. */
  lemma RemoveCancelsEntry(s: State, id: string, present: set<string>, j: nat)
    requires WellFormed(s) && FindsRunning(s, id) && j < |s.workers|
    ensures var s' := ControlNext(s, id, Remove, present);
            && j < |s'.workers|
            && (s'.workers[j].cancelled <==> s.workers[j].cancelled || (id in s.cancels && s.cancels[id] == j))
  {
    var i := Position(s.list, s.heap, id);
    assert Control(s.list, s.heap, id, Remove, present) == ControlOne(s.list, s.heap, i, Remove, present);
  }

  /** As long as cancellation reaches, removing a Running task cancels its upload
      exactly if its worker has registered (or was cancelled before). */
  lemma RemoveReachesIff(s: State, id: string, present: set<string>, j: nat)
    requires WellFormed(s) && CancelsNamed(s.heap, s.workers, s.cancels) && CancelsReach(s.heap, s.workers, s.cancels)
    requires FindsRunning(s, id) && j < |s.workers| && Active(s.workers[j])
    requires s.workers[j].task == s.list[Position(s.list, s.heap, id)]
    ensures var s' := ControlNext(s, id, Remove, present);
            && j < |s'.workers|
            && (s'.workers[j].cancelled <==> s.workers[j].cancelled || s.workers[j].phase != Spawned)
  {
    RemoveCancelsEntry(s, id, present, j);
  }

  /** What losing an entry does: a worker that is still active, and was reached by
      its identifier, is reached no more. */
  lemma LostIsUnreached(s: State, e: Event, present: set<string>)
    requires Inv(s) && CancelsNamed(s.heap, s.workers, s.cancels) && Enabled(s, e) && Loses(s, e)
    ensures var id := s.heap[s.workers[e.worker].task].id;
            var j, s' := s.cancels[id], Next(s, e);
            && WellFormed(s') && j < |s'.workers| && s'.workers[j] == s.workers[j]
            && !(id in s'.cancels && s'.cancels[id] == j)
            && (FindsRunning(s', id) ==>
                  && j < |ControlNext(s', id, Remove, present).workers|
                  && ControlNext(s', id, Remove, present).workers[j].cancelled == s.workers[j].cancelled)
  {
    var id := s.heap[s.workers[e.worker].task].id;
    var j, s' := s.cancels[id], Next(s, e);
    assert WellFormed(s') by { InvKept(s, e); }
    WorkerNextIs(s, e.worker, e.ok, e.error);
    if FindsRunning(s', id) {
      RemoveCancelsEntry(s', id, present, j);
    }
  }
}
