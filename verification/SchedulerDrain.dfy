/** Progress of the queue scheduler. Left to itself, with no new calls and every
    upload returning, it takes a bounded number of steps; where it stops, either
    no listed task is Pending, or it has been shut down completely. */
module SchedulerDrain {
  import opened Tasks
  import opened Scheduler
  import opened SchedulerSafety
  import opened SchedulerRuns
  import opened SchedulerOutcomes
  import opened SchedulerPromises

  /* ---------- The measure ---------- */

  /** Steps a worker still has to take. */
  function StepsLeft(p: Phase): nat {
    match p
    case Spawned => 13
    case Preparing => 12
    case Connected => 11
    case Uploading => 10
    case Uploaded => 9
    case Aborting => 8
    case Closed => 8
    case Returned => 7
    case Recorded => 6
    case Saved => 5
    case Triggered => 4
    case Unregistered => 3
    case Decremented => 2
    case Signalled => 1
    case Finished => 0
  }

  function WorkLeft(workers: seq<Worker>): nat {
    if workers == [] then 0 else WorkLeft(workers[..|workers| - 1]) + StepsLeft(workers[|workers| - 1].phase)
  }

  function CallsLeft(callers: seq<Caller>): nat {
    if callers == [] then 0
    else CallsLeft(callers[..|callers| - 1])
         + (var c := callers[|callers| - 1]; (if c.saveOwed then 1 else 0) + c.triggersOwed)
  }

  function LoopLeft(l: Loop): nat {
    match l
    case TokenTaken => 3
    case SaveOwed => 2
    case Waiting => 1
    case Exited => 0
  }

  /** `workers` bounds the clients a shutdown may still have to close: those of
      the workers there are and of the ones Pending tasks may yet become. */
  function ShutdownLeft(p: ShutdownPhase, workers: nat): nat {
    match p
    case NotStarted => 0
    case TriggerOwed => workers + 8
    case AwaitingLoop => workers + 3
    case Closing(remaining) => |remaining| + 2
    case AwaitingTasks => 1
    case Complete => 0
  }

  /** A Pending task weighs more than a whole worker, and one step of a thread
      more than the token it may put. */
  function Weight(pending: nat, work: nat, calls: nat, token: bool, loop: Loop, shutdown: ShutdownPhase,
                  workers: nat): nat {
    56 * pending + 4 * work + 4 * calls + (if token then 3 else 0)
    + LoopLeft(loop) + ShutdownLeft(shutdown, workers + pending)
  }

  /** A bound on the internal steps left. */
  ghost function Measure(s: State): nat
    requires Covers(s.heap, s.list)
  {
    Weight(|PendingOf(s.list, s.heap)|, WorkLeft(s.workers), CallsLeft(s.callers), s.token, s.loop, s.shutdown,
      |s.workers|)
  }

  lemma {:induction false} WorkLeftUpdate(workers: seq<Worker>, i: nat, w: Worker)
    requires i < |workers|
    ensures WorkLeft(workers[i := w]) == WorkLeft(workers) - StepsLeft(workers[i].phase) + StepsLeft(w.phase)
  {
    var n := |workers| - 1;
    if i < n {
      WorkLeftUpdate(workers[..n], i, w);
      assert workers[i := w][..n] == workers[..n][i := w];
    } else {
      assert workers[i := w][..n] == workers[..n];
    }
  }

  lemma {:induction false} WorkLeftFrame(workers: seq<Worker>, workers': seq<Worker>)
    requires SameProgress(workers, workers')
    ensures WorkLeft(workers') == WorkLeft(workers)
  {
    if workers != [] {
      WorkLeftFrame(workers[..|workers| - 1], workers'[..|workers| - 1]);
    }
  }

  lemma {:induction false} CallsLeftUpdate(callers: seq<Caller>, i: nat, c: Caller)
    requires i < |callers|
    ensures CallsLeft(callers[i := c])
            == CallsLeft(callers) - ((if callers[i].saveOwed then 1 else 0) + callers[i].triggersOwed)
               + ((if c.saveOwed then 1 else 0) + c.triggersOwed)
  {
    var n := |callers| - 1;
    if i < n {
      CallsLeftUpdate(callers[..n], i, c);
      assert callers[i := c][..n] == callers[..n][i := c];
    } else {
      assert callers[i := c][..n] == callers[..n];
    }
  }

  lemma WorkLeftAppend(workers: seq<Worker>, w: Worker)
    ensures WorkLeft(workers + [w]) == WorkLeft(workers) + StepsLeft(w.phase)
  {
    assert (workers + [w])[..|workers|] == workers;
  }

  lemma {:induction false} WorkLeftAfterSpawn(workers: seq<Worker>, picked: seq<nat>)
    ensures WorkLeft(workers + NewWorkers(picked)) == WorkLeft(workers) + 13 * |picked|
    decreases |picked|
  {
    if picked == [] {
      assert workers + NewWorkers(picked) == workers;
    } else {
      var n := |picked| - 1;
      WorkLeftAfterSpawn(workers, picked[..n]);
      assert workers + NewWorkers(picked) == workers + NewWorkers(picked[..n]) + [NewWorker(picked[n])];
      WorkLeftAppend(workers + NewWorkers(picked[..n]), NewWorker(picked[n]));
    }
  }

  lemma {:induction false} IndicesBound(indices: set<nat>, n: nat)
    requires forall i :: i in indices ==> i < n
    ensures |indices| <= n
    decreases n
  {
    if n > 0 {
      IndicesBound(indices - {n - 1}, n - 1);
    }
  }

  /* ---------- Every internal step uses up measure ---------- */

  lemma CallerStepFalls(s: State, c: nat)
    requires WellFormed(s) && c < |s.callers| && s.callers[c] != Caller(false, 0)
    ensures Measure(CallerNext(s, c)) < Measure(s)
  {
    var s' := CallerNext(s, c);
    CallsLeftUpdate(s.callers, c, s'.callers[c]);
  }

  lemma FillUsesUpPending(list: seq<nat>, heap: map<nat, Task>, running: int, limit: int, now: int)
    requires Covers(heap, list) && Distinct(list)
    ensures var picked := Picked(list, heap, running, limit);
            var heap' := MarkStarted(heap, picked, now);
            Covers(heap', list) && |PendingOf(list, heap')| == |PendingOf(list, heap)| - |picked|
  {
    PassFillsSlotsInOrder(list, heap, running, limit, now);
  }

  lemma FillFalls(s: State, now: int)
    requires WellFormed(s) && s.loop == TokenTaken
    ensures WellFormed(Fill(s, now)) && Measure(Fill(s, now)) < Measure(s)
  {
    var s' := Fill(s, now);
    var k := |Picked(s.list, s.heap, s.runningTasks, s.maxConcurrent)|;
    assert WellFormed(s') by { WellFormedFill(s, now); }
    assert |PendingOf(s.list, s'.heap)| == |PendingOf(s.list, s.heap)| - k by {
      FillUsesUpPending(s.list, s.heap, s.runningTasks, s.maxConcurrent, now);
    }
    assert WorkLeft(s'.workers) == WorkLeft(s.workers) + 13 * k by {
      WorkLeftAfterSpawn(s.workers, Picked(s.list, s.heap, s.runningTasks, s.maxConcurrent));
    }
    SpawnedMeasure(s, s', k);
  }

  lemma SpawnedMeasure(s: State, s': State, k: nat)
    requires Covers(s.heap, s.list) && Covers(s'.heap, s'.list)
    requires |PendingOf(s'.list, s'.heap)| == |PendingOf(s.list, s.heap)| - k
    requires WorkLeft(s'.workers) == WorkLeft(s.workers) + 13 * k && |s'.workers| == |s.workers| + k
    requires s'.callers == s.callers && s'.token == s.token && s'.shutdown == s.shutdown
    requires s.loop == TokenTaken && s'.loop == SaveOwed
    ensures Measure(s') < Measure(s)
  {
    SpawnedWeighLess(|PendingOf(s.list, s.heap)|, k, WorkLeft(s.workers), CallsLeft(s.callers), s.token, s.shutdown,
      |s.workers|);
  }

  lemma SpawnedWeighLess(pending: nat, k: nat, work: nat, calls: nat, token: bool, shutdown: ShutdownPhase,
                         workers: nat)
    requires k <= pending
    ensures Weight(pending - k, work + 13 * k, calls, token, SaveOwed, shutdown, workers + k)
            < Weight(pending, work, calls, token, TokenTaken, shutdown, workers)
  {
  }

  lemma LoopStepFalls(s: State, exit: bool, now: int)
    requires WellFormed(s) && LoopEnabled(s, exit)
    ensures WellFormed(LoopNext(s, exit, now)) && Measure(LoopNext(s, exit, now)) < Measure(s)
  {
    if s.loop == TokenTaken {
      FillFalls(s, now);
    } else {
      WellFormedLoop(s, exit, now);
    }
  }

  lemma PendingAfterWorker(s: State, i: nat, error: string)
    requires WellFormed(s) && i < |s.workers|
    requires s.workers[i].phase == Returned ==> s.heap[s.workers[i].task].status == Running
    ensures var heap' := HeapAfter(s.heap, s.workers[i], error);
            Covers(heap', s.list) && PendingOf(s.list, heap') == PendingOf(s.list, s.heap)
  {
    var heap' := HeapAfter(s.heap, s.workers[i], error);
    forall r | r in s.list ensures r in heap' && (heap'[r].status == Pending <==> s.heap[r].status == Pending) {
      assert r in s.heap.Keys;
    }
    PendingOfFrame(s.list, s.heap, heap');
  }

  lemma AdvanceFalls(w: Worker, stopping: bool, ok: bool)
    requires w.phase != Finished
    ensures StepsLeft(Advanced(w, stopping, ok).phase) < StepsLeft(w.phase)
  {
  }

  lemma WorkerStepFalls(s: State, i: nat, ok: bool, error: string)
    requires WellFormed(s) && OneWorkerPerRunningTask(s.heap, s.workers) && i < |s.workers|
             && s.workers[i].phase != Finished
    ensures WellFormed(WorkerNext(s, i, ok, error)) && Measure(WorkerNext(s, i, ok, error)) < Measure(s)
  {
    var s' := WorkerNext(s, i, ok, error);
    assert WellFormed(s') by { WellFormedWorker(s, i, ok, error); }
    assert PendingOf(s.list, s'.heap) == PendingOf(s.list, s.heap) by {
      if s.workers[i].phase == Returned {
        ActiveCountMember(s.workers, i);
      }
      PendingAfterWorker(s, i, error);
    }
    assert WorkLeft(s'.workers) < WorkLeft(s.workers) by {
      WorkLeftUpdate(s.workers, i, Advanced(s.workers[i], s.stopping, ok));
      AdvanceFalls(s.workers[i], s.stopping, ok);
    }
    assert s'.callers == s.callers && s'.loop == s.loop && s'.shutdown == s.shutdown && |s'.workers| == |s.workers|;
  }

  lemma ClosersBound(s: State)
    requires WellFormed(s)
    ensures |s.closers.Values| <= |s.workers|
  {
    ClosersInRange(s);
    IndicesBound(s.closers.Values, |s.workers|);
  }

  /** The phases of a shutdown, as ShutdownNext goes through them. */
  function PhaseAfter(p: ShutdownPhase, closers: set<nat>, target: nat): ShutdownPhase {
    match p
    case NotStarted => NotStarted
    case TriggerOwed => AwaitingLoop
    case AwaitingLoop => Closing(closers)
    case Closing(remaining) => if remaining == {} then AwaitingTasks else Closing(remaining - {target})
    case _ => Complete
  }

  lemma ShutdownPhaseIs(s: State, target: nat)
    requires WellFormed(s) && ShutdownEnabled(s, target)
    ensures ShutdownNext(s, target).shutdown == PhaseAfter(s.shutdown, s.closers.Values, target)
    ensures ShutdownNext(s, target).token == (s.token || s.shutdown == TriggerOwed)
  {
  }

  lemma PhaseFalls(p: ShutdownPhase, closers: set<nat>, target: nat, n: nat, token: bool)
    requires |closers| <= n && p != NotStarted && p != Complete
    requires p.Closing? && p.remaining != {} ==> target in p.remaining
    ensures ShutdownLeft(PhaseAfter(p, closers, target), n) + (if token || p == TriggerOwed then 3 else 0)
            < ShutdownLeft(p, n) + (if token then 3 else 0)
  {
    if p.Closing? && p.remaining != {} {
      assert |p.remaining - {target}| == |p.remaining| - 1;
    }
  }

  lemma ShutdownStepFalls(s: State, target: nat)
    requires WellFormed(s) && ShutdownEnabled(s, target)
    ensures Covers(s.heap, s.list) && Measure(ShutdownNext(s, target)) < Measure(s)
  {
    var s' := ShutdownNext(s, target);
    assert WorkLeft(s'.workers) == WorkLeft(s.workers) by { WorkLeftFrame(s.workers, s'.workers); }
    ClosersBound(s);
    ShutdownPhaseIs(s, target);
    PhaseFalls(s.shutdown, s.closers.Values, target, |s.workers| + |PendingOf(s.list, s.heap)|, s.token);
  }

  /** Every internal step lowers the measure. */
  lemma InternalStepFalls(s: State, e: Event)
    requires Inv(s) && Internal(e) && Enabled(s, e)
    ensures Inv(Next(s, e)) && Measure(Next(s, e)) < Measure(s)
  {
    InvKept(s, e);
    match e
    case CallerStep(c) => CallerStepFalls(s, c);
    case LoopStep(exit, now) => LoopStepFalls(s, exit, now);
    case WorkerStep(i, ok, error) => WorkerStepFalls(s, i, ok, error);
    case ShutdownStep(target) => ShutdownStepFalls(s, target);
  }

  ghost predicate AllInternal(events: seq<Event>) {
    forall i :: 0 <= i < |events| ==> Internal(events[i])
  }

  /** Left alone, the system takes at most Measure(s) steps, in any order. */
  lemma {:induction false} InternalRunsAreBounded(s: State, events: seq<Event>, s': State)
    requires Inv(s) && AllInternal(events) && Runs(s, events, s')
    ensures Inv(s') && |events| + Measure(s') <= Measure(s)
    decreases |events|
  {
    if events != [] {
      assert Internal(events[0]);
      InternalStepFalls(s, events[0]);
      InternalRunsAreBounded(Next(s, events[0]), events[1..], s');
    }
  }

  /* ---------- Where it stops ---------- */

  /** No thread can take a step. */
  ghost predicate Quiescent(s: State) {
    forall e: Event :: Internal(e) ==> !Enabled(s, e)
  }

  lemma QuiescentThreads(s: State)
    requires Quiescent(s)
    ensures forall i :: 0 <= i < |s.callers| ==> s.callers[i] == Caller(false, 0)
    ensures AllFinished(s.workers)
    ensures s.loop == Exited || (s.loop == Waiting && !s.token && !s.stopping)
    ensures s.shutdown == NotStarted || s.shutdown == Complete || (s.shutdown == AwaitingLoop && s.loop != Exited)
  {
    forall i | 0 <= i < |s.callers| ensures s.callers[i] == Caller(false, 0) {
      assert !Enabled(s, CallerStep(i));
    }
    forall i | 0 <= i < |s.workers| ensures s.workers[i].phase == Finished {
      assert !Enabled(s, WorkerStep(i, true, ""));
    }
    assert !Enabled(s, LoopStep(false, 0)) && !Enabled(s, LoopStep(true, 0));
    if s.shutdown.Closing? && s.shutdown.remaining != {} {
      var target :| target in s.shutdown.remaining;
      assert !Enabled(s, ShutdownStep(target));
    }
    assert !Enabled(s, ShutdownStep(0));
  }

  lemma {:induction false} FinishedWorkersHoldNoSlot(workers: seq<Worker>)
    requires AllFinished(workers)
    ensures LiveCount(workers) == 0
  {
    if workers != [] {
      FinishedWorkersHoldNoSlot(workers[..|workers| - 1]);
    }
  }

  /** Where nothing moves any more: without a shutdown no listed task is Pending
      and the state file is up to date; after one, Shutdown has returned. In both
      cases no client is open. */
  lemma QuiescentMeansDrained(s: State)
    requires Inv(s) && Quiescent(s)
    ensures !OwesSave(s) && AllFinished(s.workers)
    ensures !s.stopping ==> forall r :: r in s.list ==> s.heap[r].status != Pending
    ensures s.stopping ==> s.shutdown == Complete
    ensures forall i :: 0 <= i < |s.workers| ==> s.workers[i].client != Open
  {
    QuiescentThreads(s);
    forall i | 0 <= i < |s.workers| ensures s.workers[i].client != Open {
      assert ClientAccounted(s.workers[i]);
    }
    if !s.stopping {
      NothingPending(s);
    }
  }

  lemma NothingPending(s: State)
    requires WellFormed(s) && NoLostWakeup(s) && WorkersOk(s) && !s.stopping
    requires AllFinished(s.workers) && s.loop == Waiting && !s.token
    requires forall i :: 0 <= i < |s.callers| ==> s.callers[i] == Caller(false, 0)
    ensures forall r :: r in s.list ==> s.heap[r].status != Pending
  {
    FinishedWorkersHoldNoSlot(s.workers);
    assert !Woken(s);
    forall r | r in s.list ensures s.heap[r].status != Pending {
      assert r !in PendingOf(s.list, s.heap);
    }
  }

  /** Drain: every maximal internal run from a reachable state has at most
      Measure(s) steps, and ends with no Pending task, or with Shutdown done. */
  lemma MaximalRunDrains(s: State, events: seq<Event>, s': State)
    requires Reachable(s) && AllInternal(events) && Runs(s, events, s') && Quiescent(s')
    ensures Covers(s.heap, s.list) && |events| <= Measure(s)
    ensures !s'.stopping ==> forall r :: r in s'.list ==> r in s'.heap && s'.heap[r].status != Pending
    ensures s'.stopping ==> s'.shutdown == Complete && AllFinished(s'.workers)
  {
    ReachableInv(s);
    InternalRunsAreBounded(s, events, s');
    QuiescentMeansDrained(s');
  }

  /* ---------- How the tasks end ---------- */

  /** A task whose upload is due or over: it is under way or has ended or, unless it
      is known to have started, waits on the list. */
  predicate Awaited(s: State, r: nat, started: bool) {
    r in s.heap && s.heap[r].status != Paused && (s.heap[r].status == Pending ==> !started && r in s.list)
  }

  lemma AwaitedUnderLoop(s: State, exit: bool, now: int, r: nat, started: bool)
    requires WellFormed(s) && LoopEnabled(s, exit) && Awaited(s, r, started)
    ensures Awaited(LoopNext(s, exit, now), r, started)
  {
    if s.loop == TokenTaken {
      PassStarts(s.list, s.heap, s.runningTasks, s.maxConcurrent, now, r);
    }
  }

  lemma AwaitedUnderWorker(s: State, i: nat, ok: bool, error: string, r: nat, started: bool)
    requires WellFormed(s) && i < |s.workers| && Awaited(s, r, started)
    ensures Awaited(WorkerNext(s, i, ok, error), r, started)
  {
    if s.workers[i].phase == Returned {
      OutcomeIsRecorded(s, i, ok, error);
    }
  }

  lemma AwaitedKept(s: State, e: Event, r: nat, started: bool)
    requires WellFormed(s) && Internal(e) && Enabled(s, e) && Awaited(s, r, started)
    ensures Awaited(Next(s, e), r, started)
  {
    match e
    case CallerStep(_) =>
    case LoopStep(exit, now) => AwaitedUnderLoop(s, exit, now, r, started);
    case WorkerStep(i, ok, error) => AwaitedUnderWorker(s, i, ok, error, r, started);
    case ShutdownStep(_) =>
  }

  lemma {:induction false} AwaitedAlongRun(s: State, events: seq<Event>, s': State, r: nat, started: bool)
    requires Inv(s) && AllInternal(events) && Runs(s, events, s') && Awaited(s, r, started)
    ensures Inv(s') && Awaited(s', r, started)
    decreases |events|
  {
    if events != [] {
      assert Internal(events[0]);
      InvKept(s, events[0]);
      AwaitedKept(s, events[0], r, started);
      AwaitedAlongRun(Next(s, events[0]), events[1..], s', r, started);
    }
  }

  lemma {:induction false} FinishedWorkersAreNotActive(workers: seq<Worker>, r: nat)
    requires AllFinished(workers)
    ensures ActiveCount(workers, r) == 0
  {
    if workers != [] {
      FinishedWorkersAreNotActive(workers[..|workers| - 1], r);
    }
  }

  lemma EndedOnDisk(s: State, k: nat)
    requires WellFormed(s) && CrashConsistent(s) && !OwesSave(s)
    requires k < |s.list| && s.heap[s.list[k]].status in {Completed, Failed}
    ensures k < |s.disk.tasks| && s.disk.tasks[k].id == s.heap[s.list[k]].id
    ensures s.disk.tasks[k].status == s.heap[s.list[k]].status
  {
  }

  lemma NothingAwaitedIsLeft(s: State, r: nat, started: bool)
    requires Inv(s) && Quiescent(s) && Awaited(s, r, started) && (s.stopping ==> started)
    ensures s.heap[r].status in {Completed, Failed} && !OwesSave(s)
  {
    QuiescentMeansDrained(s);
    FinishedWorkersAreNotActive(s.workers, r);
  }

  /** And every task that was Running has then ended as an upload of its own on the way
      did: Completed by one that succeeded, or Failed by one that did not. So has
      every task that was Pending on the list, unless the system was shut down. The
      state file says the same of each that is listed. */
  lemma DrainDecidesTasks(s: State, events: seq<Event>, s': State, r: nat)
    requires Reachable(s) && AllInternal(events) && Runs(s, events, s') && Quiescent(s') && r in s.heap
    requires s.heap[r].status == Running || (!s'.stopping && s.heap[r].status == Pending && r in s.list)
    ensures r in s'.heap && s'.heap[r].status in {Completed, Failed}
    ensures exists i, ok :: 0 <= i < |s'.workers| && NewlyReported(s.workers, s'.workers, i, r, ok)
                            && s'.heap[r].status == StatusFor(ok)
    ensures forall k :: 0 <= k < |s'.list| && s'.list[k] == r ==>
              && k < |s'.disk.tasks| && s'.disk.tasks[k].id == s'.heap[r].id
              && s'.disk.tasks[k].status == s'.heap[r].status
  {
    ReachableInv(s);
    AwaitedAlongRun(s, events, s', r, s.heap[r].status == Running);
    NothingAwaitedIsLeft(s', r, s.heap[r].status == Running);
    forall k | 0 <= k < |s'.list| && s'.list[k] == r
      ensures k < |s'.disk.tasks| && s'.disk.tasks[k].id == s'.heap[r].id
      ensures s'.disk.tasks[k].status == s'.heap[r].status
    {
      EndedOnDisk(s', k);
    }
    assert SameProcess(events) by { NoRestartInside(events); }
    if s'.heap[r].status == Completed {
      CompletedMeansUploaded(s, events, s', r);
    } else {
      FailedMeansReported(s, events, s', r);
    }
  }

  lemma NoRestartInside(events: seq<Event>)
    requires AllInternal(events)
    ensures SameProcess(events)
  {
    forall i | 0 <= i < |events| ensures !events[i].Restart? {
      assert Internal(events[i]);
    }
  }

  lemma SomeStepFalls(s: State) returns (e: Event)
    requires Inv(s) && !Quiescent(s)
    ensures Internal(e) && Enabled(s, e) && Inv(Next(s, e)) && Measure(Next(s, e)) < Measure(s)
  {
    e :| Internal(e) && Enabled(s, e);
    InternalStepFalls(s, e);
  }

  lemma InternalCons(e: Event, events: seq<Event>)
    requires Internal(e) && AllInternal(events)
    ensures AllInternal([e] + events)
  {
  }

  /** Such a run exists: the system is never stuck before it is drained. */
  lemma {:induction false} SomeRunDrains(s: State) returns (events: seq<Event>, s': State)
    requires Inv(s)
    ensures AllInternal(events) && Runs(s, events, s') && Inv(s') && Quiescent(s')
    decreases Measure(s)
  {
    if Quiescent(s) {
      events, s' := [], s;
    } else {
      var e := SomeStepFalls(s);
      var rest;
      rest, s' := SomeRunDrains(Next(s, e));
      RunsCons(s, e, rest, s');
      InternalCons(e, rest);
      events := [e] + rest;
    }
  }
}
