/** The invariant over every step and every run, and the promises it carries. */
module SchedulerRuns {
  import opened Tasks
  import opened Scheduler
  import opened SchedulerSafety

  /* ---------- The invariant is kept ---------- */

  lemma InvAfterAdd(s: State, names: seq<string>, host: string)
    requires Inv(s) && Enabled(s, AddTasks(names, host))
    ensures Inv(Next(s, AddTasks(names, host)))
  {
    if names != [] {
      var s' := Next(s, AddTasks(names, host));
      AppendKeepsWellFormed(s, names, host);
      OneWorkerAfterAppend(s, names, host);
      AppendExtends(s, names, host);
      var last := |s.callers|;
      assert CallerOwesTrigger(s'.callers[last]) && CallerOwesSave(s'.callers[last]);
    }
  }

  lemma InvAfterConcurrency(s: State, files: int)
    requires Inv(s) && files > 0
    ensures Inv(Next(s, SetConcurrency(files)))
  {
    var s' := Next(s, SetConcurrency(files));
    assert CallerOwesTrigger(s'.callers[|s.callers|]);
    if OwesSave(s) {
      OwesSaveFrame(s, s');
    }
  }

  /** A step that changes nothing of the workers but cancellation and clients
      keeps every count. */
  lemma WorkersTouched(s: State, workers': seq<Worker>, heap': map<nat, Task>)
    requires OneWorkerPerRunningTask(s.heap, s.workers) && ClosersPast(s.workers, s.closers)
    requires Counted(s.runningTasks, s.workers, s.maxConcurrent, s.peak)
    requires SameProgress(s.workers, workers') && heap'.Keys == s.heap.Keys
    requires forall r :: r in s.heap ==>
               heap'[r].id == s.heap[r].id && (heap'[r].status == Running <==> s.heap[r].status == Running)
    ensures OneWorkerPerRunningTask(heap', workers')
    ensures ClosersPast(workers', s.closers)
    ensures Counted(s.runningTasks, workers', s.maxConcurrent, s.peak)
  {
    CountsFrame(s.workers, workers', 0);
    forall r | r in heap'
      ensures ActiveCount(workers', r) == (if heap'[r].status == Running then 1 else 0)
    {
      assert r in heap'.Keys;
      CountsFrame(s.workers, workers', r);
    }
  }

  lemma ControlKeepsRecords(s: State, id: string, action: Action, present: set<string>)
    requires WellFormed(s)
    ensures var e := Control(s.list, s.heap, id, action, present);
            && e.heap.Keys == s.heap.Keys
            && (forall r :: r in s.heap ==>
                e.heap[r].id == s.heap[r].id && (e.heap[r].status == Running <==> s.heap[r].status == Running))
  {
    var e := Control(s.list, s.heap, id, action, present);
    ControlIsDisciplined(s.list, s.heap, id, action, present);
    forall r | r in s.heap
      ensures e.heap[r].id == s.heap[r].id && (e.heap[r].status == Running <==> s.heap[r].status == Running)
    {
      assert KeepsDiscipline(s.list, s.heap[r], e.heap[r], r, e);
    }
  }

  lemma CancelKeepsWorkers(s: State, id: string, cancel: bool, heap': map<nat, Task>)
    requires WellFormed(s) && WorkersOk(s)
    requires heap'.Keys == s.heap.Keys
    requires forall r :: r in s.heap ==>
               heap'[r].id == s.heap[r].id && (heap'[r].status == Running <==> s.heap[r].status == Running)
    ensures var workers' := WorkersAfterCancel(s, id, cancel);
            && OneWorkerPerRunningTask(heap', workers')
            && ClosersPast(workers', s.closers)
            && Counted(s.runningTasks, workers', s.maxConcurrent, s.peak)
            && ClientsAccounted(workers')
            && ShutdownPhases(s.stopping, s.shutdown, s.loop, workers')
  {
    WorkersTouched(s, WorkersAfterCancel(s, id, cancel), heap');
  }

  lemma WorkersAfterControl(s: State, id: string, action: Action, present: set<string>)
    requires WellFormed(s) && WorkersOk(s)
    ensures WellFormed(ControlNext(s, id, action, present)) && WorkersOk(ControlNext(s, id, action, present))
  {
    var e := Control(s.list, s.heap, id, action, present);
    assert WellFormed(ControlNext(s, id, action, present)) by { WellFormedControl(s, id, action, present); }
    ControlKeepsRecords(s, id, action, present);
    CancelKeepsWorkers(s, id, e.cancelled.Some?, e.heap);
  }

  lemma InvAfterControl(s: State, id: string, action: Action, present: set<string>)
    requires Inv(s)
    ensures Inv(ControlNext(s, id, action, present))
  {
    WorkersAfterControl(s, id, action, present);
    WakeupAfterControl(s, id, action, present);
    CrashAfterControl(s, id, action, present);
  }

  lemma WorkersAfterCaller(s: State, c: nat)
    requires WellFormed(s) && WorkersOk(s) && c < |s.callers| && s.callers[c] != Caller(false, 0)
    ensures WellFormed(CallerNext(s, c)) && WorkersOk(CallerNext(s, c))
  {
    assert SameWorkers(s, CallerNext(s, c));
    WellFormedFrame(s, CallerNext(s, c));
    WorkersFrame(s, CallerNext(s, c));
  }

  lemma InvAfterCaller(s: State, c: nat)
    requires Inv(s) && Enabled(s, CallerStep(c))
    ensures Inv(CallerNext(s, c))
  {
    WorkersAfterCaller(s, c);
    WakeupAfterCaller(s, c);
    CrashAfterCaller(s, c);
  }

  lemma WorkersAfterFill(s: State, now: int)
    requires WellFormed(s) && WorkersOk(s) && s.loop == TokenTaken
    ensures WellFormed(Fill(s, now)) && WorkersOk(Fill(s, now))
  {
    var s' := Fill(s, now);
    WellFormedFill(s, now);
    CountedAfterFill(s, now);
    OneWorkerAfterFill(s, now);
    assert ClosersPast(s'.workers, s.closers);
    ShutdownAfterFill(s, now);
  }

  lemma InvAfterFill(s: State, now: int)
    requires Inv(s) && s.loop == TokenTaken
    ensures Inv(Fill(s, now))
  {
    WorkersAfterFill(s, now);
    WakeupAfterLoop(s, false, now);
    CrashAfterLoop(s, false, now);
  }

  lemma InvAfterLoop(s: State, exit: bool, now: int)
    requires Inv(s) && LoopEnabled(s, exit)
    ensures Inv(LoopNext(s, exit, now))
  {
    if s.loop == TokenTaken {
      InvAfterFill(s, now);
    } else {
      WellFormedLoop(s, exit, now);
      WakeupAfterLoop(s, exit, now);
      CrashAfterLoop(s, exit, now);
      assert WorkersOk(LoopNext(s, exit, now));
    }
  }

  lemma WorkersAfterWorker(s: State, i: nat, ok: bool, error: string)
    requires WellFormed(s) && WorkersOk(s) && i < |s.workers| && s.workers[i].phase != Finished
    ensures WellFormed(WorkerNext(s, i, ok, error)) && WorkersOk(WorkerNext(s, i, ok, error))
  {
    assert WellFormed(WorkerNext(s, i, ok, error)) by { WellFormedWorker(s, i, ok, error); }
    CountedAfterWorker(s.runningTasks, s.workers, s.maxConcurrent, s.peak, i, s.stopping, ok);
    OneWorkerAfterWorker(s.heap, s.workers, i, s.stopping, ok, error);
    ClosersPastAfterWorker(s.workers, s.closers, i, s.stopping, ok, s.heap[s.workers[i].task].id);
    ShutdownAfterWorker(s.stopping, s.shutdown, s.loop, s.workers, i, ok);
  }

  lemma InvAfterWorker(s: State, i: nat, ok: bool, error: string)
    requires Inv(s) && i < |s.workers| && s.workers[i].phase != Finished
    ensures Inv(WorkerNext(s, i, ok, error))
  {
    WorkersAfterWorker(s, i, ok, error);
    WakeupAfterWorker(s, i, ok, error);
    CrashAfterWorker(s, i, ok, error);
  }

  lemma WorkersAfterShutdown(s: State, target: nat)
    requires WellFormed(s) && WorkersOk(s) && ShutdownEnabled(s, target)
    ensures WellFormed(ShutdownNext(s, target)) && WorkersOk(ShutdownNext(s, target))
  {
    var s' := ShutdownNext(s, target);
    assert WellFormed(s') by { WellFormedShutdown(s, target); }
    assert ShutdownPhases(s'.stopping, s'.shutdown, s'.loop, s'.workers) && ClientsAccounted(s'.workers) by {
      ShutdownAfterShutdown(s, target);
    }
    WorkersTouched(s, s'.workers, s.heap);
  }

  lemma CrashAfterShutdown(s: State, target: nat)
    requires WellFormed(s) && CrashConsistent(s) && ShutdownEnabled(s, target) && WellFormed(ShutdownNext(s, target))
    ensures CrashConsistent(ShutdownNext(s, target))
  {
    if OwesSave(s) {
      OwesSaveFrame(s, ShutdownNext(s, target));
    }
  }

  lemma InvAfterShutdown(s: State, target: nat)
    requires Inv(s) && ShutdownEnabled(s, target)
    ensures Inv(ShutdownNext(s, target))
  {
    WorkersAfterShutdown(s, target);
    CrashAfterShutdown(s, target);
  }

  lemma InvAfterLoad(disk: Disk, retained: set<string>, rewrite: bool)
    ensures Inv(Load(disk, retained, rewrite))
  {
    var s := Load(disk, retained, rewrite);
    WellFormedLoad(disk, retained, rewrite);
    CrashAfterLoad(disk, retained, rewrite);
    if |s.list| > 0 {
      assert CallerOwesTrigger(s.callers[0]);
    }
  }

  /** Every event, from inside or outside, keeps the invariant. */
  lemma InvKept(s: State, e: Event)
    requires Inv(s) && Enabled(s, e)
    ensures Inv(Next(s, e))
  {
    match e
    case AddTasks(names, host) => InvAfterAdd(s, names, host);
    case SetConcurrency(files) => InvAfterConcurrency(s, files);
    case ControlTask(id, action, present) => InvAfterControl(s, id, action, present);
    case CallerStep(c) => InvAfterCaller(s, c);
    case LoopStep(exit, now) => InvAfterLoop(s, exit, now);
    case WorkerStep(i, ok, error) => InvAfterWorker(s, i, ok, error);
    case BeginShutdown => InvAfterBegin(s);
    case ShutdownStep(target) => InvAfterShutdown(s, target);
    case Restart(retained, rewrite) => InvAfterLoad(s.disk, retained, rewrite);
  }

  lemma InvAfterBegin(s: State)
    requires Inv(s) && s.shutdown == NotStarted
    ensures Inv(Next(s, BeginShutdown))
  {
    if OwesSave(s) {
      OwesSaveFrame(s, Next(s, BeginShutdown));
    }
  }
}
