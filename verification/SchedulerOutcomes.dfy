/** What becomes of tasks: an outcome is recorded as the upload returned it, it is
    the outcome of a worker of the task's own, and it stays until the task is
    requeued. */
module SchedulerOutcomes {
  import opened Tasks
  import opened Scheduler
  import opened SchedulerSafety
  import opened SchedulerRuns
  import opened SchedulerPromises

  /* ---------- Recording ---------- */

  /** The step that records an outcome: Completed exactly if the upload succeeded, with
      full progress, and otherwise Failed, with the error. */
  lemma OutcomeIsRecorded(s: State, i: nat, ok: bool, error: string)
    requires WellFormed(s) && i < |s.workers| && s.workers[i].phase == Returned
    ensures var w, s' := s.workers[i], WorkerNext(s, i, ok, error);
            var t := s.heap[w.task];
            && w.task in s'.heap
            && s'.heap[w.task]
               == (if w.ok
                   then Task(t.id, t.fileName, t.host, Completed, 100,
                             if t.totalBytes > 0 then t.totalBytes else t.bytesUploaded,
                             t.totalBytes, t.startedAt, t.error)
                   else Task(t.id, t.fileName, t.host, Failed, t.progress, t.bytesUploaded,
                             t.totalBytes, t.startedAt, error))
            && forall r :: r in s.heap && r != w.task ==> r in s'.heap && s'.heap[r] == s.heap[r]
  {
  }

  /** A worker's result is what its upload returned, and a worker that never came to
      upload has none but failure. */
  lemma ResultIsTheUploads(s: State, i: nat, ok: bool, error: string)
    requires WellFormed(s) && i < |s.workers|
    ensures var w, w' := s.workers[i], WorkerNext(s, i, ok, error).workers[i];
            && (w.phase == Uploading ==> w'.ok == ok)
            && (w'.phase == Returned && (w.phase == Preparing || w.phase == Aborting) ==> !w'.ok)
            && (w.phase !in {Spawned, Preparing, Connected, Aborting, Uploading} ==> w'.ok == w.ok)
  {
  }

  /* ---------- Whose outcome it is ---------- */

  /** A worker that has recorded this result of its upload of the task. */
  predicate Reported(w: Worker, r: nat, ok: bool) {
    w.task == r && w.ok == ok
    && w.phase in {Recorded, Saved, Triggered, Unregistered, Decremented, Signalled, Finished}
  }

  /** A result recorded since: the worker had not recorded it before. */
  predicate NewlyReported(workers0: seq<Worker>, workers: seq<Worker>, i: nat, r: nat, ok: bool)
    requires i < |workers|
  {
    Reported(workers[i], r, ok) && !(i < |workers0| && Reported(workers0[i], r, ok))
  }

  function StatusFor(ok: bool): Status { if ok then Completed else Failed }

  /** Reports are not forgotten, and every task that has come to this status owes it
      to a new one. */
  ghost predicate Credited(ok: bool, heap0: map<nat, Task>, workers0: seq<Worker>, heap: map<nat, Task>,
                           workers: seq<Worker>) {
    && KeepsReports(ok, workers0, workers)
    && forall r :: r in heap && heap[r].status == StatusFor(ok) && (r in heap0 ==> heap0[r].status != StatusFor(ok)) ==>
         exists i :: 0 <= i < |workers| && NewlyReported(workers0, workers, i, r, ok)
  }

  ghost predicate KeepsReports(ok: bool, workers: seq<Worker>, workers': seq<Worker>) {
    |workers| <= |workers'|
    && forall i, r :: 0 <= i < |workers| && Reported(workers[i], r, ok) ==> Reported(workers'[i], r, ok)
  }

  lemma CreditFrame(ok: bool, heap0: map<nat, Task>, workers0: seq<Worker>, heap: map<nat, Task>, heap': map<nat, Task>,
                    workers: seq<Worker>, workers': seq<Worker>)
    requires Credited(ok, heap0, workers0, heap, workers) && KeepsReports(ok, workers, workers')
    requires forall r :: r in heap' && heap'[r].status == StatusFor(ok) ==> r in heap && heap[r].status == StatusFor(ok)
    ensures Credited(ok, heap0, workers0, heap', workers')
  {
    forall r | r in heap' && heap'[r].status == StatusFor(ok) && (r in heap0 ==> heap0[r].status != StatusFor(ok))
      ensures exists i :: 0 <= i < |workers'| && NewlyReported(workers0, workers', i, r, ok)
    {
      var i :| 0 <= i < |workers| && NewlyReported(workers0, workers, i, r, ok);
      assert NewlyReported(workers0, workers', i, r, ok);
    }
  }

  lemma NotEndedByControl(ok: bool, s: State, id: string, action: Action, present: set<string>)
    requires WellFormed(s)
    ensures var e := Control(s.list, s.heap, id, action, present);
            forall r :: r in e.heap && e.heap[r].status == StatusFor(ok) ==>
              r in s.heap && s.heap[r].status == StatusFor(ok)
  {
    var e := Control(s.list, s.heap, id, action, present);
    ControlIsDisciplined(s.list, s.heap, id, action, present);
    forall r | r in e.heap && e.heap[r].status == StatusFor(ok)
      ensures r in s.heap && s.heap[r].status == StatusFor(ok)
    {
      assert r in s.heap.Keys;
      assert KeepsDiscipline(s.list, s.heap[r], e.heap[r], r, e);
    }
  }

  lemma CreditAfterControl(success: bool, heap0: map<nat, Task>, workers0: seq<Worker>, s: State, id: string,
                           action: Action, present: set<string>)
    requires WellFormed(s) && Credited(success, heap0, workers0, s.heap, s.workers)
    ensures var s' := ControlNext(s, id, action, present); Credited(success, heap0, workers0, s'.heap, s'.workers)
  {
    var e := Control(s.list, s.heap, id, action, present);
    NotEndedByControl(success, s, id, action, present);
    var workers' := WorkersAfterCancel(s, id, e.cancelled.Some?);
    CreditFrame(success, heap0, workers0, s.heap, e.heap, s.workers, workers');
  }

  /** Only a worker whose upload succeeded makes its task Completed, and it had not
      recorded that before. */
  lemma CreditAfterWorker(success: bool, heap0: map<nat, Task>, workers0: seq<Worker>, heap: map<nat, Task>,
                          workers: seq<Worker>, i: nat, stopping: bool, ok: bool, error: string)
    requires Credited(success, heap0, workers0, heap, workers)
    requires i < |workers| && workers[i].task in heap && workers[i].phase != Finished
    ensures Credited(success, heap0, workers0, HeapAfter(heap, workers[i], error),
            workers[i := Advanced(workers[i], stopping, ok)])
  {
    var w, w' := workers[i], Advanced(workers[i], stopping, ok);
    var heap', workers' := HeapAfter(heap, w, error), workers[i := w'];
    assert KeepsReports(success, workers, workers');
    if w.phase == Returned && w.ok == success {
      assert NewlyReported(workers0, workers', i, w.task, success);
      var others := heap' - {w.task};
      CreditFrame(success, heap0, workers0, heap, others, workers, workers');
      forall r | r in heap' && r != w.task ensures r in others && others[r] == heap'[r] {
      }
    } else {
      CreditFrame(success, heap0, workers0, heap, heap', workers, workers');
    }
  }

  lemma CreditAfterFill(success: bool, heap0: map<nat, Task>, workers0: seq<Worker>, s: State, now: int)
    requires WellFormed(s) && Credited(success, heap0, workers0, s.heap, s.workers)
    ensures Credited(success, heap0, workers0, Fill(s, now).heap, Fill(s, now).workers)
  {
    CreditFrame(success, heap0, workers0, s.heap, Fill(s, now).heap, s.workers, Fill(s, now).workers);
  }

  lemma CreditAfterShutdown(success: bool, heap0: map<nat, Task>, workers0: seq<Worker>, s: State, target: nat)
    requires WellFormed(s) && ShutdownEnabled(s, target) && Credited(success, heap0, workers0, s.heap, s.workers)
    ensures Credited(success, heap0, workers0, ShutdownNext(s, target).heap, ShutdownNext(s, target).workers)
  {
    CreditFrame(success, heap0, workers0, s.heap, s.heap, s.workers, ShutdownNext(s, target).workers);
  }

  lemma CreditAfterAdd(success: bool, heap0: map<nat, Task>, workers0: seq<Worker>, s: State, names: seq<string>,
                       host: string)
    requires WellFormed(s) && Credited(success, heap0, workers0, s.heap, s.workers)
    ensures Credited(success, heap0, workers0, Append(s, names, host).heap, s.workers)
  {
    AppendExtends(s, names, host);
    CreditFrame(success, heap0, workers0, s.heap, Append(s, names, host).heap, s.workers, s.workers);
  }

  lemma CreditKept(success: bool, heap0: map<nat, Task>, workers0: seq<Worker>, s: State, e: Event)
    requires WellFormed(s) && Enabled(s, e) && !e.Restart? && Credited(success, heap0, workers0, s.heap, s.workers)
    ensures Credited(success, heap0, workers0, Next(s, e).heap, Next(s, e).workers)
  {
    match e
    case AddTasks(names, host) => CreditAfterAdd(success, heap0, workers0, s, names, host);
    case ControlTask(id, action, present) => CreditAfterControl(success, heap0, workers0, s, id, action, present);
    case LoopStep(exit, now) =>
      if s.loop == TokenTaken {
        CreditAfterFill(success, heap0, workers0, s, now);
      }
    case WorkerStep(i, ok, error) =>
      CreditAfterWorker(success, heap0, workers0, s.heap, s.workers, i, s.stopping, ok, error);
    case ShutdownStep(target) => CreditAfterShutdown(success, heap0, workers0, s, target);
    case CallerStep(c) => assert CallerNext(s, c).heap == s.heap;
    case SetConcurrency(_) =>
    case BeginShutdown =>
  }

  lemma {:induction false} CreditAlongRun(success: bool, heap0: map<nat, Task>, workers0: seq<Worker>, s: State,
                                          events: seq<Event>, s': State)
    requires Inv(s) && Runs(s, events, s') && SameProcess(events)
    requires Credited(success, heap0, workers0, s.heap, s.workers)
    ensures Credited(success, heap0, workers0, s'.heap, s'.workers)
    decreases |events|
  {
    if events != [] {
      assert !events[0].Restart?;
      InvKept(s, events[0]);
      CreditKept(success, heap0, workers0, s, events[0]);
      CreditAlongRun(success, heap0, workers0, Next(s, events[0]), events[1..], s');
    }
  }

  /** In the run, worker i's upload returns success. */
  ghost predicate UploadSucceeds(s: State, events: seq<Event>, i: nat)
    decreases |events|
  {
    && events != [] && WellFormed(s) && Enabled(s, events[0])
    && ((events[0].WorkerStep? && events[0].worker == i && events[0].ok && s.workers[i].phase == Uploading)
        || UploadSucceeds(Next(s, events[0]), events[1..], i))
  }

  /** Only a step of its own, from its upload, makes a worker's result a success. */
  lemma OkOnlyByUpload(s: State, e: Event, i: nat)
    requires WellFormed(s) && Enabled(s, e) && !e.Restart?
    requires i < |Next(s, e).workers| && Next(s, e).workers[i].ok
    ensures (i < |s.workers| && s.workers[i].ok)
            || (e.WorkerStep? && e.worker == i && e.ok && i < |s.workers| && s.workers[i].phase == Uploading)
  {
    match e
    case AddTasks(names, host) => assert Append(s, names, host).workers == s.workers;
    case ControlTask(id, action, present) => OkKeptByControl(s, id, action, present);
    case LoopStep(exit, now) => OkKeptByLoop(s, exit, now);
    case WorkerStep(k, ok, error) => OkByWorker(s, k, ok, error, i);
    case ShutdownStep(target) => OkKeptByShutdown(s, target);
    case CallerStep(c) => assert CallerNext(s, c).workers == s.workers;
    case SetConcurrency(_) =>
    case BeginShutdown =>
  }

  lemma OkKeptByLoop(s: State, exit: bool, now: int)
    requires WellFormed(s) && LoopEnabled(s, exit)
    ensures var workers' := LoopNext(s, exit, now).workers;
            forall i :: 0 <= i < |workers'| && workers'[i].ok ==> i < |s.workers| && s.workers[i].ok
  {
    if s.loop == TokenTaken {
      var picked := Picked(s.list, s.heap, s.runningTasks, s.maxConcurrent);
      assert LoopNext(s, exit, now).workers == s.workers + NewWorkers(picked);
    }
  }

  lemma OkByWorker(s: State, k: nat, ok: bool, error: string, i: nat)
    requires WellFormed(s) && k < |s.workers| && i < |s.workers| && WorkerNext(s, k, ok, error).workers[i].ok
    ensures s.workers[i].ok || (k == i && ok && s.workers[i].phase == Uploading)
  {
    assert WorkerNext(s, k, ok, error).workers == s.workers[k := Advanced(s.workers[k], s.stopping, ok)];
  }

  lemma OkKeptByShutdown(s: State, target: nat)
    requires WellFormed(s) && ShutdownEnabled(s, target)
    ensures var s' := ShutdownNext(s, target);
            |s'.workers| == |s.workers| && forall i :: 0 <= i < |s.workers| ==> s'.workers[i].ok == s.workers[i].ok
  {
  }

  lemma OkKeptByControl(s: State, id: string, action: Action, present: set<string>)
    requires WellFormed(s)
    ensures var s' := ControlNext(s, id, action, present);
            |s'.workers| == |s.workers| && forall i :: 0 <= i < |s.workers| ==> s'.workers[i].ok == s.workers[i].ok
  {
    var e := Control(s.list, s.heap, id, action, present);
    assert ControlNext(s, id, action, present).workers == WorkersAfterCancel(s, id, e.cancelled.Some?);
  }

  lemma {:induction false} OkMeansUploadSucceeded(s: State, events: seq<Event>, s': State, i: nat)
    requires Inv(s) && Runs(s, events, s') && SameProcess(events)
    requires i < |s'.workers| && s'.workers[i].ok
    ensures (i < |s.workers| && s.workers[i].ok) || UploadSucceeds(s, events, i)
    decreases |events|
  {
    if events != [] {
      assert !events[0].Restart?;
      InvKept(s, events[0]);
      OkMeansUploadSucceeded(Next(s, events[0]), events[1..], s', i);
      if i < |Next(s, events[0]).workers| && Next(s, events[0]).workers[i].ok {
        OkOnlyByUpload(s, events[0], i);
      }
    }
  }

  /** A task becomes Completed only through a success that is recorded on the way,
      by a worker of its own whose upload returned success, however the task was
      paused, removed or retried before or in between: an earlier success does not
      count again. */
  lemma CompletedMeansUploaded(s: State, events: seq<Event>, s': State, r: nat)
    requires Reachable(s) && Runs(s, events, s') && SameProcess(events)
    requires r in s'.heap && s'.heap[r].status == Completed
    requires r in s.heap ==> s.heap[r].status != Completed
    ensures exists i :: 0 <= i < |s'.workers| && NewlyReported(s.workers, s'.workers, i, r, true)
                        && ((i < |s.workers| && s.workers[i].ok) || UploadSucceeds(s, events, i))
  {
    ReachableInv(s);
    CreditAlongRun(true, s.heap, s.workers, s, events, s');
    var i :| 0 <= i < |s'.workers| && NewlyReported(s.workers, s'.workers, i, r, true);
    OkMeansUploadSucceeded(s, events, s', i);
  }

  /** And Failed only through a failure that is. */
  lemma FailedMeansReported(s: State, events: seq<Event>, s': State, r: nat)
    requires Reachable(s) && Runs(s, events, s') && SameProcess(events)
    requires r in s'.heap && s'.heap[r].status == Failed
    requires r in s.heap ==> s.heap[r].status != Failed
    ensures exists i :: 0 <= i < |s'.workers| && NewlyReported(s.workers, s'.workers, i, r, false)
  {
    ReachableInv(s);
    CreditAlongRun(false, s.heap, s.workers, s, events, s');
  }

  /* ---------- Control actions ---------- */

  /** The step of a control action leaves the list and the records as the operation
      does, wakes the dispatcher if it does, and saves what it leaves if it does. */
  lemma ControlStepFollows(s: State, id: string, action: Action, present: set<string>)
    requires WellFormed(s)
    ensures Enabled(s, ControlTask(id, action, present))
    ensures var e, s' := Control(s.list, s.heap, id, action, present), ControlNext(s, id, action, present);
            && s'.list == e.list && s'.heap == e.heap
            && s'.token == (s.token || e.triggered)
            && (!e.saved ==> s'.disk == s.disk)
            && (e.saved ==> |s'.disk.tasks| == |e.list| && s'.disk.maxConcurrent == s.maxConcurrent
                            && forall i :: 0 <= i < |e.list| ==> s'.disk.tasks[i] == e.heap[e.list[i]])
  {
  }

  /** So a removed task is off the list, in memory and on disk, and the others stay as
      they were. */
  lemma RemoveUnlists(s: State, id: string, present: set<string>, i: nat)
    requires WellFormed(s) && i < |s.list| && s.heap[s.list[i]].id == id
    requires forall j :: 0 <= j < i ==> s.heap[s.list[j]].id != id
    ensures var s' := ControlNext(s, id, Remove, present);
            && s.list[i] !in s'.list && |s'.list| == |s.list| - 1 == |s'.disk.tasks| && s'.token && s'.heap == s.heap
            && forall j :: 0 <= j < |s'.list| ==>
                 s'.list[j] == s.list[if j < i then j else j + 1] && s'.disk.tasks[j] == s.heap[s'.list[j]]
  {
    ControlStepFollows(s, id, Remove, present);
    ControlActsOn(s.list, s.heap, id, Remove, present, i);
  }

  /* ---------- What calls and loads leave to do ---------- */

  /** AddTasks owes one save and one trigger for each name, unless there is none. */
  lemma AddOwes(s: State, names: seq<string>, host: string)
    requires WellFormed(s)
    ensures Enabled(s, AddTasks(names, host))
    ensures var s' := Next(s, AddTasks(names, host));
            && s'.callers == (if names == [] then s.callers else s.callers + [Caller(true, |names|)])
            && s'.workers == s.workers && s'.token == s.token && s'.loop == s.loop && s'.disk == s.disk
            && s'.maxConcurrent == s.maxConcurrent && s'.runningTasks == s.runningTasks
  {
  }

  /** A new limit holds at once, and owes a trigger but no save. */
  lemma LimitTakesEffect(s: State, files: int)
    requires WellFormed(s) && files > 0
    ensures Enabled(s, SetConcurrency(files))
    ensures var s' := Next(s, SetConcurrency(files));
            && s'.maxConcurrent == files && s'.callers == s.callers + [Caller(false, 1)]
            && s'.heap == s.heap && s'.list == s.list && s'.workers == s.workers && s'.disk == s.disk
  {
  }

  /** A new process runs nothing and owes one trigger, if it has tasks at all. */
  lemma LoadStartsIdle(disk: Disk, retained: set<string>, rewrite: bool)
    ensures var s := Load(disk, retained, rewrite);
            && s.workers == [] && s.runningTasks == 0 && s.cancels == map[] && s.closers == map[]
            && s.loop == Waiting && !s.token && !s.stopping && s.shutdown == NotStarted
            && s.callers == (if disk.tasks == [] then [] else [Caller(false, 1)])
            && s.maxConcurrent == (if disk.maxConcurrent <= 0 then 1 else disk.maxConcurrent)
            && (!rewrite ==> s.disk == disk)
  {
  }

  /* ---------- How long it stays ---------- */

  /** A control action puts a task that has ended back into the queue: retry finds it,
      or retry_all_failed meets it, and its file is there. */
  ghost predicate Requeues(s: State, e: Event, r: nat)
    requires WellFormed(s) && r in s.heap
  {
    e.ControlTask? && r in s.list && s.heap[r].fileName in e.present
    && var i := Position(s.list, s.heap, e.id);
       || (e.action == Retry && i < |s.list| && s.list[i] == r)
       || (e.action == RetryAllFailed && i == |s.list| && s.heap[r].status == Failed)
  }

  lemma EndedUnderControl(s: State, e: Event, r: nat)
    requires WellFormed(s) && e.ControlTask? && r in s.heap && s.heap[r].status in {Completed, Failed}
    ensures var heap' := ControlNext(s, e.id, e.action, e.present).heap;
            && r in heap'
            && (Requeues(s, e, r) ==> heap'[r].status == Pending)
            && (!Requeues(s, e, r) ==> heap'[r] == s.heap[r])
  {
    var c := Control(s.list, s.heap, e.id, e.action, e.present);
    var i := Position(s.list, s.heap, e.id);
    assert ControlNext(s, e.id, e.action, e.present).heap == c.heap;
    if i < |s.list| {
      ControlActsOn(s.list, s.heap, e.id, e.action, e.present, i);
    } else {
      forall q | q in s.list ensures s.heap[q].id != e.id {
        var j :| 0 <= j < |s.list| && s.list[j] == q;
      }
      ControlActsOnAll(s.list, s.heap, e.id, e.action, e.present, r);
    }
  }

  lemma EndedUnderLoop(s: State, exit: bool, now: int, r: nat)
    requires WellFormed(s) && LoopEnabled(s, exit) && r in s.heap && s.heap[r].status in {Completed, Failed}
    ensures r in LoopNext(s, exit, now).heap && LoopNext(s, exit, now).heap[r] == s.heap[r]
  {
    if s.loop == TokenTaken {
      PassStarts(s.list, s.heap, s.runningTasks, s.maxConcurrent, now, r);
    }
  }

  lemma EndedUnderWorker(s: State, i: nat, ok: bool, error: string, r: nat)
    requires WellFormed(s) && OneWorkerPerRunningTask(s.heap, s.workers) && i < |s.workers|
    requires r in s.heap && s.heap[r].status in {Completed, Failed}
    ensures r in WorkerNext(s, i, ok, error).heap && WorkerNext(s, i, ok, error).heap[r] == s.heap[r]
  {
    if s.workers[i].phase == Returned && s.workers[i].task == r {
      ActiveCountMember(s.workers, i);
    }
  }

  /** A task that has ended keeps its record under every step but its requeueing. */
  lemma EndedStaysIff(s: State, e: Event, r: nat)
    requires Inv(s) && Enabled(s, e) && !e.Restart? && r in s.heap && s.heap[r].status in {Completed, Failed}
    ensures r in Next(s, e).heap
    ensures Next(s, e).heap[r] == s.heap[r] <==> !Requeues(s, e, r)
    ensures Requeues(s, e, r) ==> Next(s, e).heap[r].status == Pending
  {
    match e
    case AddTasks(names, host) => AppendExtends(s, names, host);
    case ControlTask(_, _, _) => EndedUnderControl(s, e, r);
    case LoopStep(exit, now) => EndedUnderLoop(s, exit, now, r);
    case WorkerStep(i, ok, error) => EndedUnderWorker(s, i, ok, error, r);
    case CallerStep(c) => assert CallerNext(s, c).heap == s.heap;
    case ShutdownStep(target) => assert ShutdownNext(s, target).heap == s.heap;
    case SetConcurrency(_) =>
    case BeginShutdown =>
  }

  ghost predicate NeverRequeued(s: State, events: seq<Event>, r: nat)
    decreases |events|
  {
    events != [] ==>
      && WellFormed(s) && Enabled(s, events[0]) && r in s.heap && !Requeues(s, events[0], r)
      && NeverRequeued(Next(s, events[0]), events[1..], r)
  }

  /** Over any run of one process, whatever happens to other tasks and to the list:
      a task that has ended stays as it ended until a control action requeues it. */
  lemma {:induction false} EndedStays(s: State, events: seq<Event>, s': State, r: nat)
    requires Inv(s) && Runs(s, events, s') && SameProcess(events)
    requires r in s.heap && s.heap[r].status in {Completed, Failed} && NeverRequeued(s, events, r)
    ensures r in s'.heap && s'.heap[r] == s.heap[r]
    decreases |events|
  {
    if events != [] {
      assert !events[0].Restart?;
      InvKept(s, events[0]);
      EndedStaysIff(s, events[0], r);
      EndedStays(Next(s, events[0]), events[1..], s', r);
    }
  }

  /* ---------- Cancellation ---------- */

  /** Where a worker turns: it comes to its check exactly if it could connect, with its
      client open, and from there to its upload exactly if nobody has cancelled it or
      begun to shut down. */
  lemma WorkerTurns(s: State, i: nat, ok: bool, error: string)
    requires WellFormed(s) && i < |s.workers|
    ensures var w, w' := s.workers[i], WorkerNext(s, i, ok, error).workers[i];
            && w'.task == w.task && w'.cancelled == w.cancelled
            && (w.phase == Preparing && ok ==> w'.phase == Connected && w'.client == Open)
            && (w.phase == Preparing && !ok ==> w'.phase == Returned && !w'.ok && w'.client == w.client)
            && (w.phase == Connected ==> w'.phase == if s.stopping || w.cancelled then Aborting else Uploading)
            && (w.phase == Aborting ==> w'.phase == Returned && !w'.ok && w'.client != Open)
  {
  }

  /** Not past its check, and sure to fail it; or failed. */
  predicate Doomed(w: Worker, stopping: bool) {
    || (w.phase in {Spawned, Preparing, Connected} && (stopping || w.cancelled))
    || w.phase == Aborting
    || (w.phase !in {Spawned, Preparing, Connected, Uploading, Uploaded, Closed} && !w.ok)
  }

  lemma DoomedUnderControl(s: State, id: string, action: Action, present: set<string>, i: nat)
    requires WellFormed(s) && i < |s.workers| && Doomed(s.workers[i], s.stopping)
    ensures Doomed(ControlNext(s, id, action, present).workers[i], s.stopping)
  {
    var e := Control(s.list, s.heap, id, action, present);
    assert ControlNext(s, id, action, present).workers == WorkersAfterCancel(s, id, e.cancelled.Some?);
  }

  lemma DoomedUnderWorker(s: State, k: nat, ok: bool, error: string, i: nat)
    requires WellFormed(s) && k < |s.workers| && i < |s.workers| && Doomed(s.workers[i], s.stopping)
    ensures var s' := WorkerNext(s, k, ok, error); s'.stopping == s.stopping && Doomed(s'.workers[i], s.stopping)
  {
    assert WorkerNext(s, k, ok, error).workers == s.workers[k := Advanced(s.workers[k], s.stopping, ok)];
  }

  lemma DoomedUnderShutdown(s: State, target: nat, i: nat)
    requires WellFormed(s) && ShutdownEnabled(s, target) && i < |s.workers| && Doomed(s.workers[i], s.stopping)
    ensures var s' := ShutdownNext(s, target); s'.stopping == s.stopping && Doomed(s'.workers[i], s.stopping)
  {
  }

  lemma DoomedKept(s: State, e: Event, i: nat)
    requires WellFormed(s) && Enabled(s, e) && !e.Restart? && i < |s.workers| && Doomed(s.workers[i], s.stopping)
    ensures var s' := Next(s, e); i < |s'.workers| && Doomed(s'.workers[i], s'.stopping)
  {
    match e
    case AddTasks(names, host) => assert Append(s, names, host).workers == s.workers;
    case ControlTask(id, action, present) => DoomedUnderControl(s, id, action, present, i);
    case LoopStep(exit, now) =>
    case WorkerStep(k, ok, error) => DoomedUnderWorker(s, k, ok, error, i);
    case ShutdownStep(target) => DoomedUnderShutdown(s, target, i);
    case CallerStep(c) => assert CallerNext(s, c).workers == s.workers;
    case SetConcurrency(_) =>
    case BeginShutdown =>
  }

  /** Whatever happens from then on: a worker that is cancelled before its check, or has
      not come to it when Shutdown begins, never uploads, and if it ever has a result
      it is failure. */
  lemma {:induction false} CancelledNeverUploads(s: State, events: seq<Event>, s': State, i: nat)
    requires Inv(s) && Runs(s, events, s') && SameProcess(events)
    requires i < |s.workers| && Doomed(s.workers[i], s.stopping)
    ensures i < |s'.workers| && Doomed(s'.workers[i], s'.stopping)
    ensures s'.workers[i].phase !in {Uploading, Uploaded, Closed}
    decreases |events|
  {
    if events != [] {
      assert !events[0].Restart?;
      InvKept(s, events[0]);
      DoomedKept(s, events[0], i);
      CancelledNeverUploads(Next(s, events[0]), events[1..], s', i);
    }
  }

  /** Only the removal of a Running task cancels, and only the worker its identifier
      is registered for. */
  lemma CancelledOnlyByRemove(s: State, e: Event, i: nat)
    requires WellFormed(s) && Enabled(s, e) && !e.Restart?
    requires i < |Next(s, e).workers| && Next(s, e).workers[i].cancelled
    ensures || (i < |s.workers| && s.workers[i].cancelled)
            || (e.ControlTask? && e.action == Remove && e.id in s.cancels && s.cancels[e.id] == i
                && exists r :: r in s.list && s.heap[r].id == e.id && s.heap[r].status == Running)
  {
    match e
    case AddTasks(names, host) => assert Append(s, names, host).workers == s.workers;
    case ControlTask(id, action, present) => CancelledByControl(s, id, action, present, i);
    case LoopStep(exit, now) => NotCancelledByLoop(s, exit, now);
    case WorkerStep(k, ok, error) => NotCancelledByWorker(s, k, ok, error);
    case ShutdownStep(target) => NotCancelledByShutdown(s, target);
    case CallerStep(c) => assert CallerNext(s, c).workers == s.workers;
    case SetConcurrency(_) =>
    case BeginShutdown =>
  }

  lemma NotCancelledByLoop(s: State, exit: bool, now: int)
    requires WellFormed(s) && LoopEnabled(s, exit)
    ensures var workers' := LoopNext(s, exit, now).workers;
            forall i :: 0 <= i < |workers'| && workers'[i].cancelled ==> i < |s.workers| && s.workers[i].cancelled
  {
    if s.loop == TokenTaken {
      var picked := Picked(s.list, s.heap, s.runningTasks, s.maxConcurrent);
      assert LoopNext(s, exit, now).workers == s.workers + NewWorkers(picked);
    }
  }

  lemma NotCancelledByWorker(s: State, k: nat, ok: bool, error: string)
    requires WellFormed(s) && k < |s.workers|
    ensures var workers' := WorkerNext(s, k, ok, error).workers;
            |workers'| == |s.workers|
            && forall i :: 0 <= i < |workers'| ==> workers'[i].cancelled == s.workers[i].cancelled
  {
    assert WorkerNext(s, k, ok, error).workers == s.workers[k := Advanced(s.workers[k], s.stopping, ok)];
  }

  lemma NotCancelledByShutdown(s: State, target: nat)
    requires WellFormed(s) && ShutdownEnabled(s, target)
    ensures var workers' := ShutdownNext(s, target).workers;
            |workers'| == |s.workers|
            && forall i :: 0 <= i < |workers'| ==> workers'[i].cancelled == s.workers[i].cancelled
  {
  }

  lemma CancelledByControl(s: State, id: string, action: Action, present: set<string>, i: nat)
    requires WellFormed(s) && i < |s.workers| && ControlNext(s, id, action, present).workers[i].cancelled
    ensures || s.workers[i].cancelled
            || (action == Remove && id in s.cancels && s.cancels[id] == i
                && exists r :: r in s.list && s.heap[r].id == id && s.heap[r].status == Running)
  {
    var e := Control(s.list, s.heap, id, action, present);
    assert ControlNext(s, id, action, present).workers == WorkersAfterCancel(s, id, e.cancelled.Some?);
    var p := Position(s.list, s.heap, id);
    if e.cancelled.Some? {
      if p < |s.list| {
        ControlActsOn(s.list, s.heap, id, action, present, p);
        assert s.list[p] in s.list;
      } else {
        forall q | q in s.list ensures s.heap[q].id != id {
          var j :| 0 <= j < |s.list| && s.list[j] == q;
        }
        ControlIsDisciplined(s.list, s.heap, id, action, present);
        ControlActsOnAll(s.list, s.heap, id, action, present, e.cancelled.value);
      }
    }
  }
}
