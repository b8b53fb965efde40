/** Safety of the queue scheduler: the parts of an invariant of every
    interleaving, each proved step by step. None of them depends on what the task
    identifiers are; module SchedulerIdentity adds what does. */
module SchedulerSafety {
  import opened Tasks
  import opened Scheduler
  import TaskIds

  /* ---------- Counting workers ---------- */

  /** A worker is active until it has recorded the outcome of its task. */
  predicate Active(w: Worker) {
    w.phase in {Spawned, Preparing, Connected, Aborting, Uploading, Uploaded, Closed, Returned}
  }

  /** A worker is live until it has decremented runningTasks. */
  predicate Live(w: Worker) { w.phase !in {Decremented, Signalled, Finished} }

  function ActiveCount(workers: seq<Worker>, r: nat): nat {
    if workers == [] then 0
    else ActiveCount(workers[..|workers| - 1], r)
         + (var w := workers[|workers| - 1]; if Active(w) && w.task == r then 1 else 0)
  }

  function LiveCount(workers: seq<Worker>): nat {
    if workers == [] then 0
    else LiveCount(workers[..|workers| - 1]) + (if Live(workers[|workers| - 1]) then 1 else 0)
  }

  lemma {:induction false} ActiveCountUpdate(workers: seq<Worker>, i: nat, w: Worker, r: nat)
    requires i < |workers|
    ensures ActiveCount(workers[i := w], r)
            == ActiveCount(workers, r)
               - (if Active(workers[i]) && workers[i].task == r then 1 else 0)
               + (if Active(w) && w.task == r then 1 else 0)
  {
    var n := |workers| - 1;
    if i < n {
      ActiveCountUpdate(workers[..n], i, w, r);
      assert workers[i := w][..n] == workers[..n][i := w];
    } else {
      assert workers[i := w][..n] == workers[..n];
    }
  }

  lemma {:induction false} LiveCountUpdate(workers: seq<Worker>, i: nat, w: Worker)
    requires i < |workers|
    ensures LiveCount(workers[i := w])
            == LiveCount(workers) - (if Live(workers[i]) then 1 else 0) + (if Live(w) then 1 else 0)
  {
    var n := |workers| - 1;
    if i < n {
      LiveCountUpdate(workers[..n], i, w);
      assert workers[i := w][..n] == workers[..n][i := w];
    } else {
      assert workers[i := w][..n] == workers[..n];
    }
  }

  lemma {:induction false} ActiveCountMember(workers: seq<Worker>, i: nat)
    requires i < |workers| && Active(workers[i])
    ensures ActiveCount(workers, workers[i].task) >= 1
  {
    if i < |workers| - 1 {
      ActiveCountMember(workers[..|workers| - 1], i);
    }
  }

  lemma {:induction false} ActiveCountPair(workers: seq<Worker>, i: nat, j: nat)
    requires i < j < |workers| && Active(workers[i]) && Active(workers[j]) && workers[i].task == workers[j].task
    ensures ActiveCount(workers, workers[i].task) >= 2
  {
    if j < |workers| - 1 {
      ActiveCountPair(workers[..|workers| - 1], i, j);
    } else {
      ActiveCountMember(workers[..|workers| - 1], i);
    }
  }

  lemma {:induction false} ActiveCountWitness(workers: seq<Worker>, r: nat) returns (i: nat)
    requires ActiveCount(workers, r) >= 1
    ensures i < |workers| && Active(workers[i]) && workers[i].task == r
  {
    var w := workers[|workers| - 1];
    if Active(w) && w.task == r {
      i := |workers| - 1;
    } else {
      i := ActiveCountWitness(workers[..|workers| - 1], r);
    }
  }

  lemma {:induction false} LiveAfterSpawn(workers: seq<Worker>, picked: seq<nat>)
    ensures LiveCount(workers + NewWorkers(picked)) == LiveCount(workers) + |picked|
    decreases |picked|
  {
    if picked == [] {
      assert workers + NewWorkers(picked) == workers;
    } else {
      var n := |picked| - 1;
      LiveAfterSpawn(workers, picked[..n]);
      var all := workers + NewWorkers(picked);
      assert all[..|all| - 1] == workers + NewWorkers(picked[..n]);
      assert all[|all| - 1] == NewWorker(picked[n]);
    }
  }

  /** A dispatcher pass gives each picked task one more active worker. */
  lemma {:induction false} ActiveAfterSpawn(workers: seq<Worker>, picked: seq<nat>, r: nat)
    requires Distinct(picked)
    ensures ActiveCount(workers + NewWorkers(picked), r) == ActiveCount(workers, r) + (if r in picked then 1 else 0)
    decreases |picked|
  {
    if picked == [] {
      assert workers + NewWorkers(picked) == workers;
    } else {
      var n := |picked| - 1;
      ActiveAfterSpawn(workers, picked[..n], r);
      var all := workers + NewWorkers(picked);
      assert all[..|all| - 1] == workers + NewWorkers(picked[..n]);
      assert all[|all| - 1] == NewWorker(picked[n]);
      assert r in picked <==> r in picked[..n] || r == picked[n];
      assert picked[n] !in picked[..n];
    }
  }

  /* ---------- The invariant ---------- */

  ghost predicate Counted(running: int, workers: seq<Worker>, limit: int, peak: int) {
    running == LiveCount(workers) && running <= peak && 1 <= limit <= peak
  }

  /** A task is Running exactly when one worker for it has not yet recorded its
      outcome, and otherwise none has. */
  ghost predicate OneWorkerPerRunningTask(heap: map<nat, Task>, workers: seq<Worker>) {
    forall r :: r in heap ==> ActiveCount(workers, r) == (if heap[r].status == Running then 1 else 0)
  }

  ghost predicate TasksKnown(heap: map<nat, Task>, workers: seq<Worker>) {
    forall i :: 0 <= i < |workers| ==> workers[i].task in heap
  }

  ghost predicate Runnable(s: State)
    requires WellFormed(s)
  {
    PendingOf(s.list, s.heap) != [] && s.runningTasks < s.maxConcurrent
  }

  predicate CallerOwesTrigger(c: Caller) { c.triggersOwed > 0 }
  predicate WorkerOwesTrigger(w: Worker) { w.phase == Saved || w.phase == Decremented }

  /** The dispatcher has been woken and has not filled since, or a thread is
      about to wake it. */
  ghost predicate Woken(s: State) {
    || s.token
    || s.loop == TokenTaken
    || (exists i :: 0 <= i < |s.callers| && CallerOwesTrigger(s.callers[i]))
    || (exists i :: 0 <= i < |s.workers| && WorkerOwesTrigger(s.workers[i]))
    || s.shutdown == TriggerOwed
  }

  ghost predicate NoLostWakeup(s: State)
    requires WellFormed(s)
  {
    !s.stopping && Runnable(s) ==> Woken(s)
  }

  predicate CallerOwesSave(c: Caller) { c.saveOwed }
  predicate WorkerOwesSave(w: Worker) { w.phase == Recorded }

  ghost predicate OwesSave(s: State) {
    || s.loop == SaveOwed
    || (exists i :: 0 <= i < |s.callers| && CallerOwesSave(s.callers[i]))
    || (exists i :: 0 <= i < |s.workers| && WorkerOwesSave(s.workers[i]))
  }

  /** What the state file may say about a task in memory: its status, up to the
      unsaved switch between Pending and Paused; and, in a process that has not
      saved since it loaded a Running task, that the task is still Running. */
  predicate StatusAgrees(onDisk: Status, inMemory: Status, stale: bool) {
    || onDisk == inMemory
    || (onDisk in {Pending, Paused} && inMemory in {Pending, Paused})
    || (stale && onDisk == Running && inMemory in {Pending, Paused})
  }

  /** The same task: what is uploaded, and where to. */
  predicate SameFile(t: Task, u: Task) { t.id == u.id && t.fileName == u.fileName && t.host == u.host }

  ghost predicate DiskAgrees(disk: seq<Task>, heap: map<nat, Task>, list: seq<nat>, stale: bool)
    requires Covers(heap, list)
  {
    && |disk| == |list|
    && forall i :: 0 <= i < |list| ==>
         SameFile(disk[i], heap[list[i]]) && StatusAgrees(disk[i].status, heap[list[i]].status, stale)
  }

  ghost predicate CrashConsistent(s: State)
    requires WellFormed(s)
  {
    OwesSave(s) || DiskAgrees(s.disk.tasks, s.heap, s.list, s.stale)
  }

  /** No client is closed twice, and each phase knows whether its client may
      still be open. */
  predicate ClientAccounted(w: Worker) {
    && w.closes == (if w.client == Shut then 1 else 0)
    && (w.phase in {Spawned, Preparing} ==> w.client == NoClient)
    && (w.phase in {Connected, Aborting} ==> w.client == Open)
    && (w.phase in {Uploading, Uploaded} ==> w.client != NoClient)
    && (w.client == Open ==> w.phase in {Connected, Aborting, Uploading, Uploaded})
  }

  ghost predicate ClientsAccounted(workers: seq<Worker>) {
    forall i :: 0 <= i < |workers| ==> ClientAccounted(workers[i])
  }

  predicate HoldsRegisteredClient(w: Worker) { w.phase in {Uploading, Uploaded} && w.client == Open }

  predicate PastCheck(w: Worker) { w.phase !in {Spawned, Preparing, Connected, Aborting} }

  /** activeClosers mentions only workers past their context check. */
  ghost predicate ClosersPast(workers: seq<Worker>, closers: map<string, nat>) {
    forall id :: id in closers ==> closers[id] < |workers| && PastCheck(workers[closers[id]])
  }

  /** How far Shutdown, the dispatcher and the workers can be apart. */
  ghost predicate ShutdownPhases(stopping: bool, phase: ShutdownPhase, loop: Loop, workers: seq<Worker>) {
    && (phase == NotStarted <==> !stopping)
    && (loop == Exited ==> stopping)
    && (phase.Closing? || phase == AwaitingTasks || phase == Complete ==> loop == Exited)
    && (phase.Closing? ==> forall i :: i in phase.remaining ==> i < |workers| && PastCheck(workers[i]))
    && (phase == Complete ==> AllFinished(workers))
  }

  ghost predicate WorkersOk(s: State) {
    && Counted(s.runningTasks, s.workers, s.maxConcurrent, s.peak)
    && OneWorkerPerRunningTask(s.heap, s.workers)
    && ClosersPast(s.workers, s.closers)
    && ClientsAccounted(s.workers)
    && ShutdownPhases(s.stopping, s.shutdown, s.loop, s.workers)
  }

  ghost predicate SameWorkers(s: State, s': State) {
    && s'.heap == s.heap && s'.workers == s.workers && s'.closers == s.closers && s'.runningTasks == s.runningTasks
    && s'.maxConcurrent == s.maxConcurrent && s'.peak == s.peak && s'.stopping == s.stopping
    && s'.shutdown == s.shutdown && s'.loop == s.loop
  }

  lemma WorkersFrame(s: State, s': State)
    requires WorkersOk(s) && SameWorkers(s, s')
    ensures WorkersOk(s')
  {
  }

  ghost predicate Inv(s: State) {
    && WellFormed(s)
    && WorkersOk(s)
    && NoLostWakeup(s)
    && CrashConsistent(s)
  }

  /* ---------- AddTasks ---------- */

  lemma AppendOneKeepsWellFormed(s: State, name: string, host: string)
    requires WellFormed(s)
    ensures WellFormed(AppendOne(s, name, host))
  {
    assert s.nextRef !in s.list;
  }

  lemma {:induction false} AppendKeepsWellFormed(s: State, names: seq<string>, host: string)
    requires WellFormed(s)
    ensures WellFormed(Append(s, names, host))
    decreases |names|
  {
    if names != [] {
      AppendOneKeepsWellFormed(s, names[0], host);
      AppendKeepsWellFormed(AppendOne(s, names[0], host), names[1..], host);
    }
  }

  /** The batch is appended in order, as Pending tasks under new references; all
      other records are untouched. */
  lemma {:induction false} AppendExtends(s: State, names: seq<string>, host: string)
    requires WellFormed(s)
    ensures var s' := Append(s, names, host);
            && s'.nextRef == s.nextRef + |names|
            && |s'.list| == |s.list| + |names| && s'.list[..|s.list|] == s.list
            && (forall r :: r in s.heap ==> r in s'.heap && s'.heap[r] == s.heap[r])
            && (forall r :: r in s'.heap && r !in s.heap ==> r >= s.nextRef && s'.heap[r].status == Pending)
    decreases |names|
  {
    if names != [] {
      var s1 := AppendOne(s, names[0], host);
      AppendOneKeepsWellFormed(s, names[0], host);
      AppendExtends(s1, names[1..], host);
      var s' := Append(s, names, host);
      assert s'.list[..|s.list|] == s'.list[..|s1.list|][..|s.list|];
    }
  }

  /* ---------- Well-formedness ---------- */

  lemma WellFormedControl(s: State, id: string, action: Action, present: set<string>)
    requires WellFormed(s)
    ensures WellFormed(ControlNext(s, id, action, present))
  {
    ControlIsDisciplined(s.list, s.heap, id, action, present);
    var c := Control(s.list, s.heap, id, action, present);
    SubsequenceMembers(c.list, s.list);
    SubsequenceDistinct(c.list, s.list);
  }

  /** Well-formedness does not look at statuses, and lets workers advance. */
  lemma WellFormedFrame(s: State, s': State)
    requires WellFormed(s)
    requires s'.heap.Keys == s.heap.Keys && s'.nextRef == s.nextRef && s'.list == s.list && s'.nextId == s.nextId
    requires |s.workers| == |s'.workers| && forall i :: 0 <= i < |s.workers| ==> s'.workers[i].task == s.workers[i].task
    requires forall id :: id in s'.closers ==> s'.closers[id] < |s.workers|
    requires forall id :: id in s'.cancels ==> s'.cancels[id] < |s.workers|
    requires s'.shutdown.Closing? ==> forall i :: i in s'.shutdown.remaining ==> i < |s.workers|
    ensures WellFormed(s')
  {
  }

  lemma CancelsBounded(s: State, i: nat, ok: bool, error: string)
    requires WellFormed(s) && i < |s.workers|
    ensures var s' := WorkerNext(s, i, ok, error); forall id :: id in s'.cancels ==> s'.cancels[id] < |s.workers|
  {
    var w := s.workers[i];
    var id := s.heap[w.task].id;
    BoundedAfter(s.cancels, CancelsAfter(s.cancels, w.phase, id, i), id, i, |s.workers|);
  }

  lemma ClosersBounded(s: State, i: nat, ok: bool, error: string)
    requires WellFormed(s) && i < |s.workers|
    ensures var s' := WorkerNext(s, i, ok, error); forall id :: id in s'.closers ==> s'.closers[id] < |s.workers|
  {
    var w := s.workers[i];
    var id := s.heap[w.task].id;
    var p' := Advanced(w, s.stopping, ok).phase;
    BoundedAfter(s.closers, ClosersAfter(s.closers, w.phase, p', id, i), id, i, |s.workers|);
  }

  lemma WellFormedWorker(s: State, i: nat, ok: bool, error: string)
    requires WellFormed(s) && i < |s.workers|
    ensures WellFormed(WorkerNext(s, i, ok, error))
  {
    CancelsBounded(s, i, ok, error);
    ClosersBounded(s, i, ok, error);
    WellFormedFrame(s, WorkerNext(s, i, ok, error));
  }

  lemma BoundedAfter(m: map<string, nat>, m': map<string, nat>, id: string, i: nat, n: nat)
    requires i < n && (forall k :: k in m ==> m[k] < n)
    requires m' == m || m' == m[id := i] || m' == m - {id}
    ensures forall k :: k in m' ==> m'[k] < n
  {
  }

  lemma WellFormedFill(s: State, now: int)
    requires WellFormed(s)
    ensures WellFormed(Fill(s, now))
  {
  }

  lemma WellFormedLoop(s: State, exit: bool, now: int)
    requires WellFormed(s) && LoopEnabled(s, exit) && s.loop != TokenTaken
    ensures WellFormed(LoopNext(s, exit, now))
  {
    WellFormedFrame(s, LoopNext(s, exit, now));
  }

  lemma ClosersInRange(s: State)
    requires WellFormed(s)
    ensures forall i :: i in s.closers.Values ==> i < |s.workers|
  {
    forall i | i in s.closers.Values ensures i < |s.workers| {
      var id :| id in s.closers && s.closers[id] == i;
    }
  }

  lemma RemainingInRange(s: State, target: nat)
    requires WellFormed(s) && ShutdownEnabled(s, target)
    ensures var s' := ShutdownNext(s, target);
            s'.shutdown.Closing? ==> forall i :: i in s'.shutdown.remaining ==> i < |s.workers|
  {
    ClosersInRange(s);
  }

  lemma WellFormedShutdown(s: State, target: nat)
    requires WellFormed(s) && ShutdownEnabled(s, target)
    ensures WellFormed(ShutdownNext(s, target))
  {
    RemainingInRange(s, target);
    WellFormedFrame(s, ShutdownNext(s, target));
  }

  lemma WellFormedLoad(disk: Disk, retained: set<string>, rewrite: bool)
    ensures WellFormed(Load(disk, retained, rewrite))
  {
  }

  /* ---------- Counts ---------- */

  lemma CountedAfterWorker(running: int, workers: seq<Worker>, limit: int, peak: int, i: nat, stopping: bool, ok: bool)
    requires Counted(running, workers, limit, peak) && i < |workers| && workers[i].phase != Finished
    ensures Counted(if workers[i].phase == Unregistered then running - 1 else running,
                    workers[i := Advanced(workers[i], stopping, ok)], limit, peak)
  {
    LiveCountUpdate(workers, i, Advanced(workers[i], stopping, ok));
  }

  lemma CountedAfterFill(s: State, now: int)
    requires WellFormed(s) && Counted(s.runningTasks, s.workers, s.maxConcurrent, s.peak)
    ensures var s' := Fill(s, now); Counted(s'.runningTasks, s'.workers, s'.maxConcurrent, s'.peak)
  {
    LiveAfterSpawn(s.workers, Picked(s.list, s.heap, s.runningTasks, s.maxConcurrent));
  }

  /** Cancelling workers or closing their clients changes no count. */
  lemma {:induction false} CountsFrame(workers: seq<Worker>, workers': seq<Worker>, r: nat)
    requires SameProgress(workers, workers')
    ensures LiveCount(workers') == LiveCount(workers) && ActiveCount(workers', r) == ActiveCount(workers, r)
  {
    if workers != [] {
      CountsFrame(workers[..|workers| - 1], workers'[..|workers| - 1], r);
    }
  }

  /* ---------- One worker per Running task ---------- */

  lemma OneWorkerAfterWorker(heap: map<nat, Task>, workers: seq<Worker>, i: nat, stopping: bool, ok: bool,
                             error: string)
    requires OneWorkerPerRunningTask(heap, workers) && TasksKnown(heap, workers)
    requires i < |workers| && workers[i].phase != Finished
    ensures OneWorkerPerRunningTask(HeapAfter(heap, workers[i], error),
            workers[i := Advanced(workers[i], stopping, ok)])
  {
    var w := workers[i];
    var w' := Advanced(w, stopping, ok);
    var heap' := HeapAfter(heap, w, error);
    if Active(w) {
      ActiveCountMember(workers, i);
    }
    forall r | r in heap'
      ensures ActiveCount(workers[i := w'], r) == (if heap'[r].status == Running then 1 else 0)
    {
      assert r in heap'.Keys;
      ActiveCountUpdate(workers, i, w', r);
    }
  }

  lemma OneWorkerAfterFill(s: State, now: int)
    requires WellFormed(s) && OneWorkerPerRunningTask(s.heap, s.workers)
    ensures var s' := Fill(s, now); OneWorkerPerRunningTask(s'.heap, s'.workers)
  {
    var picked := Picked(s.list, s.heap, s.runningTasks, s.maxConcurrent);
    PickedDistinct(s.list, s.heap, s.runningTasks, s.maxConcurrent);
    var s' := Fill(s, now);
    forall r | r in s'.heap
      ensures ActiveCount(s'.workers, r) == (if s'.heap[r].status == Running then 1 else 0)
    {
      ActiveAfterSpawn(s.workers, picked, r);
    }
  }

  lemma ActiveWorkersDiffer(heap: map<nat, Task>, workers: seq<Worker>, i: nat, j: nat)
    requires OneWorkerPerRunningTask(heap, workers) && TasksKnown(heap, workers)
    requires i < |workers| && j < |workers| && i != j && Active(workers[i]) && Active(workers[j])
    ensures workers[i].task != workers[j].task
  {
    if workers[i].task == workers[j].task {
      ActiveCountPair(workers, if i < j then i else j, if i < j then j else i);
    }
  }

  lemma {:induction false} NoActiveStranger(workers: seq<Worker>, r: nat)
    requires forall i :: 0 <= i < |workers| ==> workers[i].task != r
    ensures ActiveCount(workers, r) == 0
  {
    if workers != [] {
      NoActiveStranger(workers[..|workers| - 1], r);
    }
  }

  lemma OneWorkerAfterAppend(s: State, names: seq<string>, host: string)
    requires WellFormed(s) && OneWorkerPerRunningTask(s.heap, s.workers)
    ensures OneWorkerPerRunningTask(Append(s, names, host).heap, s.workers)
  {
    var s' := Append(s, names, host);
    AppendExtends(s, names, host);
    forall r | r in s'.heap
      ensures ActiveCount(s.workers, r) == (if s'.heap[r].status == Running then 1 else 0)
    {
      if r !in s.heap {
        NoActiveStranger(s.workers, r);
      }
    }
  }

  /* ---------- Wake-ups ---------- */

  /** A wake-up on its way stays on its way as long as nobody consumes it. */
  lemma WokenFrame(s: State, s': State)
    requires Woken(s)
    requires s.token ==> s'.token
    requires s.loop == TokenTaken ==> s'.loop == TokenTaken
    requires |s.callers| <= |s'.callers|
    requires forall i :: 0 <= i < |s.callers| && CallerOwesTrigger(s.callers[i]) ==>
               CallerOwesTrigger(s'.callers[i]) || s'.token
    requires |s.workers| <= |s'.workers|
    requires forall i :: 0 <= i < |s.workers| && WorkerOwesTrigger(s.workers[i]) ==>
               WorkerOwesTrigger(s'.workers[i]) || s'.token
    requires s.shutdown == TriggerOwed ==> s'.shutdown == TriggerOwed
    ensures Woken(s')
  {
  }

  lemma PendingSomewhere(list: seq<nat>, heap: map<nat, Task>, list': seq<nat>, heap': map<nat, Task>)
    requires Covers(heap, list) && Covers(heap', list')
    requires forall r :: r in list' && heap'[r].status == Pending ==> r in list && heap[r].status == Pending
    ensures PendingOf(list', heap') != [] ==> PendingOf(list, heap) != []
  {
    var pending := PendingOf(list', heap');
    if pending != [] {
      assert pending[0] in pending;
      assert pending[0] in PendingOf(list, heap);
    }
  }

  lemma WakeupAfterControl(s: State, id: string, action: Action, present: set<string>)
    requires WellFormed(s) && NoLostWakeup(s)
    requires WellFormed(ControlNext(s, id, action, present))
    ensures NoLostWakeup(ControlNext(s, id, action, present))
  {
    var s' := ControlNext(s, id, action, present);
    var e := Control(s.list, s.heap, id, action, present);
    ControlIsDisciplined(s.list, s.heap, id, action, present);
    SubsequenceMembers(e.list, s.list);
    if !e.triggered {
      forall r | r in e.list && e.heap[r].status == Pending ensures r in s.list && s.heap[r].status == Pending {
        assert KeepsDiscipline(s.list, s.heap[r], e.heap[r], r, e);
      }
      PendingSomewhere(s.list, s.heap, e.list, e.heap);
      if Woken(s) {
        WokenFrame(s, s');
      }
    }
  }

  lemma WakeupAfterCaller(s: State, c: nat)
    requires WellFormed(s) && NoLostWakeup(s) && c < |s.callers| && s.callers[c] != Caller(false, 0)
    ensures WellFormed(CallerNext(s, c)) && NoLostWakeup(CallerNext(s, c))
  {
    if Woken(s) {
      WokenFrame(s, CallerNext(s, c));
    }
  }

  lemma WakeupAfterLoop(s: State, exit: bool, now: int)
    requires WellFormed(s) && NoLostWakeup(s) && LoopEnabled(s, exit)
    requires WellFormed(LoopNext(s, exit, now))
    ensures NoLostWakeup(LoopNext(s, exit, now))
  {
    if s.loop == TokenTaken {
      PassFillsSlotsInOrder(s.list, s.heap, s.runningTasks, s.maxConcurrent, now);
    } else if s.loop == SaveOwed && Woken(s) {
      WokenFrame(s, LoopNext(s, exit, now));
    }
  }

  lemma WakeupAfterWorker(s: State, i: nat, ok: bool, error: string)
    requires WellFormed(s) && NoLostWakeup(s) && i < |s.workers|
    requires WellFormed(WorkerNext(s, i, ok, error))
    ensures NoLostWakeup(WorkerNext(s, i, ok, error))
  {
    var s' := WorkerNext(s, i, ok, error);
    PendingSomewhere(s.list, s.heap, s.list, s'.heap);
    if s.workers[i].phase == Unregistered {
      assert WorkerOwesTrigger(s'.workers[i]);
    } else if Woken(s) {
      WokenFrame(s, s');
    }
  }

  /* ---------- The state file ---------- */

  lemma OwesSaveFrame(s: State, s': State)
    requires OwesSave(s)
    requires s.loop == SaveOwed ==> s'.loop == SaveOwed
    requires |s.callers| <= |s'.callers|
    requires forall i :: 0 <= i < |s.callers| && CallerOwesSave(s.callers[i]) ==> CallerOwesSave(s'.callers[i])
    requires |s.workers| <= |s'.workers|
    requires forall i :: 0 <= i < |s.workers| && WorkerOwesSave(s.workers[i]) ==> WorkerOwesSave(s'.workers[i])
    ensures OwesSave(s')
  {
  }

  lemma DiskAgreesAfterUnsaved(disk: seq<Task>, list: seq<nat>, heap: map<nat, Task>, stale: bool, e: Effect<nat>)
    requires Covers(heap, list) && Disciplined(list, heap, e) && !e.saved && DiskAgrees(disk, heap, list, stale)
    ensures Covers(e.heap, e.list) && DiskAgrees(disk, e.heap, e.list, stale)
  {
    forall r | r in list ensures r in e.heap {
      assert r in heap.Keys;
    }
    forall i | 0 <= i < |list|
      ensures SameFile(disk[i], e.heap[list[i]]) && StatusAgrees(disk[i].status, e.heap[list[i]].status, stale)
    {
      assert KeepsDiscipline(list, heap[list[i]], e.heap[list[i]], list[i], e);
    }
  }

  lemma CrashAfterControl(s: State, id: string, action: Action, present: set<string>)
    requires WellFormed(s) && CrashConsistent(s)
    requires WellFormed(ControlNext(s, id, action, present))
    ensures CrashConsistent(ControlNext(s, id, action, present))
  {
    var s' := ControlNext(s, id, action, present);
    var e := Control(s.list, s.heap, id, action, present);
    if !e.saved {
      if OwesSave(s) {
        OwesSaveFrame(s, s');
      } else {
        ControlIsDisciplined(s.list, s.heap, id, action, present);
        DiskAgreesAfterUnsaved(s.disk.tasks, s.list, s.heap, s.stale, e);
      }
    }
  }

  lemma CrashAfterCaller(s: State, c: nat)
    requires WellFormed(s) && CrashConsistent(s) && c < |s.callers| && s.callers[c] != Caller(false, 0)
    ensures WellFormed(CallerNext(s, c)) && CrashConsistent(CallerNext(s, c))
  {
    if !s.callers[c].saveOwed && OwesSave(s) {
      OwesSaveFrame(s, CallerNext(s, c));
    }
  }

  lemma CrashAfterLoop(s: State, exit: bool, now: int)
    requires WellFormed(s) && CrashConsistent(s) && LoopEnabled(s, exit)
    requires WellFormed(LoopNext(s, exit, now))
    ensures CrashConsistent(LoopNext(s, exit, now))
  {
    if s.loop == Waiting && OwesSave(s) {
      OwesSaveFrame(s, LoopNext(s, exit, now));
    }
  }

  lemma CrashAfterWorker(s: State, i: nat, ok: bool, error: string)
    requires WellFormed(s) && CrashConsistent(s) && i < |s.workers|
    requires WellFormed(WorkerNext(s, i, ok, error))
    ensures CrashConsistent(WorkerNext(s, i, ok, error))
  {
    var s' := WorkerNext(s, i, ok, error);
    if s.workers[i].phase == Returned {
      assert WorkerOwesSave(s'.workers[i]);
    } else if s.workers[i].phase != Recorded && OwesSave(s) {
      OwesSaveFrame(s, s');
    }
  }

  lemma DiskAgreesLoaded(tasks: seq<Task>, stale: bool)
    requires stale <==> exists t :: t in tasks && t.status == Running
    ensures Covers(LoadedHeap(tasks), LoadedList(|tasks|))
    ensures DiskAgrees(tasks, LoadedHeap(tasks), LoadedList(|tasks|), stale)
  {
    forall i | 0 <= i < |tasks| ensures StatusAgrees(tasks[i].status, Reloaded(tasks[i]).status, stale) {
      assert tasks[i] in tasks;
    }
  }

  lemma CrashAfterLoad(disk: Disk, retained: set<string>, rewrite: bool)
    requires WellFormed(Load(disk, retained, rewrite))
    ensures CrashConsistent(Load(disk, retained, rewrite))
  {
    if !rewrite {
      DiskAgreesLoaded(disk.tasks, exists t :: t in disk.tasks && t.status == Running);
    }
  }

  /* ---------- Clients and shutdown ---------- */

  lemma ShutdownAfterWorker(stopping: bool, phase: ShutdownPhase, loop: Loop, workers: seq<Worker>, i: nat, ok: bool)
    requires ShutdownPhases(stopping, phase, loop, workers) && ClientsAccounted(workers)
    requires i < |workers| && workers[i].phase != Finished
    ensures ShutdownPhases(stopping, phase, loop, workers[i := Advanced(workers[i], stopping, ok)])
    ensures ClientsAccounted(workers[i := Advanced(workers[i], stopping, ok)])
  {
  }

  lemma ClosersPastAfterWorker(workers: seq<Worker>, closers: map<string, nat>, i: nat, stopping: bool, ok: bool,
                               id: string)
    requires ClosersPast(workers, closers) && i < |workers|
    ensures var w' := Advanced(workers[i], stopping, ok);
            ClosersPast(workers[i := w'], ClosersAfter(closers, workers[i].phase, w'.phase, id, i))
  {
  }

  lemma SnapshotPast(workers: seq<Worker>, closers: map<string, nat>)
    requires ClosersPast(workers, closers)
    ensures forall i :: i in closers.Values ==> i < |workers| && PastCheck(workers[i])
  {
    forall i | i in closers.Values ensures i < |workers| && PastCheck(workers[i]) {
      var id :| id in closers && closers[id] == i;
    }
  }

  /** Closing the clients of workers past their check disturbs no account. */
  lemma ShutdownAfterShutdown(s: State, target: nat)
    requires WellFormed(s) && ShutdownEnabled(s, target) && ClosersPast(s.workers, s.closers)
    requires ShutdownPhases(s.stopping, s.shutdown, s.loop, s.workers) && ClientsAccounted(s.workers)
    ensures var s' := ShutdownNext(s, target);
            ShutdownPhases(s'.stopping, s'.shutdown, s'.loop, s'.workers) && ClientsAccounted(s'.workers)
  {
    if s.shutdown == AwaitingLoop {
      SnapshotPast(s.workers, s.closers);
    }
  }

  lemma ShutdownAfterFill(s: State, now: int)
    requires WellFormed(s) && s.loop == TokenTaken
    requires ShutdownPhases(s.stopping, s.shutdown, s.loop, s.workers) && ClientsAccounted(s.workers)
    ensures var s' := Fill(s, now);
            ShutdownPhases(s'.stopping, s'.shutdown, s'.loop, s'.workers) && ClientsAccounted(s'.workers)
  {
  }
}
