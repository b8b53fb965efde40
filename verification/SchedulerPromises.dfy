/** What every reachable state of the scheduler promises, whatever the task
    identifiers are: its wake-ups, its workers, its state file, its clients. */
module SchedulerPromises {
  import opened Tasks
  import opened Scheduler
  import opened SchedulerSafety
  import opened SchedulerRuns

  /** s' is reached from s by the events, each enabled where it happens. */
  ghost predicate Runs(s: State, events: seq<Event>, s': State)
    decreases |events|
  {
    if events == [] then s == s'
    else WellFormed(s) && Enabled(s, events[0]) && Runs(Next(s, events[0]), events[1..], s')
  }

  /** A process starts on some state file. */
  ghost predicate Initial(s: State) {
    exists disk: Disk, retained: set<string>, rewrite: bool :: retained <= DiskIds(disk)
      && s == Load(disk, retained, rewrite)
  }

  /** Reachable by any interleaving of any calls, crashes and restarts. */
  ghost predicate Reachable(s: State) {
    exists s0: State, events: seq<Event> :: Initial(s0) && Runs(s0, events, s)
  }

  lemma {:induction false} InvAlongRun(s: State, events: seq<Event>, s': State)
    requires Inv(s) && Runs(s, events, s')
    ensures Inv(s')
    decreases |events|
  {
    if events != [] {
      InvKept(s, events[0]);
      InvAlongRun(Next(s, events[0]), events[1..], s');
    }
  }

  lemma ReachableInv(s: State)
    requires Reachable(s)
    ensures Inv(s)
  {
    var s0, events :| Initial(s0) && Runs(s0, events, s);
    var disk: Disk, retained: set<string>, rewrite: bool :|
      retained <= DiskIds(disk) && s0 == Load(disk, retained, rewrite);
    InvAfterLoad(disk, retained, rewrite);
    InvAlongRun(s0, events, s);
  }

  lemma RunsCons(s: State, e: Event, events: seq<Event>, s': State)
    requires WellFormed(s) && Enabled(s, e) && Runs(Next(s, e), events, s')
    ensures Runs(s, [e] + events, s')
  {
    assert ([e] + events)[1..] == events;
  }

  lemma {:induction false} RunsSnoc(s0: State, events: seq<Event>, s: State, e: Event)
    requires Runs(s0, events, s) && WellFormed(s) && Enabled(s, e)
    ensures Runs(s0, events + [e], Next(s, e))
    decreases |events|
  {
    if events == [] {
      assert [e][1..] == [] && [] + [e] == [e];
    } else {
      RunsSnoc(Next(s0, events[0]), events[1..], s, e);
      assert (events + [e])[1..] == events[1..] + [e] && (events + [e])[0] == events[0];
    }
  }

  lemma ReachableNext(s: State, e: Event)
    requires Reachable(s) && WellFormed(s) && Enabled(s, e)
    ensures Reachable(Next(s, e)) && WellFormed(Next(s, e))
  {
    var s0, events :| Initial(s0) && Runs(s0, events, s);
    RunsSnoc(s0, events, s, e);
    ReachableInv(Next(s, e));
  }

  lemma ReachableStep(s: State, e: Event)
    requires Reachable(s) && (WellFormed(s) ==> Enabled(s, e))
    ensures WellFormed(s) && Reachable(Next(s, e)) && WellFormed(Next(s, e))
  {
    ReachableInv(s);
    ReachableNext(s, e);
  }

  lemma {:induction false} ReachableAfter(s: State, events: seq<Event>, s': State)
    requires Reachable(s) && Runs(s, events, s')
    ensures Reachable(s')
    decreases |events|
  {
    if events != [] {
      ReachableNext(s, events[0]);
      ReachableAfter(Next(s, events[0]), events[1..], s');
    }
  }

  lemma LoadIsReachable(disk: Disk, retained: set<string>, rewrite: bool)
    requires retained <= DiskIds(disk)
    ensures Reachable(Load(disk, retained, rewrite)) && WellFormed(Load(disk, retained, rewrite))
  {
    var s := Load(disk, retained, rewrite);
    assert Initial(s);
    assert Runs(s, [], s);
    WellFormedLoad(disk, retained, rewrite);
  }

  /* ---------- Wake-ups ---------- */

  /** No lost wake-up: if a listed task is Pending, a slot is free and shutdown
      has not begun, the dispatcher holds a wake-up it has not acted on, or some
      thread still owes it one. */
  lemma WakeupNeverLost(s: State, r: nat)
    requires Reachable(s)
    requires r in s.list && r in s.heap && s.heap[r].status == Pending && s.runningTasks < s.maxConcurrent
             && !s.stopping
    ensures Woken(s)
  {
    ReachableInv(s);
    assert r in PendingOf(s.list, s.heap);
  }

  /* ---------- Workers ---------- */

  /** A task, listed or removed, is Running exactly when one worker for it has
      not yet recorded its outcome, and there is never a second one. */
  lemma RunningMeansOneActiveWorker(s: State, r: nat)
    requires Reachable(s) && r in s.heap
    ensures s.heap[r].status == Running <==>
            exists i :: 0 <= i < |s.workers| && Active(s.workers[i]) && s.workers[i].task == r
    ensures forall i, j | 0 <= i < |s.workers| && 0 <= j < |s.workers| ::
              (Active(s.workers[i]) && Active(s.workers[j]) && s.workers[i].task == s.workers[j].task == r ==> i == j)
  {
    ReachableInv(s);
    if s.heap[r].status == Running {
      var i := ActiveCountWitness(s.workers, r);
    }
    forall i | 0 <= i < |s.workers| && Active(s.workers[i]) && s.workers[i].task == r
      ensures s.heap[r].status == Running
    {
      ActiveCountMember(s.workers, i);
    }
    forall i, j | 0 <= i < |s.workers| && 0 <= j < |s.workers| && Active(s.workers[i]) && Active(s.workers[j])
        && s.workers[i].task == s.workers[j].task == r && i != j
      ensures false
    {
      ActiveWorkersDiffer(s.heap, s.workers, i, j);
    }
  }

  /** runningTasks counts the workers that have not decremented it, and never
      exceeds the largest limit this process has had. */
  lemma SlotsAccounted(s: State)
    requires Reachable(s)
    ensures s.runningTasks == LiveCount(s.workers)
    ensures 0 <= s.runningTasks <= s.peak
    ensures 1 <= s.maxConcurrent <= s.peak
  {
    ReachableInv(s);
  }

  /* ---------- The state file ---------- */

  /** What a restart may change about a task: one that was Running waits again; one
      that was Pending or Paused waits or is paused, as the unsaved switch between the
      two has it; one that had ended stays as it ended. */
  predicate Restored(now: Task, after: Task) {
    && SameFile(now, after)
    && (now.status == Running ==> after.status == Pending)
    && (now.status == Pending || now.status == Paused ==> after.status == Pending || after.status == Paused)
    && (now.status == Completed ==> after.status == Completed)
    && (now.status == Failed ==> after.status == Failed)
  }

  /** Loading reads every entry in order. A Running one is loaded as Pending, and any
      other as it is. */
  lemma LoadReadsEntries(disk: Disk, retained: set<string>, rewrite: bool, i: nat)
    requires i < |disk.tasks|
    ensures var s, t := Load(disk, retained, rewrite), disk.tasks[i];
            && |s.list| == |disk.tasks| && s.list[i] in s.heap
            && s.heap[s.list[i]].status != Running
            && s.heap[s.list[i]] == (if t.status != Running then t
                                     else Task(t.id, t.fileName, t.host, Pending, t.progress, t.bytesUploaded,
                                               t.totalBytes, t.startedAt, t.error))
  {
  }

  lemma RestoredFromDisk(disk: seq<Task>, heap: map<nat, Task>, list: seq<nat>, stale: bool)
    requires Covers(heap, list) && DiskAgrees(disk, heap, list, stale)
    ensures var heap', list' := LoadedHeap(disk), LoadedList(|disk|);
            && Covers(heap', list') && |list'| == |list|
            && forall i :: 0 <= i < |list| ==> Restored(heap[list[i]], heap'[list'[i]])
  {
    forall i | 0 <= i < |list| ensures Restored(heap[list[i]], Reloaded(disk[i])) {
      assert StatusAgrees(disk[i].status, heap[list[i]].status, stale);
    }
  }

  /** A crash when nobody owes a save loses nothing: the next process lists the
      same tasks in the same order. */
  lemma RestartRestoresQueue(s: State, retained: set<string>, rewrite: bool)
    requires Reachable(s) && !OwesSave(s)
    ensures var s' := Load(s.disk, retained, rewrite);
            && Covers(s.heap, s.list) && Covers(s'.heap, s'.list)
            && |s'.list| == |s.list|
            && forall i :: 0 <= i < |s.list| ==> Restored(s.heap[s.list[i]], s'.heap[s'.list[i]])
  {
    assert Covers(s.heap, s.list) && DiskAgrees(s.disk.tasks, s.heap, s.list, s.stale) by { ReachableInv(s); }
    RestoredFromDisk(s.disk.tasks, s.heap, s.list, s.stale);
  }

  /** In memory and on disk a status is the same up to Pending and Paused. */
  ghost predicate AgreesUpToPause(s: State)
    requires Covers(s.heap, s.list)
  {
    DiskAgrees(s.disk.tasks, s.heap, s.list, false)
  }

  /** In a process that has not saved since it loaded a Running entry, the entry
      is still there, and no worker has been spawned other than by a pass of the
      dispatcher whose save is still to come. */
  ghost predicate StaleOk(s: State) {
    s.stale ==> (exists t :: t in s.disk.tasks && t.status == Running) && (s.workers == [] || s.loop == SaveOwed)
  }

  lemma StaleOkFrame(s: State, s': State)
    requires StaleOk(s)
    requires s'.stale ==> s.stale && s'.disk == s.disk
    requires s.loop == SaveOwed ==> s'.loop == SaveOwed || !s'.stale
    requires |s'.workers| == |s.workers| || s'.loop == SaveOwed
    ensures StaleOk(s')
  {
  }

  lemma StaleOkKept(s: State, e: Event)
    requires WellFormed(s) && StaleOk(s) && Enabled(s, e)
    ensures StaleOk(Next(s, e))
  {
    match e
    case AddTasks(names, host) => StaleOkFrame(s, Append(s, names, host));
    case ControlTask(id, action, present) => StaleOkFrame(s, ControlNext(s, id, action, present));
    case CallerStep(c) => StaleOkFrame(s, CallerNext(s, c));
    case LoopStep(exit, now) => StaleOkFrame(s, LoopNext(s, exit, now));
    case WorkerStep(i, ok, error) => StaleOkFrame(s, WorkerNext(s, i, ok, error));
    case ShutdownStep(target) => StaleOkFrame(s, ShutdownNext(s, target));
    case SetConcurrency(_) =>
    case BeginShutdown =>
    case Restart(retained, rewrite) =>
  }

  lemma {:induction false} StaleOkAlongRun(s: State, events: seq<Event>, s': State)
    requires StaleOk(s) && Runs(s, events, s')
    ensures StaleOk(s')
    decreases |events|
  {
    if events != [] {
      StaleOkKept(s, events[0]);
      StaleOkAlongRun(Next(s, events[0]), events[1..], s');
    }
  }

  lemma ReachableStaleOk(s: State)
    requires Reachable(s)
    ensures StaleOk(s)
  {
    var s0, events :| Initial(s0) && Runs(s0, events, s);
    StaleOkAlongRun(s0, events, s);
  }

  lemma NoWorkerNoRunning(s: State, i: nat)
    requires WellFormed(s) && OneWorkerPerRunningTask(s.heap, s.workers) && s.workers == [] && i < |s.list|
    ensures s.heap[s.list[i]].status != Running
  {
    assert ActiveCount(s.workers, s.list[i]) == 0;
  }

  lemma StaleDisagrees(s: State)
    requires WellFormed(s) && OneWorkerPerRunningTask(s.heap, s.workers) && StaleOk(s)
    requires s.stale && s.loop != SaveOwed
    ensures !DiskAgrees(s.disk.tasks, s.heap, s.list, false)
  {
    var t :| t in s.disk.tasks && t.status == Running;
    var i :| 0 <= i < |s.disk.tasks| && s.disk.tasks[i] == t;
    if i < |s.list| {
      NoWorkerNoRunning(s, i);
      assert !StatusAgrees(s.disk.tasks[i].status, s.heap[s.list[i]].status, false);
    }
  }

  /** When nobody owes a save, that stronger agreement holds exactly in the
      processes that have saved since they started, or that loaded a file
      listing no Running task. */
  lemma AgreementUpToPauseIff(s: State)
    requires Reachable(s) && !OwesSave(s)
    ensures Covers(s.heap, s.list)
    ensures AgreesUpToPause(s) <==> !s.stale
  {
    assert WellFormed(s) && OneWorkerPerRunningTask(s.heap, s.workers)
           && DiskAgrees(s.disk.tasks, s.heap, s.list, s.stale) by {
      ReachableInv(s);
    }
    ReachableStaleOk(s);
    if s.stale {
      StaleDisagrees(s);
    }
  }

  /** The exception is real: right after loading a file with a Running task
      nobody owes a save, yet the file says Running and memory says Pending. */
  lemma RunningEntryStaysOnDisk()
    ensures var t := Task("1", "a", "h", Running, 0, 0, 0, None, "");
            var s := Load(Disk([t], 1), {}, false);
            Reachable(s) && !OwesSave(s) && Covers(s.heap, s.list) && !AgreesUpToPause(s)
  {
    var t := Task("1", "a", "h", Running, 0, 0, 0, None, "");
    var disk := Disk([t], 1);
    var s := Load(disk, {}, false);
    LoadIsReachable(disk, {}, false);
    LoadOwesNoSave(disk, {}, false);
    RunningDisagrees(disk.tasks, s.heap, s.list);
  }

  lemma LoadOwesNoSave(disk: Disk, retained: set<string>, rewrite: bool)
    ensures !OwesSave(Load(disk, retained, rewrite))
  {
  }

  lemma RunningDisagrees(disk: seq<Task>, heap: map<nat, Task>, list: seq<nat>)
    requires Covers(heap, list) && |disk| == |list| == 1 && heap[list[0]] == Reloaded(disk[0])
    requires disk[0].status == Running
    ensures !DiskAgrees(disk, heap, list, false)
  {
    assert !StatusAgrees(disk[0].status, heap[list[0]].status, false);
  }

  /* ---------- The concurrency limit ---------- */

  /** A new limit is not saved where it is set, but it wakes the dispatcher, whose
      pass is followed by a save. */
  ghost predicate LimitOk(s: State) {
    s.stopping || Woken(s) || s.loop == SaveOwed
    || s.maxConcurrent == (if s.disk.maxConcurrent > 0 then s.disk.maxConcurrent else 1)
  }

  lemma LimitAfterLoop(s: State, exit: bool, now: int)
    requires WellFormed(s) && LimitOk(s) && LoopEnabled(s, exit) && s.maxConcurrent > 0
    ensures LimitOk(LoopNext(s, exit, now))
  {
    if s.loop == SaveOwed {
      assert LoopNext(s, exit, now).disk.maxConcurrent == s.maxConcurrent;
    }
  }

  lemma LimitAfterCaller(s: State, c: nat)
    requires WellFormed(s) && LimitOk(s) && Enabled(s, CallerStep(c)) && s.maxConcurrent > 0
    ensures LimitOk(CallerNext(s, c))
  {
    if Woken(s) {
      WokenFrame(s, CallerNext(s, c));
    }
  }

  lemma LimitAfterControl(s: State, id: string, action: Action, present: set<string>)
    requires WellFormed(s) && LimitOk(s) && s.maxConcurrent > 0
    ensures LimitOk(ControlNext(s, id, action, present))
  {
    if Woken(s) {
      WokenFrame(s, ControlNext(s, id, action, present));
    }
  }

  lemma LimitAfterWorker(s: State, i: nat, ok: bool, error: string)
    requires WellFormed(s) && LimitOk(s) && i < |s.workers| && s.maxConcurrent > 0
    ensures LimitOk(WorkerNext(s, i, ok, error))
  {
    if Woken(s) {
      WokenFrame(s, WorkerNext(s, i, ok, error));
    }
  }

  lemma LimitAfterAdd(s: State, names: seq<string>, host: string)
    requires WellFormed(s) && LimitOk(s) && s.maxConcurrent > 0
    ensures LimitOk(Next(s, AddTasks(names, host)))
  {
    if Woken(s) {
      WokenFrame(s, Next(s, AddTasks(names, host)));
    }
  }

  lemma LimitKept(s: State, e: Event)
    requires Inv(s) && LimitOk(s) && Enabled(s, e)
    ensures LimitOk(Next(s, e))
  {
    match e
    case AddTasks(names, host) => LimitAfterAdd(s, names, host);
    case ControlTask(id, action, present) => LimitAfterControl(s, id, action, present);
    case CallerStep(c) => LimitAfterCaller(s, c);
    case LoopStep(exit, now) => LimitAfterLoop(s, exit, now);
    case WorkerStep(i, ok, error) => LimitAfterWorker(s, i, ok, error);
    case ShutdownStep(target) => assert s.stopping && ShutdownNext(s, target).stopping;
    case SetConcurrency(files) => assert CallerOwesTrigger(Next(s, e).callers[|s.callers|]);
    case BeginShutdown =>
    case Restart(retained, rewrite) => LimitLoaded(s.disk, retained, rewrite);
  }

  lemma LimitLoaded(disk: Disk, retained: set<string>, rewrite: bool)
    ensures LimitOk(Load(disk, retained, rewrite))
    ensures Load(disk, retained, rewrite).maxConcurrent == (if disk.maxConcurrent > 0 then disk.maxConcurrent else 1)
  {
  }

  lemma {:induction false} LimitAlongRun(s: State, events: seq<Event>, s': State)
    requires Inv(s) && LimitOk(s) && Runs(s, events, s')
    ensures LimitOk(s')
    decreases |events|
  {
    if events != [] {
      InvKept(s, events[0]);
      LimitKept(s, events[0]);
      LimitAlongRun(Next(s, events[0]), events[1..], s');
    }
  }

  /** The limit survives a restart, once the wake-up that came with it has been
      acted on and the save that follows is done. */
  lemma RestartKeepsLimit(s: State, retained: set<string>, rewrite: bool)
    requires Reachable(s) && !s.stopping && !Woken(s) && s.loop != SaveOwed
    ensures Load(s.disk, retained, rewrite).maxConcurrent == s.maxConcurrent
  {
    var s0, events :| Initial(s0) && Runs(s0, events, s);
    var disk: Disk, before: set<string>, rewritten: bool :|
      before <= DiskIds(disk) && s0 == Load(disk, before, rewritten);
    InvAfterLoad(disk, before, rewritten);
    LimitLoaded(disk, before, rewritten);
    LimitAlongRun(s0, events, s);
    LimitLoaded(s.disk, retained, rewrite);
  }

  /* ---------- One process ---------- */

  ghost predicate SameProcess(events: seq<Event>) {
    forall i :: 0 <= i < |events| ==> !events[i].Restart?
  }

  /** Within a process records and identities stay, a task once off the list
      never returns to it, and references are handed out in order. */
  ghost predicate Grows(s: State, s': State) {
    && s.nextRef <= s'.nextRef
    && (forall r :: r in s.heap ==> r in s'.heap && s'.heap[r].id == s.heap[r].id)
    && (forall r :: r in s'.heap && r !in s.heap ==> r >= s.nextRef)
    && (forall r :: r in s'.list ==> r in s.list || r >= s.nextRef)
    && s'.retained == s.retained
  }

  lemma GrowsByAppend(s: State, names: seq<string>, host: string)
    requires WellFormed(s)
    ensures Grows(s, Append(s, names, host))
  {
    var s1 := Append(s, names, host);
    AppendExtends(s, names, host);
    forall r | r in s1.list ensures r in s.list || r >= s.nextRef {
      AppendListed(s, names, host, r);
    }
  }

  lemma GrowsByControl(s: State, id: string, action: Action, present: set<string>)
    requires WellFormed(s)
    ensures Grows(s, ControlNext(s, id, action, present))
  {
    var e := Control(s.list, s.heap, id, action, present);
    ControlKeepsRecords(s, id, action, present);
    assert IsSubsequence(e.list, s.list) by { ControlIsDisciplined(s.list, s.heap, id, action, present); }
    SubsequenceMembers(e.list, s.list);
    var s' := ControlNext(s, id, action, present);
    forall r | r in s'.heap ensures r in s.heap {
      assert r in s'.heap.Keys;
    }
    forall r | r in s.heap ensures r in s'.heap {
      assert r in s.heap.Keys;
    }
  }

  lemma GrowsByFill(s: State, now: int)
    requires WellFormed(s)
    ensures Grows(s, Fill(s, now))
  {
  }

  lemma GrowsByNothing(s: State, s': State)
    requires WellFormed(s)
    requires s'.heap == s.heap && s'.list == s.list && s'.nextRef == s.nextRef && s'.retained == s.retained
    ensures Grows(s, s')
  {
  }

  lemma GrowsByWorker(s: State, i: nat, ok: bool, error: string)
    requires WellFormed(s) && i < |s.workers|
    ensures Grows(s, WorkerNext(s, i, ok, error))
  {
  }

  lemma GrowsOneStep(s: State, e: Event)
    requires WellFormed(s) && Enabled(s, e) && !e.Restart?
    ensures Grows(s, Next(s, e))
  {
    match e
    case AddTasks(names, host) => GrowsByAppend(s, names, host);
    case ControlTask(id, action, present) => GrowsByControl(s, id, action, present);
    case LoopStep(exit, now) =>
      if s.loop == TokenTaken {
        GrowsByFill(s, now);
      } else {
        GrowsByNothing(s, LoopNext(s, exit, now));
      }
    case WorkerStep(i, ok, error) => GrowsByWorker(s, i, ok, error);
    case CallerStep(c) => GrowsByNothing(s, CallerNext(s, c));
    case ShutdownStep(target) => GrowsByNothing(s, ShutdownNext(s, target));
    case SetConcurrency(files) => GrowsByNothing(s, Next(s, SetConcurrency(files)));
    case BeginShutdown => GrowsByNothing(s, Next(s, BeginShutdown));
  }

  lemma {:induction false} AppendListed(s: State, names: seq<string>, host: string, r: nat)
    requires s.nextId <= TaskIds.MAX_UINT64
    requires r in Append(s, names, host).list
    ensures r in s.list || r >= s.nextRef
    decreases |names|
  {
    if names != [] {
      AppendListed(AppendOne(s, names[0], host), names[1..], host, r);
    }
  }

  lemma {:induction false} GrowsAlongRun(s: State, events: seq<Event>, s': State)
    requires Inv(s) && Runs(s, events, s') && SameProcess(events)
    ensures Inv(s') && Grows(s, s')
    decreases |events|
  {
    if events != [] {
      var s1 := Next(s, events[0]);
      InvKept(s, events[0]);
      GrowsOneStep(s, events[0]);
      GrowsAlongRun(s1, events[1..], s');
    }
  }

  /** Only AddTasks makes records. */
  lemma OnlyAddTasksMakesRecords(s: State, e: Event)
    requires WellFormed(s) && Enabled(s, e) && !e.Restart? && !e.AddTasks?
    ensures Next(s, e).heap.Keys == s.heap.Keys
  {
    match e
    case LoopStep(exit, now) => assert Fill(s, now).heap.Keys == s.heap.Keys;
    case _ =>
  }

  /* ---------- Shutdown ---------- */

  /** No client is ever closed twice, and when Shutdown returns every worker has
      finished and every client that was opened has been closed exactly once. */
  lemma EveryClientClosedOnce(s: State, i: nat)
    requires Reachable(s) && i < |s.workers|
    ensures s.workers[i].closes <= 1
    ensures s.shutdown == Complete ==>
              s.workers[i].phase == Finished && s.workers[i].client != Open
              && (s.workers[i].client == Shut <==> s.workers[i].closes == 1)
  {
    assert ClientAccounted(s.workers[i])
           && ShutdownPhases(s.stopping, s.shutdown, s.loop, s.workers) by { ReachableInv(s); }
  }

  lemma NoSpawnAfterExit(s: State, e: Event)
    requires WellFormed(s) && Enabled(s, e) && !e.Restart? && s.loop == Exited
    ensures Next(s, e).loop == Exited && |Next(s, e).workers| == |s.workers|
  {
    match e
    case AddTasks(names, host) =>
      assert Append(s, names, host).loop == Exited && Append(s, names, host).workers == s.workers;
    case ControlTask(id, action, present) =>
      assert SameProgress(s.workers, ControlNext(s, id, action, present).workers);
    case CallerStep(c) => assert CallerNext(s, c).workers == s.workers;
    case ShutdownStep(target) => assert SameProgress(s.workers, ShutdownNext(s, target).workers);
    case WorkerStep(i, ok, error) => assert WorkerNext(s, i, ok, error).loop == Exited;
    case SetConcurrency(_) =>
    case BeginShutdown =>
  }

  /** After the dispatcher has exited, and so whenever Shutdown is past wg.Wait,
      no step of this process adds a worker to taskWG. */
  lemma NoWorkerAfterLoopExit(s: State, e: Event)
    requires Reachable(s) && Enabled(s, e) && !e.Restart?
    requires s.loop == Exited || s.shutdown.Closing? || s.shutdown == AwaitingTasks || s.shutdown == Complete
    ensures WellFormed(s)
    ensures Next(s, e).loop == Exited && |Next(s, e).workers| == |s.workers|
  {
    assert WellFormed(s) && s.loop == Exited by { ReachableInv(s); }
    NoSpawnAfterExit(s, e);
  }
}
