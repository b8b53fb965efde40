/** activeClosers and Shutdown, whatever the task identifiers are. The map is keyed
    by them, so a worker that registers can overwrite another's entry. It is exact
    throughout a run exactly if that never happens; then Shutdown misses no
    client; and a client it does not list can escape every shutdown. */
module SchedulerClosers {
  import opened Tasks
  import opened Scheduler
  import opened SchedulerSafety
  import opened SchedulerRuns
  import opened SchedulerPromises

  /* ---------- The map ---------- */

  predicate Registered(p: Phase) { p in {Uploading, Uploaded, Closed} }

  /** activeClosers lists exactly the workers between registering and deleting
      their closer. */
  ghost predicate ClosersExact(heap: map<nat, Task>, workers: seq<Worker>, closers: map<string, nat>)
    requires TasksKnown(heap, workers)
  {
    && (forall i :: 0 <= i < |workers| && Registered(workers[i].phase) ==>
          heap[workers[i].task].id in closers && closers[heap[workers[i].task].id] == i)
    && (forall id :: id in closers ==>
          closers[id] < |workers| && Registered(workers[closers[id]].phase) && heap[workers[closers[id]].task].id == id)
  }

  /** A worker passes its context check while its identifier has an entry. */
  ghost predicate Overwrites(s: State, e: Event)
    requires WellFormed(s)
  {
    e.WorkerStep? && e.worker < |s.workers|
    && var w := s.workers[e.worker];
       w.phase == Connected && !w.cancelled && !s.stopping && s.heap[w.task].id in s.closers
  }

  /** Registering keeps the map exact just when it overwrites no entry. */
  lemma RegisterExactIff(heap: map<nat, Task>, workers: seq<Worker>, closers: map<string, nat>, i: nat, w': Worker)
    requires TasksKnown(heap, workers) && ClosersExact(heap, workers, closers)
    requires i < |workers| && workers[i].phase == Connected && w'.phase == Uploading && w'.task == workers[i].task
    ensures TasksKnown(heap, workers[i := w'])
    ensures ClosersExact(heap, workers[i := w'], closers[heap[w'.task].id := i]) <==> heap[w'.task].id !in closers
  {
    var id := heap[w'.task].id;
    if id in closers {
      assert workers[i := w'][closers[id]] == workers[closers[id]];
    }
  }

  /** Deleting removes this worker's closer and no other. */
  lemma ClosersAfterDelete(heap: map<nat, Task>, workers: seq<Worker>, closers: map<string, nat>, i: nat, w': Worker)
    requires TasksKnown(heap, workers) && ClosersExact(heap, workers, closers)
    requires i < |workers| && workers[i].phase == Closed && w'.phase == Returned && w'.task == workers[i].task
    ensures ClosersExact(heap, workers[i := w'], closers - {heap[w'.task].id})
  {
    var id := heap[w'.task].id;
    forall j | 0 <= j < |workers| && j != i && Registered(workers[j].phase)
      ensures heap[workers[j].task].id != id
    {
      assert closers[heap[workers[j].task].id] == j && closers[id] == i;
    }
  }

  lemma ClosersAfterOther(heap: map<nat, Task>, workers: seq<Worker>, closers: map<string, nat>, i: nat, w': Worker)
    requires TasksKnown(heap, workers) && ClosersExact(heap, workers, closers)
    requires i < |workers| && Registered(workers[i].phase) == Registered(w'.phase) && w'.task == workers[i].task
    ensures ClosersExact(heap, workers[i := w'], closers)
  {
  }

  lemma WorkerExactIff(heap: map<nat, Task>, workers: seq<Worker>, closers: map<string, nat>, i: nat, stopping: bool,
                       ok: bool)
    requires TasksKnown(heap, workers) && ClosersExact(heap, workers, closers)
    requires i < |workers| && workers[i].phase != Finished
    ensures var w, w' := workers[i], Advanced(workers[i], stopping, ok);
            && TasksKnown(heap, workers[i := w'])
            && (ClosersExact(heap, workers[i := w'], ClosersAfter(closers, w.phase, w'.phase, heap[w.task].id, i))
                <==> (w.phase == Connected && w'.phase == Uploading ==> heap[w.task].id !in closers))
  {
    var w, w' := workers[i], Advanced(workers[i], stopping, ok);
    if w.phase == Connected && w'.phase == Uploading {
      RegisterExactIff(heap, workers, closers, i, w');
    } else if w.phase == Closed {
      ClosersAfterDelete(heap, workers, closers, i, w');
    } else {
      ClosersAfterOther(heap, workers, closers, i, w');
    }
  }

  lemma ClosersFrame(heap: map<nat, Task>, heap': map<nat, Task>, workers: seq<Worker>, workers': seq<Worker>,
                     closers: map<string, nat>)
    requires TasksKnown(heap, workers) && TasksKnown(heap', workers') && ClosersExact(heap, workers, closers)
    requires |workers| <= |workers'|
    requires forall i :: 0 <= i < |workers| ==>
               workers'[i].task == workers[i].task && workers'[i].phase == workers[i].phase
    requires forall i :: |workers| <= i < |workers'| ==> workers'[i].phase == Spawned
    requires forall r :: r in heap ==> r in heap' && heap'[r].id == heap[r].id
    ensures ClosersExact(heap', workers', closers)
  {
  }

  lemma WorkerStepExactIff(s: State, i: nat, ok: bool, error: string)
    requires WellFormed(s) && ClosersExact(s.heap, s.workers, s.closers)
    requires i < |s.workers| && s.workers[i].phase != Finished && WellFormed(WorkerNext(s, i, ok, error))
    ensures var s' := WorkerNext(s, i, ok, error);
            ClosersExact(s'.heap, s'.workers, s'.closers) <==> !Overwrites(s, WorkerStep(i, ok, error))
  {
    var w, w' := s.workers[i], Advanced(s.workers[i], s.stopping, ok);
    var heap', workers' := HeapAfter(s.heap, w, error), s.workers[i := w'];
    var closers' := ClosersAfter(s.closers, w.phase, w'.phase, s.heap[w.task].id, i);
    WorkerExactIff(s.heap, s.workers, s.closers, i, s.stopping, ok);
    ExactRenamedIff(s.heap, heap', workers', closers');
    WorkerNextIs(s, i, ok, error);
  }

  lemma WorkerNextIs(s: State, i: nat, ok: bool, error: string)
    requires WellFormed(s) && i < |s.workers|
    ensures var w, w', s' := s.workers[i], Advanced(s.workers[i], s.stopping, ok), WorkerNext(s, i, ok, error);
            && s'.heap == HeapAfter(s.heap, w, error) && s'.workers == s.workers[i := w']
            && s'.closers == ClosersAfter(s.closers, w.phase, w'.phase, s.heap[w.task].id, i)
            && s'.cancels == CancelsAfter(s.cancels, w.phase, s.heap[w.task].id, i)
  {
  }

  lemma ExactRenamedIff(heap: map<nat, Task>, heap': map<nat, Task>, workers: seq<Worker>, closers: map<string, nat>)
    requires TasksKnown(heap, workers) && heap'.Keys == heap.Keys
             && (forall r :: r in heap ==> heap'[r].id == heap[r].id)
    ensures TasksKnown(heap', workers)
            && (ClosersExact(heap', workers, closers) <==> ClosersExact(heap, workers, closers))
  {
    forall i | 0 <= i < |workers| ensures workers[i].task in heap'
      && heap'[workers[i].task].id == heap[workers[i].task].id {
      assert workers[i].task in heap.Keys;
    }
  }

  lemma OtherStepExact(s: State, e: Event)
    requires WellFormed(s) && ClosersExact(s.heap, s.workers, s.closers) && Enabled(s, e) && !e.WorkerStep?
             && WellFormed(Next(s, e))
    ensures ClosersExact(Next(s, e).heap, Next(s, e).workers, Next(s, e).closers)
  {
    if !e.Restart? {
      var s' := Next(s, e);
      GrowsOneStep(s, e);
      assert s'.closers == s.closers && SameAsBefore(s.workers, s'.workers) by { WorkersKept(s, e); }
      ClosersFrame(s.heap, s'.heap, s.workers, s'.workers, s.closers);
    }
  }

  /** The workers there were, advanced in nothing, and possibly new ones. */
  ghost predicate SameAsBefore(workers: seq<Worker>, workers': seq<Worker>) {
    && |workers| <= |workers'|
    && (forall i :: 0 <= i < |workers| ==> workers'[i].task == workers[i].task && workers'[i].phase == workers[i].phase)
    && (forall i :: |workers| <= i < |workers'| ==> workers'[i].phase == Spawned)
  }

  lemma WorkersKeptByLoop(s: State, exit: bool, now: int)
    requires WellFormed(s) && LoopEnabled(s, exit)
    ensures LoopNext(s, exit, now).closers == s.closers && SameAsBefore(s.workers, LoopNext(s, exit, now).workers)
  {
    if s.loop == TokenTaken {
      assert SameAsBefore(s.workers, Fill(s, now).workers);
    }
  }

  lemma WorkersKept(s: State, e: Event)
    requires WellFormed(s) && Enabled(s, e) && !e.WorkerStep? && !e.Restart?
    ensures Next(s, e).closers == s.closers && SameAsBefore(s.workers, Next(s, e).workers)
  {
    match e
    case AddTasks(names, host) =>
      assert Append(s, names, host).workers == s.workers && Append(s, names, host).closers == s.closers;
    case ControlTask(id, action, present) => assert SameProgress(s.workers,
         ControlNext(s, id, action, present).workers);
    case LoopStep(exit, now) => WorkersKeptByLoop(s, exit, now);
    case ShutdownStep(target) => assert SameProgress(s.workers, ShutdownNext(s, target).workers);
    case CallerStep(c) => assert CallerNext(s, c).workers == s.workers;
    case SetConcurrency(_) =>
    case BeginShutdown =>
  }

  /** One step keeps the map exact just when it does not overwrite. */
  lemma StepExactIff(s: State, e: Event)
    requires Inv(s) && ClosersExact(s.heap, s.workers, s.closers) && Enabled(s, e)
    ensures WellFormed(Next(s, e))
    ensures ClosersExact(Next(s, e).heap, Next(s, e).workers, Next(s, e).closers) <==> !Overwrites(s, e)
  {
    assert WellFormed(Next(s, e)) by { InvKept(s, e); }
    if e.WorkerStep? {
      WorkerStepExactIff(s, e.worker, e.ok, e.error);
    } else {
      OtherStepExact(s, e);
    }
  }

  ghost predicate NeverOverwrites(s: State, events: seq<Event>)
    decreases |events|
  {
    events != [] ==>
      && WellFormed(s) && Enabled(s, events[0]) && !Overwrites(s, events[0])
      && NeverOverwrites(Next(s, events[0]), events[1..])
  }

  /** The map is exact in every state the run passes through. */
  ghost predicate ExactThroughout(s: State, events: seq<Event>)
    decreases |events|
  {
    && WellFormed(s) && ClosersExact(s.heap, s.workers, s.closers)
    && (events != [] ==> Enabled(s, events[0]) && ExactThroughout(Next(s, events[0]), events[1..]))
  }

  /** Over any run, across restarts, activeClosers is exact throughout exactly if no
      worker registers under an identifier that has an entry. */
  lemma {:induction false} ExactThroughoutIff(s: State, events: seq<Event>, s': State)
    requires Inv(s) && ClosersExact(s.heap, s.workers, s.closers) && Runs(s, events, s')
    ensures ExactThroughout(s, events) <==> NeverOverwrites(s, events)
    decreases |events|
  {
    if events != [] {
      var s1 := Next(s, events[0]);
      InvKept(s, events[0]);
      StepExactIff(s, events[0]);
      if ClosersExact(s1.heap, s1.workers, s1.closers) {
        ExactThroughoutIff(s1, events[1..], s');
      } else {
        assert !ExactThroughout(s1, events[1..]);
      }
    }
  }

  /** What overwriting does: the worker whose entry it was is listed no more. */
  lemma OverwrittenIsUnlisted(s: State, i: nat, ok: bool, error: string)
    requires WellFormed(s) && ClosersExact(s.heap, s.workers, s.closers) && Overwrites(s, WorkerStep(i, ok, error))
    ensures var j, s' := s.closers[s.heap[s.workers[i].task].id], WorkerNext(s, i, ok, error);
            j != i && j < |s'.workers| && s'.workers[j] == s.workers[j] && j !in s'.closers.Values
  {
    var id := s.heap[s.workers[i].task].id;
    var j, s' := s.closers[id], WorkerNext(s, i, ok, error);
    assert s'.closers == s.closers[id := i];
    forall k | k in s'.closers ensures s'.closers[k] != j {
      assert k != id ==> s'.closers[k] == s.closers[k];
    }
  }

  /* ---------- Shutdown's snapshot ---------- */

  /** Every registered client that is open is still to be closed by Shutdown. */
  ghost predicate ClientsCovered(phase: ShutdownPhase, workers: seq<Worker>) {
    && (phase.Closing? ==> forall i :: 0 <= i < |workers| && HoldsRegisteredClient(workers[i]) ==> i in phase.remaining)
    && (phase == AwaitingTasks || phase == Complete ==> forall i :: 0 <= i < |workers| ==>
        !HoldsRegisteredClient(workers[i]))
  }

  /** No worker passes its context check any more once Shutdown has begun. */
  lemma CoveredAfterWorker(stopping: bool, phase: ShutdownPhase, loop: Loop, workers: seq<Worker>, i: nat, ok: bool)
    requires ShutdownPhases(stopping, phase, loop, workers) && ClientsCovered(phase, workers)
    requires i < |workers| && workers[i].phase != Finished
    ensures ClientsCovered(phase, workers[i := Advanced(workers[i], stopping, ok)])
  {
  }

  /** The snapshot of activeClosers lists every registered open client. */
  lemma SnapshotCovers(heap: map<nat, Task>, workers: seq<Worker>, closers: map<string, nat>)
    requires TasksKnown(heap, workers) && ClosersExact(heap, workers, closers)
    ensures ClientsCovered(Closing(closers.Values), workers)
  {
    forall i | 0 <= i < |workers| && HoldsRegisteredClient(workers[i]) ensures i in closers.Values {
      assert Registered(workers[i].phase);
      assert closers[heap[workers[i].task].id] == i;
    }
  }

  /** From the snapshot to its end, one client after the other, none is missed. */
  lemma CoveredAfterShutdown(s: State, target: nat)
    requires WellFormed(s) && ShutdownEnabled(s, target)
    requires ClosersExact(s.heap, s.workers, s.closers) && ClientsCovered(s.shutdown, s.workers)
    ensures ClientsCovered(ShutdownNext(s, target).shutdown, ShutdownNext(s, target).workers)
  {
    if s.shutdown == AwaitingLoop {
      SnapshotCovers(s.heap, s.workers, s.closers);
    }
  }

  /** Every other step leaves the clients as they are. */
  lemma CoveredKept(s: State, e: Event)
    requires Inv(s) && ClosersExact(s.heap, s.workers, s.closers) && ClientsCovered(s.shutdown, s.workers)
             && Enabled(s, e)
    ensures ClientsCovered(Next(s, e).shutdown, Next(s, e).workers)
  {
    match e
    case WorkerStep(i, ok, error) => CoveredAfterWorker(s.stopping, s.shutdown, s.loop, s.workers, i, ok);
    case ShutdownStep(target) => CoveredAfterShutdown(s, target);
    case ControlTask(id, action, present) => CoveredAfterControl(s, id, action, present);
    case LoopStep(exit, now) => CoveredAfterLoop(s, exit, now);
    case AddTasks(names, host) => assert Append(s, names, host).shutdown == s.shutdown;
    case CallerStep(c) => assert CallerNext(s, c).shutdown == s.shutdown;
    case SetConcurrency(_) =>
    case BeginShutdown =>
    case Restart(_, _) =>
  }

  lemma CoveredAfterLoop(s: State, exit: bool, now: int)
    requires WellFormed(s) && LoopEnabled(s, exit) && ClientsCovered(s.shutdown, s.workers)
    ensures ClientsCovered(LoopNext(s, exit, now).shutdown, LoopNext(s, exit, now).workers)
  {
    if s.loop == TokenTaken {
      assert ClientsCovered(s.shutdown, Fill(s, now).workers);
    }
  }

  lemma CoveredAfterControl(s: State, id: string, action: Action, present: set<string>)
    requires WellFormed(s) && ClientsCovered(s.shutdown, s.workers)
    ensures ClientsCovered(ControlNext(s, id, action, present).shutdown, ControlNext(s, id, action, present).workers)
  {
    var e := Control(s.list, s.heap, id, action, present);
    assert ControlNext(s, id, action, present).workers == WorkersAfterCancel(s, id, e.cancelled.Some?);
  }

  lemma {:induction false} CoveredAlongRun(s: State, events: seq<Event>, s': State)
    requires Inv(s) && ClosersExact(s.heap, s.workers, s.closers) && ClientsCovered(s.shutdown, s.workers)
    requires Runs(s, events, s') && NeverOverwrites(s, events)
    ensures Inv(s') && ClosersExact(s'.heap, s'.workers, s'.closers) && ClientsCovered(s'.shutdown, s'.workers)
    decreases |events|
  {
    if events != [] {
      InvKept(s, events[0]);
      StepExactIff(s, events[0]);
      CoveredKept(s, events[0]);
      CoveredAlongRun(Next(s, events[0]), events[1..], s');
    }
  }

  /** Reachable from any file by a run in which no entry is overwritten. */
  ghost predicate CarefullyReachable(s: State) {
    exists disk: Disk, retained: set<string>, rewrite: bool, events: seq<Event> ::
      retained <= DiskIds(disk)
      && Runs(Load(disk, retained, rewrite), events, s) && NeverOverwrites(Load(disk, retained, rewrite), events)
  }

  lemma CarefulRun(disk: Disk, retained: set<string>, rewrite: bool, events: seq<Event>, s: State)
    requires Runs(Load(disk, retained, rewrite), events, s) && NeverOverwrites(Load(disk, retained, rewrite), events)
    ensures Inv(s) && ClosersExact(s.heap, s.workers, s.closers) && ClientsCovered(s.shutdown, s.workers)
  {
    InvAfterLoad(disk, retained, rewrite);
    CoveredAlongRun(Load(disk, retained, rewrite), events, s);
  }

  lemma CarefullyReachableInv(s: State)
    requires CarefullyReachable(s)
    ensures Inv(s) && ClosersExact(s.heap, s.workers, s.closers) && ClientsCovered(s.shutdown, s.workers)
  {
    var disk: Disk, retained: set<string>, rewrite: bool, events: seq<Event> :|
      retained <= DiskIds(disk)
      && Runs(Load(disk, retained, rewrite), events, s) && NeverOverwrites(Load(disk, retained, rewrite), events);
    CarefulRun(disk, retained, rewrite, events, s);
  }

  /** In a run in which no entry is overwritten, whatever the identifiers: once
      Shutdown has closed its snapshot, every client still open belongs to a worker
      that has not passed its context check, and that worker's next steps close it:
      the check cannot let it through any more. */
  lemma ShutdownMissesNoClient(s: State, i: nat, ok: bool)
    requires CarefullyReachable(s) && i < |s.workers| && s.workers[i].client == Open
    requires s.shutdown == Closing({}) || s.shutdown == AwaitingTasks || s.shutdown == Complete
    ensures s.workers[i].phase == Connected || s.workers[i].phase == Aborting
    ensures s.workers[i].phase == Connected ==> Advanced(s.workers[i], s.stopping, ok).phase == Aborting
    ensures s.workers[i].phase == Aborting ==> Advanced(s.workers[i], s.stopping, ok).client == Shut
  {
    assert ClientAccounted(s.workers[i]) && ShutdownPhases(s.stopping, s.shutdown, s.loop, s.workers)
           && ClientsCovered(s.shutdown, s.workers) by {
      CarefullyReachableInv(s);
    }
  }

  /* ---------- Clients that escape ---------- */

  /** A worker past its check, with an open client that activeClosers does not list. */
  ghost predicate Unlisted(s: State, j: nat) {
    j < |s.workers| && HoldsRegisteredClient(s.workers[j]) && j !in s.closers.Values
  }

  /** A run in which worker j takes no step, and that closes the whole snapshot. */
  ghost predicate Escapes(s: State, j: nat, events: seq<Event>, s': State) {
    && Runs(s, events, s') && SameProcess(events) && s'.shutdown == Closing({})
    && j < |s.workers| && j < |s'.workers| && s'.workers[j] == s.workers[j]
  }

  lemma EscapesCons(s: State, j: nat, e: Event, events: seq<Event>, s': State)
    requires WellFormed(s) && Enabled(s, e) && !e.Restart?
    requires j < |s.workers| && j < |Next(s, e).workers| && Next(s, e).workers[j] == s.workers[j]
    requires Escapes(Next(s, e), j, events, s')
    ensures Escapes(s, j, [e] + events, s')
  {
    RunsCons(s, e, events, s');
  }

  lemma CloseLeaves(s: State, j: nat, target: nat)
    requires WellFormed(s) && s.shutdown.Closing? && j < |s.workers|
    requires j !in s.shutdown.remaining && target in s.shutdown.remaining
    ensures var s' := ShutdownNext(s, target);
            && s'.shutdown == Closing(s.shutdown.remaining - {target})
            && j < |s'.workers| && s'.workers[j] == s.workers[j]
  {
  }

  lemma {:induction false} EscapesSnapshot(s: State, j: nat) returns (events: seq<Event>, s': State)
    requires Inv(s) && s.shutdown.Closing? && j < |s.workers| && j !in s.shutdown.remaining
    ensures Escapes(s, j, events, s')
    decreases |s.shutdown.remaining|
  {
    if s.shutdown.remaining == {} {
      events, s' := [], s;
    } else {
      var target :| target in s.shutdown.remaining;
      var e := ShutdownStep(target);
      InvKept(s, e);
      CloseLeaves(s, j, target);
      var rest;
      rest, s' := EscapesSnapshot(Next(s, e), j);
      EscapesCons(s, j, e, rest, s');
      events := [e] + rest;
    }
  }

  lemma EscapesAfterExit(s: State, j: nat) returns (events: seq<Event>, s': State)
    requires Inv(s) && s.shutdown == AwaitingLoop && s.loop == Exited && Unlisted(s, j)
    ensures Escapes(s, j, events, s')
  {
    var e := ShutdownStep(0);
    InvKept(s, e);
    assert Next(s, e).shutdown == Closing(s.closers.Values) && Next(s, e).workers == s.workers;
    var rest;
    rest, s' := EscapesSnapshot(Next(s, e), j);
    EscapesCons(s, j, e, rest, s');
    events := [e] + rest;
  }

  lemma EscapesExit(s: State, j: nat) returns (events: seq<Event>, s': State)
    requires Inv(s) && s.shutdown == AwaitingLoop && s.loop == Waiting && s.stopping && Unlisted(s, j)
    ensures Escapes(s, j, events, s')
  {
    var e := LoopStep(true, 0);
    InvKept(s, e);
    assert Next(s, e) == s.(loop := Exited);
    var rest;
    rest, s' := EscapesAfterExit(Next(s, e), j);
    EscapesCons(s, j, e, rest, s');
    events := [e] + rest;
  }

  lemma EscapesTrigger(s: State, j: nat) returns (events: seq<Event>, s': State)
    requires Inv(s) && s.shutdown == TriggerOwed && s.loop == Waiting && s.stopping && Unlisted(s, j)
    ensures Escapes(s, j, events, s')
  {
    var e := ShutdownStep(0);
    InvKept(s, e);
    assert Next(s, e) == s.(token := true, shutdown := AwaitingLoop);
    var rest;
    rest, s' := EscapesExit(Next(s, e), j);
    EscapesCons(s, j, e, rest, s');
    events := [e] + rest;
  }

  lemma EscapesBegin(s: State, j: nat) returns (events: seq<Event>, s': State)
    requires Inv(s) && s.shutdown == NotStarted && s.loop == Waiting && Unlisted(s, j)
    ensures Escapes(s, j, events, s')
  {
    var e := BeginShutdown;
    InvKept(s, e);
    assert Next(s, e) == s.(stopping := true, shutdown := TriggerOwed);
    var rest;
    rest, s' := EscapesTrigger(Next(s, e), j);
    EscapesCons(s, j, e, rest, s');
    events := [e] + rest;
  }

  lemma EscapesSave(s: State, j: nat) returns (events: seq<Event>, s': State)
    requires Inv(s) && s.shutdown == NotStarted && s.loop == SaveOwed && Unlisted(s, j)
    ensures Escapes(s, j, events, s')
  {
    var e := LoopStep(false, 0);
    InvKept(s, e);
    assert Next(s, e) == Save(s).(loop := Waiting);
    var rest;
    rest, s' := EscapesBegin(Next(s, e), j);
    EscapesCons(s, j, e, rest, s');
    events := [e] + rest;
  }

  lemma EscapesFill(s: State, j: nat) returns (events: seq<Event>, s': State)
    requires Inv(s) && s.shutdown == NotStarted && s.loop == TokenTaken && Unlisted(s, j)
    ensures Escapes(s, j, events, s')
  {
    var e := LoopStep(false, 0);
    InvKept(s, e);
    assert Next(s, e) == Fill(s, 0);
    var rest;
    rest, s' := EscapesSave(Next(s, e), j);
    EscapesCons(s, j, e, rest, s');
    events := [e] + rest;
  }

  /** From every reachable state without a shutdown, an open client of a worker past
      its check that activeClosers does not list can escape a shutdown: some run
      closes the whole snapshot while the worker goes on over its open client. */
  lemma UnlistedEscapes(s: State, j: nat) returns (events: seq<Event>, s': State)
    requires Reachable(s) && s.shutdown == NotStarted && Unlisted(s, j)
    ensures Escapes(s, j, events, s') && s'.workers[j].client == Open
  {
    ReachableInv(s);
    match s.loop
    case Waiting => events, s' := EscapesBegin(s, j);
    case TokenTaken => events, s' := EscapesFill(s, j);
    case SaveOwed => events, s' := EscapesSave(s, j);
  }
}
