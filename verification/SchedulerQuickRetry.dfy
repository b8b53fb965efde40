/** An upload that removal does not reach: a task fails, is retried, and its new
    worker registers before the old one has deleted its entry, which takes the new
    one's with it. */
module SchedulerQuickRetry {
  import opened Tasks
  import opened Scheduler
  import opened SchedulerSafety
  import opened SchedulerPromises
  import opened SchedulerCancels

  const FILE := Disk([Task("1", "a", "h", Pending, 0, 0, 0, None, "")], 2)

  /** One listed task, how far its workers and the dispatcher have come, and what
      activeCancels holds. */
  ghost predicate At(s: State, status: Status, workers: seq<Worker>, cancels: map<string, nat>, loop: Loop,
                     running: int) {
    && s.list == [0] && 0 in s.heap && s.heap[0].id == "1" && s.heap[0].fileName == "a" && s.heap[0].status == status
    && s.workers == workers && s.cancels == cancels && s.loop == loop && s.runningTasks == running
    && s.maxConcurrent == 2 && !s.stopping
  }

  function WorkerAt(p: Phase): Worker { Worker(0, p, false, NoClient, 0, false) }

  lemma Starts() returns (s: State)
    ensures Reachable(s) && At(s, Pending, [], map[], Waiting, 0) && s.token
  {
    var s0 := Load(FILE, {}, false);
    LoadIsReachable(FILE, {}, false);
    ReachableStep(s0, CallerStep(0));
    s := Next(s0, CallerStep(0));
  }

  lemma PicksIt(list: seq<nat>, heap: map<nat, Task>, running: int)
    requires list == [0] && 0 in heap && heap[0].status == Pending && running < 2
    ensures Picked(list, heap, running, 2) == [0]
  {
    assert list[1..] == [];
    assert PendingOf(list, heap) == [0];
  }

  /** The dispatcher takes the token and starts the task. */
  lemma Fills(s: State, workers: seq<Worker>, cancels: map<string, nat>, running: int) returns (s': State)
    requires Reachable(s) && At(s, Pending, workers, cancels, Waiting, running) && s.token && running < 2
    ensures Reachable(s') && At(s', Running, workers + [WorkerAt(Spawned)], cancels, SaveOwed, running + 1)
  {
    ReachableStep(s, LoopStep(false, 0));
    var s1 := Next(s, LoopStep(false, 0));
    ReachableStep(s1, LoopStep(false, 0));
    s' := Next(s1, LoopStep(false, 0));
    PicksIt(s1.list, s1.heap, running);
    FillsIt(s1, workers, cancels, running);
  }

  lemma FillsIt(s: State, workers: seq<Worker>, cancels: map<string, nat>, running: int)
    requires WellFormed(s) && At(s, Pending, workers, cancels, TokenTaken, running)
    requires Picked(s.list, s.heap, running, 2) == [0]
    ensures At(Fill(s, 0), Running, workers + [WorkerAt(Spawned)], cancels, SaveOwed, running + 1)
  {
    assert NewWorkers([0]) == [WorkerAt(Spawned)];
  }

  lemma Saves(s: State, status: Status, workers: seq<Worker>, cancels: map<string, nat>, running: int)
    returns (s': State)
    requires Reachable(s) && At(s, status, workers, cancels, SaveOwed, running)
    ensures Reachable(s') && At(s', status, workers, cancels, Waiting, running) && s'.token == s.token
  {
    ReachableStep(s, LoopStep(false, 0));
    s' := Next(s, LoopStep(false, 0));
  }

  function StatusAfter(status: Status, p: Phase): Status { if p == Returned then Failed else status }

  lemma MovesFields(s: State, status: Status, workers: seq<Worker>, cancels: map<string, nat>, loop: Loop,
                    running: int, i: nat)
    requires WellFormed(s) && At(s, status, workers, cancels, loop, running)
    requires i < |workers| && workers[i].task == 0
             && workers[i].phase in {Spawned, Preparing, Returned, Recorded, Saved, Triggered}
    requires !workers[i].ok
    ensures var s' := WorkerNext(s, i, false, "");
            && At(s', StatusAfter(status, workers[i].phase), workers[i := Advanced(workers[i], false, false)],
                  CancelsAfter(cancels, workers[i].phase, "1", i), loop, running)
            && s'.token == (s.token || workers[i].phase == Saved)
  {
  }

  lemma Moves(s: State, status: Status, workers: seq<Worker>, cancels: map<string, nat>, loop: Loop, running: int,
              i: nat)
    returns (s': State)
    requires Reachable(s) && At(s, status, workers, cancels, loop, running)
    requires i < |workers| && workers[i].task == 0
             && workers[i].phase in {Spawned, Preparing, Returned, Recorded, Saved, Triggered}
    requires !workers[i].ok
    ensures Reachable(s') && s'.token == (s.token || workers[i].phase == Saved)
    ensures At(s', StatusAfter(status, workers[i].phase), workers[i := Advanced(workers[i], false, false)],
               CancelsAfter(cancels, workers[i].phase, "1", i), loop, running)
  {
    ReachableStep(s, WorkerStep(i, false, ""));
    s' := WorkerNext(s, i, false, "");
    MovesFields(s, status, workers, cancels, loop, running, i);
  }

  /** activeCancels after the first worker has registered, and after the second. */
  function Once(): map<string, nat> { CancelsAfter(map[], Spawned, "1", 0) }
  function Twice(): map<string, nat> { CancelsAfter(Once(), Spawned, "1", 1) }

  /** A worker whose upload fails, as long as it is alone. */
  function Following(p: Phase): Phase {
    match p
    case Spawned => Preparing
    case Preparing => Returned
    case Returned => Recorded
    case Recorded => Saved
    case _ => Triggered
  }

  lemma AloneMoves(s: State, status: Status, p: Phase, cancels: map<string, nat>) returns (s': State)
    requires Reachable(s) && At(s, status, [WorkerAt(p)], cancels, Waiting, 1)
    requires p in {Spawned, Preparing, Returned, Recorded, Saved}
    ensures Reachable(s') && s'.token == (s.token || p == Saved)
    ensures At(s', StatusAfter(status, p), [WorkerAt(Following(p))], CancelsAfter(cancels, p, "1", 0), Waiting, 1)
  {
    AloneAdvances(p);
    s' := Moves(s, status, [WorkerAt(p)], cancels, Waiting, 1, 0);
  }

  lemma AloneAdvances(p: Phase)
    requires p in {Spawned, Preparing, Returned, Recorded, Saved}
    ensures [WorkerAt(p)][0 := Advanced(WorkerAt(p), false, false)] == [WorkerAt(Following(p))]
  {
  }

  /** From its registration to its trigger. */
  lemma AloneGoesOn(s: State, status: Status, p: Phase) returns (s': State)
    requires Reachable(s) && At(s, status, [WorkerAt(p)], Once(), Waiting, 1)
    requires p in {Preparing, Returned, Recorded, Saved} && (p in {Recorded, Saved} <==> status == Failed)
    ensures Reachable(s') && s'.token && At(s', Failed, [WorkerAt(Triggered)], Once(), Waiting, 1)
    decreases match p case Preparing => 3 case Returned => 2 case Recorded => 1 case _ => 0
  {
    s' := AloneMoves(s, status, p, Once());
    if p != Saved {
      s' := AloneGoesOn(s', StatusAfter(status, p), Following(p));
    }
  }

  lemma FirstSpawned() returns (s: State)
    ensures Reachable(s) && At(s, Running, [WorkerAt(Spawned)], map[], Waiting, 1)
  {
    s := Starts();
    s := Fills(s, [], map[], 0);
    assert [] + [WorkerAt(Spawned)] == [WorkerAt(Spawned)];
    s := Saves(s, Running, [WorkerAt(Spawned)], map[], 1);
  }

  lemma FirstTriggers() returns (s: State)
    ensures Reachable(s) && At(s, Failed, [WorkerAt(Triggered)], Once(), Waiting, 1) && s.token
  {
    s := FirstSpawned();
    s := AloneMoves(s, Running, Spawned, map[]);
    s := AloneGoesOn(s, Running, Preparing);
  }

  lemma RetriesFields(s: State, workers: seq<Worker>, cancels: map<string, nat>)
    requires WellFormed(s) && At(s, Failed, workers, cancels, Waiting, 1) && s.token
    ensures At(ControlNext(s, "1", Retry, {"a"}), Pending, workers, cancels, Waiting, 1)
    ensures ControlNext(s, "1", Retry, {"a"}).token
  {
    assert Position(s.list, s.heap, "1") == 0;
    var e := Control(s.list, s.heap, "1", Retry, {"a"});
    assert e.list == [0] && e.cancelled.None?;
  }

  lemma Retries() returns (s: State)
    ensures Reachable(s) && At(s, Pending, [WorkerAt(Triggered)], Once(), Waiting, 1) && s.token
  {
    var s0 := FirstTriggers();
    ReachableStep(s0, ControlTask("1", Retry, {"a"}));
    s := ControlNext(s0, "1", Retry, {"a"});
    RetriesFields(s0, [WorkerAt(Triggered)], Once());
  }

  function Pair(p0: Phase, p1: Phase): seq<Worker> { [WorkerAt(p0), WorkerAt(p1)] }

  /** The new worker has registered, and the old one is about to delete the entry. */
  lemma SecondPrepares() returns (s: State)
    ensures Reachable(s) && At(s, Running, Pair(Triggered, Preparing), Twice(), SaveOwed, 2)
  {
    s := Retries();
    s := Fills(s, [WorkerAt(Triggered)], Once(), 1);
    assert [WorkerAt(Triggered)] + [WorkerAt(Spawned)] == Pair(Triggered, Spawned);
    s := Moves(s, Running, Pair(Triggered, Spawned), Once(), SaveOwed, 2, 1);
    assert Pair(Triggered, Spawned)[1 := WorkerAt(Preparing)] == Pair(Triggered, Preparing);
  }

  /** A listed task is Running, its worker has registered and works on it, and
      removing the task does not cancel it. */
  lemma QuickRetryLosesCancel(present: set<string>) returns (s: State)
    ensures Reachable(s) && WellFormed(s) && FindsRunning(s, "1")
    ensures |s.workers| == 2 && Active(s.workers[1]) && s.workers[1].phase == Preparing
    ensures s.workers[1].task == s.list[Position(s.list, s.heap, "1")] == 0
    ensures var s' := ControlNext(s, "1", Remove, present); |s'.workers| == 2 && !s'.workers[1].cancelled
  {
    var s0 := SecondPrepares();
    s := Moves(s0, Running, Pair(Triggered, Preparing), Twice(), SaveOwed, 2, 0);
    ReachableInv(s);
    assert Position(s.list, s.heap, "1") == 0;
    assert s.workers[1] == WorkerAt(Preparing);
    assert "1" !in s.cancels;
    RemoveCancelsEntry(s, "1", present, 1);
  }
}
