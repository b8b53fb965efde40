/** A client that escapes Shutdown: from a file that lists an identifier twice, two
    workers come to upload under it, and only the second is in activeClosers. */
module SchedulerOverwrite {
  import opened Tasks
  import opened Scheduler
  import opened SchedulerPromises
  import opened SchedulerClosers

  function Twin(name: string): Task { Task("1", name, "h", Pending, 0, 0, 0, None, "") }

  const TWINS := Disk([Twin("a"), Twin("b")], 2)

  /** The two tasks are there, and this is how far everyone has come. */
  ghost predicate At(s: State, workers: seq<Worker>, closers: map<string, nat>, loop: Loop, shutdown: ShutdownPhase) {
    && 0 in s.heap && 1 in s.heap && s.heap[0].id == s.heap[1].id == "1"
    && s.workers == workers && s.closers == closers && s.loop == loop && s.shutdown == shutdown
    && s.stopping == (shutdown != NotStarted)
  }

  /** activeClosers after the first worker has registered, and after both. */
  function Once(): map<string, nat> { ClosersAfter(map[], Connected, Uploading, "1", 0) }
  function Twice(): map<string, nat> { ClosersAfter(Once(), Connected, Uploading, "1", 1) }

  function WorkerAt(r: nat, p: Phase): Worker {
    Worker(r, p, false, if p == Connected || p == Uploading then Open else NoClient, 0, false)
  }

  ghost predicate Loaded(s: State) {
    && s.heap == LoadedHeap(TWINS.tasks) && s.list == [0, 1] && s.runningTasks == 0 && s.maxConcurrent == 2
    && s.workers == [] && s.closers == map[] && s.shutdown == NotStarted && !s.stopping
  }

  lemma Loads() returns (s: State)
    ensures Reachable(s) && Loaded(s) && s.loop == Waiting && s.callers == [Caller(false, 1)]
  {
    s := Load(TWINS, {}, false);
    LoadIsReachable(TWINS, {}, false);
  }

  lemma Wakes(s: State) returns (s': State)
    requires Reachable(s) && Loaded(s) && s.loop == Waiting && s.callers == [Caller(false, 1)]
    ensures Reachable(s') && Loaded(s') && s'.loop == TokenTaken
  {
    ReachableStep(s, CallerStep(0));
    var s1 := Next(s, CallerStep(0));
    assert s1 == CallerNext(s, 0) && s1.token;
    ReachableStep(s1, LoopStep(false, 0));
    s' := Next(s1, LoopStep(false, 0));
  }

  lemma Fills(s: State) returns (s': State)
    requires Reachable(s) && Loaded(s) && s.loop == TokenTaken
    ensures Reachable(s') && At(s', Pair(Spawned, Spawned), map[], SaveOwed, NotStarted)
  {
    ReachableStep(s, LoopStep(false, 0));
    s' := Next(s, LoopStep(false, 0));
    PicksTwins(s.list, s.heap);
    FillsTwins(s);
  }

  lemma FillsTwins(s: State)
    requires WellFormed(s) && Loaded(s) && Picked(s.list, s.heap, 0, 2) == [0, 1]
    ensures At(Fill(s, 0), Pair(Spawned, Spawned), map[], SaveOwed, NotStarted)
  {
    assert NewWorkers([0, 1]) == Pair(Spawned, Spawned);
  }

  lemma PicksTwins(list: seq<nat>, heap: map<nat, Task>)
    requires list == [0, 1] && heap == LoadedHeap(TWINS.tasks) && Covers(heap, list)
    ensures Picked(list, heap, 0, 2) == [0, 1]
  {
    assert list[1..] == [1] && list[1..][1..] == [];
    assert PendingOf(list[1..], heap) == [1];
    assert PendingOf(list, heap) == [0] + [1];
  }

  lemma MovesFields(s: State, workers: seq<Worker>, closers: map<string, nat>, i: nat)
    requires WellFormed(s) && At(s, workers, closers, SaveOwed, NotStarted)
    requires i < |workers| && workers[i].task == i <= 1 && workers[i].phase in {Spawned, Preparing, Connected}
    ensures var w' := Advanced(workers[i], false, true);
            At(WorkerNext(s, i, true, ""), workers[i := w'],
              ClosersAfter(closers, workers[i].phase, w'.phase, "1", i), SaveOwed, NotStarted)
  {
  }

  lemma Moves(s: State, workers: seq<Worker>, closers: map<string, nat>, i: nat) returns (s': State)
    requires Reachable(s) && At(s, workers, closers, SaveOwed, NotStarted)
    requires i < |workers| && workers[i].task == i <= 1 && workers[i].phase in {Spawned, Preparing, Connected}
    ensures var w' := Advanced(workers[i], false, true);
            Reachable(s') && At(s', workers[i := w'], ClosersAfter(closers, workers[i].phase, w'.phase, "1", i),
              SaveOwed, NotStarted)
  {
    ReachableStep(s, WorkerStep(i, true, ""));
    s' := WorkerNext(s, i, true, "");
    MovesFields(s, workers, closers, i);
  }

  function Pair(p0: Phase, p1: Phase): seq<Worker> { [WorkerAt(0, p0), WorkerAt(1, p1)] }

  lemma FirstMoves(s: State, p0: Phase, p1: Phase, closers: map<string, nat>) returns (s': State)
    requires Reachable(s) && At(s, Pair(p0, p1), closers, SaveOwed, NotStarted) && p0 in {Spawned, Preparing, Connected}
    ensures var p := Advanced(WorkerAt(0, p0), false, true).phase;
            Reachable(s') && At(s', Pair(p, p1), ClosersAfter(closers, p0, p, "1", 0), SaveOwed, NotStarted)
  {
    PairMoves(p0, p1);
    s' := Moves(s, Pair(p0, p1), closers, 0);
  }

  lemma SecondMoves(s: State, p0: Phase, p1: Phase, closers: map<string, nat>) returns (s': State)
    requires Reachable(s) && At(s, Pair(p0, p1), closers, SaveOwed, NotStarted) && p1 in {Spawned, Preparing, Connected}
    ensures var p := Advanced(WorkerAt(1, p1), false, true).phase;
            Reachable(s') && At(s', Pair(p0, p), ClosersAfter(closers, p1, p, "1", 1), SaveOwed, NotStarted)
  {
    PairMoves(p0, p1);
    s' := Moves(s, Pair(p0, p1), closers, 1);
  }

  lemma PairMoves(p0: Phase, p1: Phase)
    ensures p0 in {Spawned, Preparing, Connected} ==>
              Pair(p0, p1)[0 := Advanced(WorkerAt(0, p0), false, true)]
                == Pair(Advanced(WorkerAt(0, p0), false, true).phase, p1)
    ensures p1 in {Spawned, Preparing, Connected} ==>
              Pair(p0, p1)[1 := Advanced(WorkerAt(1, p1), false, true)]
                == Pair(p0, Advanced(WorkerAt(1, p1), false, true).phase)
  {
  }

  lemma OneValue()
    ensures Twice().Values == {1}
  {
    assert "1" in Twice();
  }

  lemma BothSpawned() returns (s: State)
    ensures Reachable(s) && At(s, Pair(Spawned, Spawned), map[], SaveOwed, NotStarted)
  {
    s := Loads();
    s := Wakes(s);
    s := Fills(s);
  }

  lemma FirstConnects() returns (s: State)
    ensures Reachable(s) && At(s, Pair(Connected, Spawned), map[], SaveOwed, NotStarted)
  {
    s := BothSpawned();
    s := FirstMoves(s, Spawned, Spawned, map[]);
    s := FirstMoves(s, Preparing, Spawned, map[]);
  }

  lemma FirstUploads() returns (s: State)
    ensures Reachable(s) && At(s, Pair(Uploading, Spawned), Once(), SaveOwed, NotStarted)
  {
    s := FirstConnects();
    s := FirstMoves(s, Connected, Spawned, map[]);
  }

  lemma SecondPrepares() returns (s: State)
    ensures Reachable(s) && At(s, Pair(Uploading, Preparing), Once(), SaveOwed, NotStarted)
  {
    s := FirstUploads();
    s := SecondMoves(s, Uploading, Spawned, Once());
  }

  lemma SecondConnects() returns (s: State)
    ensures Reachable(s) && At(s, Pair(Uploading, Connected), Once(), SaveOwed, NotStarted)
  {
    s := SecondPrepares();
    s := SecondMoves(s, Uploading, Preparing, Once());
  }

  lemma BothUpload() returns (s: State)
    ensures Reachable(s) && At(s, Pair(Uploading, Uploading), Twice(), SaveOwed, NotStarted)
  {
    s := SecondConnects();
    s := SecondMoves(s, Uploading, Connected, Once());
  }

  /** Shutdown has closed its whole snapshot, and a worker that passed its context
      check goes on uploading over an open client. */
  lemma RepeatedIdHidesClient() returns (s: State)
    ensures Reachable(s) && s.shutdown == Closing({})
    ensures |s.workers| > 0 && s.workers[0].phase == Uploading && s.workers[0].client == Open
  {
    var s0 := BothUpload();
    OneValue();
    var events;
    events, s := UnlistedEscapes(s0, 0);
    ReachableAfter(s0, events, s);
  }
}
