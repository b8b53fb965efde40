/** Runs in which every batch of AddTasks is new: exactly those in which no
    identifier comes twice. In them no entry of activeClosers is overwritten. */
module SchedulerFreshness {
  import opened Tasks
  import opened Scheduler
  import opened SchedulerSafety
  import opened SchedulerRuns
  import opened SchedulerPromises
  import opened SchedulerClosers
  import opened SchedulerIdentity
  import TaskIds

  /* ---------- The invariant ---------- */

  ghost predicate IdInv(s: State) { UniqueIds(s.heap) && DistinctIds(s.disk.tasks) }

  lemma SnapshotDistinct(heap: map<nat, Task>, list: seq<nat>)
    requires Covers(heap, list) && Distinct(list) && UniqueIds(heap)
    ensures DistinctIds(Snapshot(heap, list))
  {
  }

  lemma UniqueFrame(heap: map<nat, Task>, heap': map<nat, Task>)
    requires UniqueIds(heap) && heap'.Keys == heap.Keys && forall r :: r in heap ==> heap'[r].id == heap[r].id
    ensures UniqueIds(heap')
  {
    forall r | r in heap' ensures r in heap {
      assert r in heap'.Keys;
    }
  }

  ghost predicate DiskKeptOrSaved(s: State, s': State)
    requires Covers(s'.heap, s'.list)
  {
    s'.disk.tasks == s.disk.tasks || s'.disk.tasks == Snapshot(s'.heap, s'.list)
  }

  ghost predicate SameNames(heap: map<nat, Task>, heap': map<nat, Task>) {
    heap'.Keys == heap.Keys && forall r :: r in heap ==> heap'[r].id == heap[r].id
  }

  /** Steps that make no record. */
  lemma IdFrame(s: State, s': State)
    requires WellFormed(s) && IdInv(s) && WellFormed(s') && SameNames(s.heap, s'.heap) && DiskKeptOrSaved(s, s')
    ensures IdInv(s')
  {
    UniqueFrame(s.heap, s'.heap);
    SnapshotDistinct(s'.heap, s'.list);
  }

  /** A batch that meets neither a record's identifier nor a retained one. */
  ghost predicate FreshBatch(s: State, n: nat) {
    && BatchMeetsNone(s.nextId, n, s.heap)
    && forall id :: id in s.retained ==> !TaskIds.Collides(s.nextId, n, id)
  }

  ghost predicate FreshStep(s: State, e: Event) { e.AddTasks? ==> FreshBatch(s, |e.names|) }

  lemma IdInvAfterAdd(s: State, names: seq<string>, host: string)
    requires WellFormed(s) && IdInv(s) && FreshBatch(s, |names|)
    requires WellFormed(Next(s, AddTasks(names, host)))
    ensures IdInv(Next(s, AddTasks(names, host)))
  {
    AppendStaysUniqueIff(s, names, host);
  }

  lemma IdInvAfterControl(s: State, id: string, action: Action, present: set<string>)
    requires WellFormed(s) && IdInv(s) && WellFormed(ControlNext(s, id, action, present))
    ensures IdInv(ControlNext(s, id, action, present))
  {
    ControlKeepsRecords(s, id, action, present);
    IdFrame(s, ControlNext(s, id, action, present));
  }

  lemma IdInvAfterCaller(s: State, c: nat)
    requires WellFormed(s) && IdInv(s) && Enabled(s, CallerStep(c)) && WellFormed(CallerNext(s, c))
    ensures IdInv(CallerNext(s, c))
  {
    IdFrame(s, CallerNext(s, c));
  }

  lemma IdInvAfterLoop(s: State, exit: bool, now: int)
    requires WellFormed(s) && IdInv(s) && LoopEnabled(s, exit) && WellFormed(LoopNext(s, exit, now))
    ensures IdInv(LoopNext(s, exit, now))
  {
    IdFrame(s, LoopNext(s, exit, now));
  }

  lemma IdInvAfterWorker(s: State, i: nat, ok: bool, error: string)
    requires WellFormed(s) && IdInv(s) && i < |s.workers| && WellFormed(WorkerNext(s, i, ok, error))
    ensures IdInv(WorkerNext(s, i, ok, error))
  {
    IdFrame(s, WorkerNext(s, i, ok, error));
  }

  lemma IdInvAfterLoad(disk: Disk, retained: set<string>, rewrite: bool)
    requires DistinctIds(disk.tasks)
    ensures IdInv(Load(disk, retained, rewrite))
  {
    var s := Load(disk, retained, rewrite);
    LoadedUnique(disk.tasks);
    assert WellFormed(s) by { WellFormedLoad(disk, retained, rewrite); }
    SnapshotDistinct(s.heap, s.list);
  }

  lemma LoadedUnique(tasks: seq<Task>)
    requires DistinctIds(tasks)
    ensures UniqueIds(LoadedHeap(tasks))
  {
    forall p, q | p in LoadedHeap(tasks) && q in LoadedHeap(tasks) && p != q
      ensures LoadedHeap(tasks)[p].id != LoadedHeap(tasks)[q].id
    {
      assert IdsOf(tasks)[if p < q then p else q] != IdsOf(tasks)[if p < q then q else p];
    }
  }

  /** Every step keeps it, AddTasks if its batch is fresh. */
  lemma IdInvKept(s: State, e: Event)
    requires Inv(s) && IdInv(s) && Enabled(s, e) && FreshStep(s, e)
    ensures IdInv(Next(s, e))
  {
    assert WellFormed(Next(s, e)) by { InvKept(s, e); }
    match e
    case AddTasks(names, host) => IdInvAfterAdd(s, names, host);
    case ControlTask(id, action, present) => IdInvAfterControl(s, id, action, present);
    case LoopStep(exit, now) => IdInvAfterLoop(s, exit, now);
    case WorkerStep(i, ok, error) => IdInvAfterWorker(s, i, ok, error);
    case ShutdownStep(target) => IdFrame(s, ShutdownNext(s, target));
    case CallerStep(c) => IdInvAfterCaller(s, c);
    case SetConcurrency(_) =>
    case BeginShutdown =>
    case Restart(retained, rewrite) => IdInvAfterLoad(s.disk, retained, rewrite);
  }

  /* ---------- Fresh runs ---------- */

  ghost predicate AllFresh(s: State, events: seq<Event>)
    decreases |events|
  {
    events != [] ==>
      && WellFormed(s) && Enabled(s, events[0]) && FreshStep(s, events[0])
      && AllFresh(Next(s, events[0]), events[1..])
  }

  lemma {:induction false} IdInvAlongRun(s: State, events: seq<Event>, s': State)
    requires Inv(s) && IdInv(s) && Runs(s, events, s') && AllFresh(s, events)
    ensures Inv(s') && IdInv(s')
    decreases |events|
  {
    if events != [] {
      InvKept(s, events[0]);
      IdInvKept(s, events[0]);
      IdInvAlongRun(Next(s, events[0]), events[1..], s');
    }
  }

  /** Reachable from a file that lists no identifier twice, by fresh batches. */
  ghost predicate FreshlyReachable(s: State) {
    exists disk: Disk, retained: set<string>, rewrite: bool, events: seq<Event> ::
      DistinctIds(disk.tasks) && retained <= DiskIds(disk)
      && Runs(Load(disk, retained, rewrite), events, s) && AllFresh(Load(disk, retained, rewrite), events)
  }

  lemma FreshlyReachableInv(s: State)
    requires FreshlyReachable(s)
    ensures Inv(s) && IdInv(s)
  {
    var disk: Disk, retained: set<string>, rewrite: bool, events: seq<Event> :|
      DistinctIds(disk.tasks) && retained <= DiskIds(disk)
      && Runs(Load(disk, retained, rewrite), events, s) && AllFresh(Load(disk, retained, rewrite), events);
    InvAfterLoad(disk, retained, rewrite);
    IdInvAfterLoad(disk, retained, rewrite);
    IdInvAlongRun(Load(disk, retained, rewrite), events, s);
  }

  /** No two listed tasks share an identifier, in memory and on disk. */
  lemma ListedIdsDistinct(s: State)
    requires FreshlyReachable(s)
    ensures Covers(s.heap, s.list) && TaskIds.NoRepeats(ListedIds(s.heap, s.list)) && DistinctIds(s.disk.tasks)
  {
    FreshlyReachableInv(s);
  }

  /** What a process added since has no retained credential's identifier. */
  ghost predicate NewNotRetained(s: State, s': State) {
    forall q :: q in s'.heap && q !in s.heap ==> s'.heap[q].id !in s.retained
  }

  lemma NewIdIsIssued(heap: map<nat, Task>, heap': map<nat, Task>, counter: nat, from: nat, n: nat, q: nat)
    requires counter <= TaskIds.MAX_UINT64 && Extended(heap, heap', counter, from, n) && q in heap' && q !in heap
    ensures TaskIds.Collides(counter, n, heap'[q].id)
  {
    TaskIds.IssuedCollides(counter, n, q - from + 1);
  }

  lemma CollidingIdIsNew(heap: map<nat, Task>, heap': map<nat, Task>, counter: nat, from: nat, n: nat, id: string)
    returns (q: nat)
    requires counter <= TaskIds.MAX_UINT64 && Extended(heap, heap', counter, from, n)
    requires TaskIds.Collides(counter, n, id)
    ensures q in heap' && q !in heap && heap'[q].id == id
  {
    var k := TaskIds.CollidingIsIssued(counter, n, id);
    q := from + k - 1;
  }

  lemma BatchNotRetainedIff(s: State, names: seq<string>, host: string)
    requires WellFormed(s)
    ensures NewNotRetained(s, Append(s, names, host)) <==>
              forall id :: id in s.retained ==> !TaskIds.Collides(s.nextId, |names|, id)
  {
    var heap' := Append(s, names, host).heap;
    AppendExtended(s, names, host);
    if id :| id in s.retained && TaskIds.Collides(s.nextId, |names|, id) {
      var q := CollidingIdIsNew(s.heap, heap', s.nextId, s.nextRef, |names|, id);
    } else {
      forall q | q in heap' && q !in s.heap ensures heap'[q].id !in s.retained {
        NewIdIsIssued(s.heap, heap', s.nextId, s.nextRef, |names|, q);
      }
    }
  }

  lemma StepFreshIff(s: State, e: Event)
    requires WellFormed(s) && UniqueIds(s.heap) && Enabled(s, e) && !e.Restart?
    ensures UniqueIds(Next(s, e).heap) && NewNotRetained(s, Next(s, e)) <==> FreshStep(s, e)
  {
    if e.AddTasks? {
      AppendStaysUniqueIff(s, e.names, e.host);
      BatchNotRetainedIff(s, e.names, e.host);
    } else {
      GrowsOneStep(s, e);
      OnlyAddTasksMakesRecords(s, e);
      UniqueFrame(s.heap, Next(s, e).heap);
      forall q | q in Next(s, e).heap ensures q in s.heap {
        assert q in Next(s, e).heap.Keys;
      }
    }
  }

  /** Distinctness, once lost in a process, does not come back. */
  lemma UniqueBefore(s: State, s': State)
    requires Grows(s, s') && UniqueIds(s'.heap)
    ensures UniqueIds(s.heap)
  {
  }

  lemma NewNotRetainedJoins(s: State, s1: State, s': State)
    requires Grows(s, s1) && Grows(s1, s')
    ensures NewNotRetained(s, s') <==> NewNotRetained(s, s1) && NewNotRetained(s1, s')
  {
    if NewNotRetained(s, s') {
      forall q | q in s1.heap && q !in s.heap ensures s1.heap[q].id !in s.retained {
        assert q in s'.heap && s'.heap[q].id == s1.heap[q].id;
      }
      forall q | q in s'.heap && q !in s1.heap ensures s'.heap[q].id !in s1.retained {
        assert q !in s.heap;
      }
    }
  }

  /** Over any run of one process, identifiers stay distinct and new ones avoid the
      retained credentials, exactly if every batch was fresh where it was added. */
  lemma {:induction false} IdsStayFreshIff(s: State, events: seq<Event>, s': State)
    requires Inv(s) && UniqueIds(s.heap) && Runs(s, events, s') && SameProcess(events)
    ensures UniqueIds(s'.heap) && NewNotRetained(s, s') <==> AllFresh(s, events)
    decreases |events|
  {
    if events != [] {
      var s1 := Next(s, events[0]);
      InvKept(s, events[0]);
      assert !events[0].Restart?;
      GrowsOneStep(s, events[0]);
      GrowsAlongRun(s1, events[1..], s');
      StepFreshIff(s, events[0]);
      NewNotRetainedJoins(s, s1, s');
      if UniqueIds(s1.heap) {
        IdsStayFreshIff(s1, events[1..], s');
      } else if UniqueIds(s'.heap) {
        UniqueBefore(s1, s');
      }
    }
  }

  /** Fresh identities: in one process of fresh batches, whatever happens in
      between, a removed identifier is never listed again, and a task added later
      has an identifier that no earlier task and no retained credential has. */
  lemma IdsNeverReused(s: State, events: seq<Event>, s': State)
    requires FreshlyReachable(s) && Runs(s, events, s') && SameProcess(events) && AllFresh(s, events)
    ensures forall r, q :: r in s.heap && r !in s.list && q in s'.list ==> q in s'.heap && s'.heap[q].id != s.heap[r].id
    ensures forall q :: q in s'.heap && q !in s.heap ==> s'.heap[q].id !in s.retained
    ensures forall q, r :: q in s'.heap && q !in s.heap && r in s.heap ==> s'.heap[q].id != s.heap[r].id
  {
    assert Inv(s) && UniqueIds(s.heap) by { FreshlyReachableInv(s); }
    GrowsAlongRun(s, events, s');
    IdsStayFreshIff(s, events, s');
  }

  /* ---------- Runs without a wrap are fresh ---------- */

  /** Nothing the process knows is above the counter, as after every load. */
  ghost predicate BelowCounter(s: State) {
    && (forall r :: r in s.heap ==> TaskIds.Parse(s.heap[r].id) <= s.nextId)
    && (forall id :: id in s.retained ==> TaskIds.Parse(id) <= s.nextId)
  }

  ghost predicate NoWrap(s: State, events: seq<Event>)
    decreases |events|
  {
    events != [] ==>
      && WellFormed(s) && Enabled(s, events[0])
      && (events[0].AddTasks? ==> s.nextId + |events[0].names| <= TaskIds.MAX_UINT64)
      && NoWrap(Next(s, events[0]), events[1..])
  }

  lemma BelowAfterAdd(s: State, names: seq<string>, host: string)
    requires WellFormed(s) && BelowCounter(s) && s.nextId + |names| <= TaskIds.MAX_UINT64
    ensures FreshBatch(s, |names|) && BelowCounter(Append(s, names, host))
  {
    var s' := Append(s, names, host);
    AppendExtended(s, names, host);
    AppendAdvances(s, names, host);
    TaskIds.AdvanceWithoutWrap(s.nextId, |names|);
    forall r | r in s.heap ensures !TaskIds.Collides(s.nextId, |names|, s.heap[r].id) {
      TaskIds.OldIsOutOfReach(s.nextId, |names|, s.heap[r].id);
    }
    forall id | id in s.retained ensures !TaskIds.Collides(s.nextId, |names|, id) {
      TaskIds.OldIsOutOfReach(s.nextId, |names|, id);
    }
    forall r | r in s'.heap ensures TaskIds.Parse(s'.heap[r].id) <= s'.nextId {
      if r !in s.heap {
        TaskIds.AdvanceWithoutWrap(s.nextId, r - s.nextRef + 1);
        TaskIds.ParseFormat(s.nextId + (r - s.nextRef + 1));
      }
    }
  }

  /** The counter is loaded as the largest number that an identifier stands for. */
  lemma {:induction false} CounterIsHighest(tasks: seq<Task>)
    ensures forall t :: t in tasks ==> TaskIds.Parse(t.id) <= HighestId(tasks)
    ensures HighestId(tasks) == 0 || exists t :: t in tasks && TaskIds.Parse(t.id) == HighestId(tasks)
  {
    if tasks != [] {
      var n := |tasks| - 1;
      CounterIsHighest(tasks[..n]);
      assert tasks[n] in tasks && forall t :: t in tasks[..n] ==> t in tasks;
    }
  }

  lemma LoadedCounter(disk: Disk, retained: set<string>, rewrite: bool)
    ensures var next := Load(disk, retained, rewrite).nextId;
            && (forall t :: t in disk.tasks ==> TaskIds.Parse(t.id) <= next)
            && (next == 0 || exists t :: t in disk.tasks && TaskIds.Parse(t.id) == next)
  {
    CounterIsHighest(disk.tasks);
  }

  lemma BelowAfterLoad(disk: Disk, retained: set<string>, rewrite: bool)
    requires retained <= DiskIds(disk)
    ensures BelowCounter(Load(disk, retained, rewrite))
  {
  }

  lemma BelowKept(s: State, e: Event)
    requires WellFormed(s) && BelowCounter(s) && Enabled(s, e)
    requires e.AddTasks? ==> s.nextId + |e.names| <= TaskIds.MAX_UINT64
    ensures FreshStep(s, e) && BelowCounter(Next(s, e))
  {
    if e.AddTasks? {
      BelowAfterAdd(s, e.names, e.host);
    } else if e.Restart? {
      BelowAfterLoad(s.disk, e.retained, e.rewrite);
    } else {
      GrowsOneStep(s, e);
      OnlyAddTasksMakesRecords(s, e);
      CounterKept(s, e);
      forall r | r in Next(s, e).heap ensures TaskIds.Parse(Next(s, e).heap[r].id) <= s.nextId {
        assert r in Next(s, e).heap.Keys;
      }
    }
  }

  lemma CounterKept(s: State, e: Event)
    requires WellFormed(s) && Enabled(s, e) && !e.AddTasks? && !e.Restart?
    ensures Next(s, e).nextId == s.nextId
  {
    match e
    case LoopStep(exit, now) => assert Fill(s, now).nextId == s.nextId;
    case _ =>
  }

  /** From any load, over any number of restarts: as long as the 64-bit counter
      does not wrap, every batch is fresh. */
  lemma {:induction false} NoWrapIsFresh(s: State, events: seq<Event>, s': State)
    requires Inv(s) && BelowCounter(s) && Runs(s, events, s') && NoWrap(s, events)
    ensures AllFresh(s, events) && BelowCounter(s')
    decreases |events|
  {
    if events != [] {
      InvKept(s, events[0]);
      BelowKept(s, events[0]);
      NoWrapIsFresh(Next(s, events[0]), events[1..], s');
    }
  }

  lemma LoadedRunsAreFresh(disk: Disk, retained: set<string>, rewrite: bool, events: seq<Event>, s: State)
    requires DistinctIds(disk.tasks) && retained <= DiskIds(disk)
    requires Runs(Load(disk, retained, rewrite), events, s) && NoWrap(Load(disk, retained, rewrite), events)
    ensures FreshlyReachable(s)
  {
    InvAfterLoad(disk, retained, rewrite);
    BelowAfterLoad(disk, retained, rewrite);
    NoWrapIsFresh(Load(disk, retained, rewrite), events, s);
  }

  /* ---------- Fresh runs overwrite no closer ---------- */

  lemma UniqueDoesNotOverwrite(s: State, e: Event)
    requires Inv(s) && UniqueIds(s.heap) && ClosersExact(s.heap, s.workers, s.closers)
    ensures !Overwrites(s, e)
  {
    if Overwrites(s, e) {
      var j := s.closers[s.heap[s.workers[e.worker].task].id];
      ActiveWorkersDiffer(s.heap, s.workers, e.worker, j);
      assert false;
    }
  }

  lemma {:induction false} FreshNeverOverwrites(s: State, events: seq<Event>, s': State)
    requires Inv(s) && IdInv(s) && ClosersExact(s.heap, s.workers, s.closers) && Runs(s, events, s')
             && AllFresh(s, events)
    ensures NeverOverwrites(s, events)
    decreases |events|
  {
    if events != [] {
      UniqueDoesNotOverwrite(s, events[0]);
      InvKept(s, events[0]);
      IdInvKept(s, events[0]);
      StepExactIff(s, events[0]);
      FreshNeverOverwrites(Next(s, events[0]), events[1..], s');
    }
  }

  /** So where no identifier comes twice, Shutdown misses no client. */
  lemma FreshIsCareful(s: State)
    requires FreshlyReachable(s)
    ensures CarefullyReachable(s)
  {
    var disk: Disk, retained: set<string>, rewrite: bool, events: seq<Event> :|
      DistinctIds(disk.tasks) && retained <= DiskIds(disk)
      && Runs(Load(disk, retained, rewrite), events, s) && AllFresh(Load(disk, retained, rewrite), events);
    InvAfterLoad(disk, retained, rewrite);
    IdInvAfterLoad(disk, retained, rewrite);
    FreshNeverOverwrites(Load(disk, retained, rewrite), events, s);
  }
}
