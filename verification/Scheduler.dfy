/** The queue manager as a concurrent step system: one dispatcher (processLoop),
    any number of workers (runTask), API callers and one Shutdown, interleaved
    at the granularity of their lock-held sections, channel operations and
    saves, together with crashes and restarts from the state file.

    Task records are never forgotten: a removed task stays in the heap, because
    a worker may still hold it. */
module Scheduler {
  import opened Tasks
  import TaskIds

  /** The phases of a worker, in order. Aborting is the side branch taken when
      the context is found cancelled after connecting. */
  datatype Phase =
    | Spawned       // started by the dispatcher
    | Preparing     // its cancel function is registered; validating and connecting
    | Connected     // connected, context not yet checked under the lock
    | Aborting      // context was cancelled, owes closing its client
    | Uploading     // closer registered, transfer under way
    | Uploaded      // transfer returned, owes closing its client
    | Closed        // owes deleting its closer
    | Returned      // owes recording the outcome
    | Recorded      // owes a save
    | Saved         // owes a trigger
    | Triggered     // owes deleting its cancel function
    | Unregistered  // owes decrementing runningTasks
    | Decremented   // owes a trigger
    | Signalled     // owes taskWG.Done
    | Finished

  datatype Connection = NoClient | Open | Shut

  /** `cancelled` is the worker's own context; `closes` counts how often its
      client was really closed; `ok` is the result of the upload. */
  datatype Worker = Worker(task: nat, phase: Phase, cancelled: bool, client: Connection, closes: nat, ok: bool)

  /** An API call after its lock-held section: whether it still has to save, and
      how many triggers it still has to send. */
  datatype Caller = Caller(saveOwed: bool, triggersOwed: nat)

  datatype Loop = Waiting | TokenTaken | SaveOwed | Exited

  datatype ShutdownPhase =
    | NotStarted
    | TriggerOwed
    | AwaitingLoop
    | Closing(remaining: set<nat>)
    | AwaitingTasks
    | Complete

  /** The state file. `maxConcurrent` is 0 in files without that field. */
  datatype Disk = Disk(tasks: seq<Task>, maxConcurrent: int)

  /** `peak` is the largest maxConcurrent of this process so far; `stale` says
      that the state file is still the one this process loaded and lists a
      Running task. Neither is read by any step. */
  datatype State = State(
    heap: map<nat, Task>,
    nextRef: nat,
    list: seq<nat>,
    nextId: nat,
    retained: set<string>,
    maxConcurrent: int,
    peak: int,
    runningTasks: int,
    token: bool,
    loop: Loop,
    workers: seq<Worker>,
    callers: seq<Caller>,
    cancels: map<string, nat>,
    closers: map<string, nat>,
    stopping: bool,
    shutdown: ShutdownPhase,
    disk: Disk,
    stale: bool)

  datatype Event =
    | AddTasks(names: seq<string>, host: string)
    | SetConcurrency(files: int)
    | ControlTask(id: string, action: Action, present: set<string>)
    | CallerStep(caller: nat)
    | LoopStep(exit: bool, now: int)
    | WorkerStep(worker: nat, ok: bool, error: string)
    | BeginShutdown
    | ShutdownStep(target: nat)
    | Restart(retained: set<string>, rewrite: bool)

  /** The events the system produces by itself; the others come from outside. */
  predicate Internal(e: Event) { e.CallerStep? || e.LoopStep? || e.WorkerStep? || e.ShutdownStep? }

  /* ---------- Well-formedness of references ---------- */

  ghost predicate WellFormed(s: State) {
    && (forall r :: r in s.heap ==> r < s.nextRef)
    && Covers(s.heap, s.list)
    && Distinct(s.list)
    && (forall i :: 0 <= i < |s.workers| ==> s.workers[i].task in s.heap)
    && (forall id :: id in s.closers ==> s.closers[id] < |s.workers|)
    && (forall id :: id in s.cancels ==> s.cancels[id] < |s.workers|)
    && (s.shutdown.Closing? ==> forall i :: i in s.shutdown.remaining ==> i < |s.workers|)
    && s.nextId <= TaskIds.MAX_UINT64
  }

  /* ---------- Steps ---------- */

  predicate LoopEnabled(s: State, exit: bool) {
    match s.loop
    case Waiting => if exit then s.stopping else s.token
    case Exited => false
    case _ => !exit
  }

  predicate ShutdownEnabled(s: State, target: nat) {
    match s.shutdown
    case NotStarted => false
    case TriggerOwed => true
    case AwaitingLoop => s.loop == Exited
    case Closing(remaining) => remaining == {} || target in remaining
    case AwaitingTasks => AllFinished(s.workers)
    case Complete => false
  }

  predicate Enabled(s: State, e: Event) {
    match e
    case AddTasks(_, _) => true
    case SetConcurrency(files) => files > 0
    case ControlTask(_, _, _) => true
    case CallerStep(c) => c < |s.callers| && s.callers[c] != Caller(false, 0)
    case LoopStep(exit, _) => LoopEnabled(s, exit)
    case WorkerStep(w, _, _) => w < |s.workers| && s.workers[w].phase != Finished
    case BeginShutdown => s.shutdown == NotStarted
    case ShutdownStep(target) => ShutdownEnabled(s, target)
    case Restart(retained, _) => retained <= DiskIds(s.disk)
  }

  predicate AllFinished(workers: seq<Worker>) {
    forall i :: 0 <= i < |workers| ==> workers[i].phase == Finished
  }

  function DiskIds(d: Disk): set<string> { set t | t in d.tasks :: t.id }

  function Snapshot(heap: map<nat, Task>, list: seq<nat>): (tasks: seq<Task>)
    requires Covers(heap, list)
    ensures |tasks| == |list| && forall i :: 0 <= i < |list| ==> tasks[i] == heap[list[i]]
  {
    seq(|list|, i requires 0 <= i < |list| => heap[list[i]])
  }

  function Save(s: State): State
    requires Covers(s.heap, s.list)
  {
    s.(disk := Disk(Snapshot(s.heap, s.list), s.maxConcurrent), stale := false)
  }

  /** One round of the loop of AddTasks. */
  function AppendOne(s: State, name: string, host: string): State
    requires s.nextId <= TaskIds.MAX_UINT64
  {
    var id := TaskIds.Increment(s.nextId);
    s.(heap := s.heap[s.nextRef := NewTask(id, name, host)], nextRef := s.nextRef + 1,
       list := s.list + [s.nextRef], nextId := id)
  }

  /** The lock-held loop of AddTasks. */
  function Append(s: State, names: seq<string>, host: string): (s': State)
    requires s.nextId <= TaskIds.MAX_UINT64
    ensures s' == s.(heap := s'.heap, nextRef := s'.nextRef, list := s'.list, nextId := s'.nextId)
    decreases |names|
  {
    if names == [] then s else Append(AppendOne(s, names[0], host), names[1..], host)
  }

  /** Workers that differ in nothing but cancellation and client. */
  ghost predicate SameProgress(workers: seq<Worker>, workers': seq<Worker>) {
    && |workers'| == |workers|
    && forall i :: 0 <= i < |workers| ==> workers'[i].task == workers[i].task && workers'[i].phase == workers[i].phase
  }

  /** The remove action cancels through activeCancels, if the entry is there. */
  function WorkersAfterCancel(s: State, id: string, cancel: bool): (workers: seq<Worker>)
    requires WellFormed(s)
    ensures SameProgress(s.workers, workers)
    ensures forall i :: 0 <= i < |workers| ==>
              workers[i].client == s.workers[i].client && workers[i].closes == s.workers[i].closes
  {
    if cancel && id in s.cancels then s.workers[s.cancels[id] := s.workers[s.cancels[id]].(cancelled := true)]
    else s.workers
  }

  function ControlNext(s: State, id: string, action: Action, present: set<string>): (s': State)
    requires WellFormed(s)
    ensures s' == s.(list := s'.list, heap := s'.heap, token := s'.token, workers := s'.workers, disk := s'.disk,
            stale := s'.stale)
    ensures s'.heap.Keys == s.heap.Keys && SameProgress(s.workers, s'.workers)
  {
    var e := Control(s.list, s.heap, id, action, present);
    ControlIsDisciplined(s.list, s.heap, id, action, present);
    SubsequenceMembers(e.list, s.list);
    var s1 := s.(list := e.list, heap := e.heap, token := s.token || e.triggered,
                 workers := WorkersAfterCancel(s, id, e.cancelled.Some?));
    if e.saved then Save(s1) else s1
  }

  function CallerNext(s: State, c: nat): (s': State)
    requires WellFormed(s) && c < |s.callers| && s.callers[c] != Caller(false, 0)
    ensures s' == s.(callers := s'.callers, token := s'.token, disk := s'.disk, stale := s'.stale)
  {
    if s.callers[c].saveOwed then Save(s).(callers := s.callers[c := s.callers[c].(saveOwed := false)])
    else s.(callers := s.callers[c := s.callers[c].(triggersOwed := s.callers[c].triggersOwed - 1)], token := true)
  }

  function NewWorker(r: nat): Worker { Worker(r, Spawned, false, NoClient, 0, false) }

  function NewWorkers(picked: seq<nat>): (workers: seq<Worker>)
    ensures |workers| == |picked| && forall i :: 0 <= i < |picked| ==> workers[i] == NewWorker(picked[i])
  {
    seq(|picked|, i requires 0 <= i < |picked| => NewWorker(picked[i]))
  }

  /** The lock-held fill of processLoop. */
  function Fill(s: State, now: int): State
    requires WellFormed(s)
  {
    var picked := Picked(s.list, s.heap, s.runningTasks, s.maxConcurrent);
    s.(heap := MarkStarted(s.heap, picked, now),
       workers := s.workers + NewWorkers(picked),
       runningTasks := s.runningTasks + |picked|,
       loop := SaveOwed)
  }

  function LoopNext(s: State, exit: bool, now: int): (s': State)
    requires WellFormed(s) && LoopEnabled(s, exit)
    ensures s.loop != TokenTaken ==> s' == s.(loop := s'.loop, token := s'.token, disk := s'.disk, stale := s'.stale)
  {
    match s.loop
    case Waiting => if exit then s.(loop := Exited) else s.(token := false, loop := TokenTaken)
    case TokenTaken => Fill(s, now)
    case SaveOwed => Save(s).(loop := Waiting)
  }

  /** sync.OnceFunc(client.Close): only the first call closes. */
  function CloseClient(w: Worker): Worker {
    if w.client == Open then w.(client := Shut, closes := w.closes + 1) else w
  }

  function WithWorker(s: State, i: nat, w: Worker): State
    requires i < |s.workers|
  {
    s.(workers := s.workers[i := w])
  }

  /** What a step of a worker does to the worker itself. */
  function Advanced(w: Worker, stopping: bool, ok: bool): Worker {
    match w.phase
    case Spawned => w.(phase := Preparing)
    case Preparing => if ok then w.(phase := Connected, client := Open) else w.(phase := Returned, ok := false)
    case Connected => if stopping || w.cancelled then w.(phase := Aborting) else w.(phase := Uploading)
    case Aborting => CloseClient(w).(phase := Returned, ok := false)
    case Uploading => w.(phase := Uploaded, ok := ok)
    case Uploaded => CloseClient(w).(phase := Closed)
    case Closed => w.(phase := Returned)
    case Returned => w.(phase := Recorded)
    case Recorded => w.(phase := Saved)
    case Saved => w.(phase := Triggered)
    case Triggered => w.(phase := Unregistered)
    case Unregistered => w.(phase := Decremented)
    case Decremented => w.(phase := Signalled)
    case _ => w.(phase := Finished)
  }

  function CancelsAfter(cancels: map<string, nat>, p: Phase, id: string, i: nat): map<string, nat> {
    if p == Spawned then cancels[id := i] else if p == Triggered then cancels - {id} else cancels
  }

  function ClosersAfter(closers: map<string, nat>, before: Phase, after: Phase, id: string, i: nat): map<string, nat> {
    if after == Uploading then closers[id := i] else if before == Closed then closers - {id} else closers
  }

  function HeapAfter(heap: map<nat, Task>, w: Worker, error: string): (heap': map<nat, Task>)
    requires w.task in heap
    ensures heap'.Keys == heap.Keys
  {
    if w.phase == Returned then heap[w.task := Outcome(heap[w.task], w.ok, error)] else heap
  }

  /** One step of a worker, with its effect on each shared component. */
  function WorkerNext(s: State, i: nat, ok: bool, error: string): (s': State)
    requires WellFormed(s) && i < |s.workers|
    ensures s' == s.(workers := s.workers[i := Advanced(s.workers[i], s.stopping, ok)],
                     heap := HeapAfter(s.heap, s.workers[i], error), runningTasks := s'.runningTasks, token := s'.token,
                     cancels := s'.cancels, closers := s'.closers, disk := s'.disk, stale := s'.stale)
  {
    var w := s.workers[i];
    var w' := Advanced(w, s.stopping, ok);
    var id := s.heap[w.task].id;
    var s1 := s.(workers := s.workers[i := w'],
                 heap := HeapAfter(s.heap, w, error),
                 cancels := CancelsAfter(s.cancels, w.phase, id, i),
                 closers := ClosersAfter(s.closers, w.phase, w'.phase, id, i),
                 runningTasks := if w.phase == Unregistered then s.runningTasks - 1 else s.runningTasks,
                 token := s.token || w.phase == Saved || w.phase == Decremented);
    if w.phase == Recorded then Save(s1) else s1
  }

  function ShutdownNext(s: State, target: nat): (s': State)
    requires WellFormed(s) && ShutdownEnabled(s, target)
    ensures s' == s.(token := s'.token, shutdown := s'.shutdown, workers := s'.workers)
    ensures SameProgress(s.workers, s'.workers)
  {
    match s.shutdown
    case TriggerOwed => s.(token := true, shutdown := AwaitingLoop)
    case AwaitingLoop => s.(shutdown := Closing(s.closers.Values))
    case Closing(remaining) =>
      if remaining == {} then s.(shutdown := AwaitingTasks)
      else WithWorker(s, target, CloseClient(s.workers[target])).(shutdown := Closing(remaining - {target}))
    case _ => s.(shutdown := Complete)
  }

  /* ---------- Loading the state file ---------- */

  function Reloaded(t: Task): Task { if t.status == Running then t.(status := Pending) else t }

  function LoadedHeap(tasks: seq<Task>): map<nat, Task> {
    map r: nat | 0 <= r < |tasks| :: Reloaded(tasks[r])
  }

  function LoadedList(n: nat): (list: seq<nat>)
    ensures |list| == n && forall i :: 0 <= i < n ==> list[i] == i
  {
    seq(n, i => i)
  }

  /** The largest identifier of a file, as loadState computes nextID. */
  function HighestId(tasks: seq<Task>): (highest: nat)
    ensures highest <= TaskIds.MAX_UINT64
    ensures forall t :: t in tasks ==> TaskIds.Parse(t.id) <= highest
  {
    if tasks == [] then 0
    else
      var before := HighestId(tasks[..|tasks| - 1]);
      var idVal := TaskIds.Parse(tasks[|tasks| - 1].id);
      assert tasks == tasks[..|tasks| - 1] + [tasks[|tasks| - 1]];
      if idVal > before then idVal else before
  }

  /** NewQueueManager over an existing state file. `retained` are the loaded
      tasks whose credentials this process cannot re-encrypt, and `rewrite`
      says that the file still held plaintext passwords and a key is available. */
  function Load(disk: Disk, retained: set<string>, rewrite: bool): (s': State)
    ensures s'.heap == LoadedHeap(disk.tasks) && s'.list == LoadedList(|disk.tasks|)
  {
    var heap, list := LoadedHeap(disk.tasks), LoadedList(|disk.tasks|);
    var limit := if disk.maxConcurrent > 0 then disk.maxConcurrent else 1;
    var s := State(
      heap, |disk.tasks|, list, HighestId(disk.tasks), retained, limit, limit, 0, false, Waiting, [],
      if |list| > 0 then [Caller(false, 1)] else [],
      map[], map[], false, NotStarted, disk, exists t :: t in disk.tasks && t.status == Running);
    if rewrite then Save(s) else s
  }

  function Next(s: State, e: Event): State
    requires WellFormed(s) && Enabled(s, e)
  {
    match e
    case AddTasks(names, host) =>
      var s1 := Append(s, names, host);
      if names == [] then s1 else s1.(callers := s.callers + [Caller(true, |names|)])
    case SetConcurrency(files) =>
      s.(maxConcurrent := files, peak := if files > s.peak then files else s.peak,
         callers := s.callers + [Caller(false, 1)])
    case ControlTask(id, action, present) => ControlNext(s, id, action, present)
    case CallerStep(c) => CallerNext(s, c)
    case LoopStep(exit, now) => LoopNext(s, exit, now)
    case WorkerStep(w, ok, error) => WorkerNext(s, w, ok, error)
    case BeginShutdown => s.(stopping := true, shutdown := TriggerOwed)
    case ShutdownStep(target) => ShutdownNext(s, target)
    case Restart(retained, rewrite) => Load(s.disk, retained, rewrite)
  }
}
