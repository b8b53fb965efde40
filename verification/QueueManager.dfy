/** The QueueManager object: its lock-held sections as methods over shared task
    objects. Each is proved against the operation of module Tasks that the step
    system of module Scheduler takes as its step. */
module Manager {
  import opened Tasks
  import opened RateLimiting
  import TaskIds
  import opened HostAggregates

  /** A models.Task, shared by the list and by the worker that runs it. */
  class TaskObject {
    const id: string
    const fileName: string
    const host: string
    var status: Status
    var progress: int
    var bytesUploaded: int
    var totalBytes: int
    var startedAt: Option<int>
    var error: string

    constructor (id: string, fileName: string, host: string)
      ensures Record() == Task(id, fileName, host, Pending, 0, 0, 0, None, "")
    {
      this.id, this.fileName, this.host := id, fileName, host;
      status, progress, bytesUploaded, totalBytes, startedAt, error := Pending, 0, 0, 0, None, "";
    }

    function Record(): Task
      reads this
    {
      Task(id, fileName, host, status, progress, bytesUploaded, totalBytes, startedAt, error)
    }
  }

  /** A task's cancellable context. */
  class Context {
    var done: bool
    constructor ()
      ensures !done
    {
      done := false;
    }
  }

  /** The records behind a list of task objects. */
  ghost function HeapOf(list: seq<TaskObject>): (heap: map<TaskObject, Task>)
    reads list
    ensures Covers(heap, list)
  {
    map t | t in list :: t.Record()
  }

  function RecordsOf(list: seq<TaskObject>): (records: seq<Task>)
    reads list
    ensures |records| == |list| && forall i :: 0 <= i < |list| ==> records[i] == list[i].Record()
  {
    seq(|list|, i requires 0 <= i < |list| reads list => list[i].Record())
  }

  const MAX_LIMITERS := 100

  /** The part of an upload request that sets up throttling. */
  datatype Throttle = Throttle(host: string, rateLimitKBps: int, minLimitKBps: int, maxLatencyMs: int)

  datatype HostStats = HostStats(
    host: string,
    lastLatency: int,
    currentLimit: real,
    maxLimit: real,
    activeTasks: nat,
    totalSpeedKBps: real)

  const DEFAULT_LIMIT := 104857600.0   // 100 MB/s
  const DEFAULT_FLOOR := 10240.0       // 10 KB/s
  const MIN_BURST := 16384

  function RequestedLimit(t: Throttle): real {
    if t.rateLimitKBps == 0 then DEFAULT_LIMIT else (t.rateLimitKBps * 1024) as real
  }

  function RequestedFloor(t: Throttle): real {
    if t.minLimitKBps == 0 then DEFAULT_FLOOR else (t.minLimitKBps * 1024) as real
  }

  function BurstFor(limit: real): (burst: int)
    ensures burst >= MIN_BURST
  {
    if limit.Floor / 10 > MIN_BURST then limit.Floor / 10 else MIN_BURST
  }

  /** A tenth of a second at the full rate, but 16 KB at least. */
  predicate BurstOk(burst: int, limit: real) {
    burst >= 16384 && burst >= limit.Floor / 10 && (burst == 16384 || burst == limit.Floor / 10)
  }

  function RequestedLatency(t: Throttle): int { t.maxLatencyMs * 1000000 }

  /** A host that getOrCreateLimiter must not evict while it can evict another. */
  ghost predicate ActiveHost(list: seq<TaskObject>, host: string)
    reads list
  {
    exists i :: 0 <= i < |list| && list[i].host == host && list[i].status in {Pending, Running, Paused}
  }

  class QueueManager {
    var tasks: seq<TaskObject>
    var nextId: nat
    var maxConcurrent: int
    var runningTasks: int
    var token: bool                       // the one-slot worker channel
    var saved: seq<Task>                  // the task list of the state file
    var cancels: map<string, Context>     // activeCancels
    var limiters: map<string, Limiter>

    ghost predicate Valid()
      reads this
    {
      Distinct(tasks) && nextId <= TaskIds.MAX_UINT64
    }

    constructor ()
      ensures Valid() && tasks == [] && maxConcurrent == 1 && runningTasks == 0 && !token && limiters == map[]
    {
      tasks, nextId, maxConcurrent, runningTasks, token := [], 0, 1, 0, false;
      saved, cancels, limiters := [], map[], map[];
    }

    /** A non-blocking send on a channel with one slot. */
    method Trigger()
      modifies `token
      ensures token
    {
      if !token {
        token := true;
      }
    }

    method SaveStateLocked()
      modifies `saved
      ensures saved == RecordsOf(tasks)
    {
      saved := RecordsOf(tasks);
    }

    /** How most actions end. No task object changes. */
    method SaveAndTrigger(ghost list: seq<TaskObject>)
      modifies `saved, `token
      ensures token && saved == RecordsOf(tasks) && HeapOf(list) == old(HeapOf(list))
    {
      SaveStateLocked();
      Trigger();
    }

    /** The lock-held loop of AddTasks: appends one Pending task for each name,
        under consecutive identifiers, and touches no existing one. */
    method AddTasks(names: seq<string>, host: string)
      requires Valid()
      modifies `tasks, `nextId
      ensures Valid()
      ensures nextId == TaskIds.Advance(old(nextId), |names|)
      ensures |tasks| == old(|tasks|) + |names| && tasks[..old(|tasks|)] == old(tasks)
      ensures forall j :: old(|tasks|) <= j < |tasks| ==>
                var k := j - old(|tasks|);
                && fresh(tasks[j])
                && tasks[j].Record() == Task(TaskIds.Format(TaskIds.Advance(old(nextId), k + 1)), names[k], host,
                                             Pending, 0, 0, 0, None, "")
    {
      var n := |tasks|;
      for k := 0 to |names|
        invariant Valid()
        invariant nextId == TaskIds.Advance(old(nextId), k)
        invariant |tasks| == n + k && tasks[..n] == old(tasks)
        invariant forall j :: n <= j < n + k ==> fresh(tasks[j])
        invariant forall j :: n <= j < n + k ==>
                    tasks[j].Record() == NewTask(TaskIds.Advance(old(nextId), j - n + 1), names[j - n], host)
      {
        var task := AddOne(names[k], host);
      }
    }

    method AddOne(name: string, host: string) returns (task: TaskObject)
      requires Valid()
      modifies `tasks, `nextId
      ensures Valid() && nextId == TaskIds.Increment(old(nextId))
      ensures fresh(task) && tasks == old(tasks) + [task] && task.Record() == NewTask(nextId, name, host)
    {
      nextId := TaskIds.Increment(nextId);
      task := new TaskObject(TaskIds.Format(nextId), name, host);
      tasks := tasks + [task];
    }

    /** The lock-held pass of processLoop. It returns the tasks it started, for
        which the source spawns workers. */
    method Fill(now: int) returns (started: seq<TaskObject>)
      requires Valid()
      modifies `runningTasks, tasks
      ensures Valid()
      ensures started == old(Picked(tasks, HeapOf(tasks), runningTasks, maxConcurrent))
      ensures HeapOf(tasks)
              == old(MarkStarted(HeapOf(tasks), Picked(tasks, HeapOf(tasks), runningTasks, maxConcurrent), now))
      ensures runningTasks == old(runningTasks) + |started|
      ensures forall t :: t in started ==>
                t in tasks && t.Record() == Task(t.id, t.fileName, t.host, Running, 0, 0, 0, Some(now), t.error)
      ensures forall t :: t in tasks && t !in started ==> t.Record() == old(t.Record())
    {
      ghost var heap := HeapOf(tasks);
      started := FillSlots(heap, now);
      PickedIs(tasks, heap, old(runningTasks), maxConcurrent, started);
    }

    /** Its loop: starts Pending tasks in list order until there is none left or
        no slot free. */
    method FillSlots(ghost heap: map<TaskObject, Task>, now: int) returns (started: seq<TaskObject>)
      requires Distinct(tasks) && heap == HeapOf(tasks)
      modifies `runningTasks, tasks
      ensures started <= PendingOf(tasks, heap)
      ensures started == PendingOf(tasks, heap) || maxConcurrent <= runningTasks
      ensures started == [] || runningTasks <= maxConcurrent
      ensures runningTasks == old(runningTasks) + |started|
      ensures HeapOf(tasks) == MarkStarted(heap, started, now)
    {
      started := [];
      assert MarkStarted(heap, [], now) == heap;
      while runningTasks < maxConcurrent
        invariant started <= PendingOf(tasks, heap)
        invariant runningTasks == old(runningTasks) + |started|
        invariant started != [] ==> runningTasks <= maxConcurrent
        invariant HeapOf(tasks) == MarkStarted(heap, started, now)
        decreases maxConcurrent - runningTasks
      {
        var more;
        started, more := StartNext(heap, started, now);
        if !more {
          return;
        }
      }
    }

    /** One round of processLoop's pass: finds the first Pending task, takes a slot
        for it and marks it Running. It is the next one the pass has to start, if any is left. */
    method StartNext(ghost heap: map<TaskObject, Task>, started: seq<TaskObject>, now: int)
      returns (all: seq<TaskObject>, more: bool)
      requires Distinct(tasks) && Covers(heap, tasks) && started <= PendingOf(tasks, heap)
      requires HeapOf(tasks) == MarkStarted(heap, started, now)
      modifies `runningTasks, tasks
      ensures all <= PendingOf(tasks, heap) && |all| == |started| + (if more then 1 else 0)
      ensures !more ==> all == PendingOf(tasks, heap)
      ensures runningTasks == old(runningTasks) + (if more then 1 else 0)
      ensures HeapOf(tasks) == MarkStarted(heap, all, now)
    {
      var i := FindNext(heap, started, now);
      if i == |tasks| {
        return started, false;
      }
      StartFound(i, heap, started, now);
      return started + [tasks[i]], true;
    }

    /** Where the inner loop stops, in terms of the records before the pass. */
    method FindNext(ghost heap: map<TaskObject, Task>, ghost started: seq<TaskObject>, ghost now: int) returns (i: nat)
      requires Distinct(tasks) && Covers(heap, tasks) && started <= PendingOf(tasks, heap)
      requires HeapOf(tasks) == MarkStarted(heap, started, now)
      ensures i <= |tasks|
      ensures i == |tasks| ==> started == PendingOf(tasks, heap)
      ensures i < |tasks| ==> tasks[i] in heap && tasks[i] !in started && started + [tasks[i]] <= PendingOf(tasks, heap)
    {
      i := FindPending();
      PassFinds(tasks, heap, started, i, now);
    }

    method StartFound(i: nat, ghost heap: map<TaskObject, Task>, ghost started: seq<TaskObject>, now: int)
      requires i < |tasks| && tasks[i] in heap && tasks[i] !in started
      requires HeapOf(tasks) == MarkStarted(heap, started, now)
      modifies `runningTasks, tasks[i]
      ensures runningTasks == old(runningTasks) + 1
      ensures HeapOf(tasks) == MarkStarted(heap, started + [tasks[i]], now)
    {
      StartOneMore(heap, started, tasks[i], now);
      assert tasks[i].Record() == HeapOf(tasks)[tasks[i]];
      Start(i, now);
    }

    /** The inner loop of processLoop: the first Pending task. */
    method FindPending() returns (i: nat)
      ensures i <= |tasks|
      ensures i == |tasks| <==> PendingOf(tasks, HeapOf(tasks)) == []
      ensures i < |tasks| ==> tasks[i] == PendingOf(tasks, HeapOf(tasks))[0]
    {
      i := 0;
      while i < |tasks| && tasks[i].status != Pending
        invariant i <= |tasks|
        invariant forall j :: 0 <= j < i ==> tasks[j].status != Pending
      {
        i := i + 1;
      }
      FirstPending(tasks, HeapOf(tasks), i);
    }

    method Start(i: nat, now: int)
      requires i < |tasks|
      modifies `runningTasks, tasks[i]
      ensures runningTasks == old(runningTasks) + 1
      ensures HeapOf(tasks) == old(HeapOf(tasks))[tasks[i] := Started(old(tasks[i].Record()), now)]
    {
      var next := tasks[i];
      next.status := Running;
      next.startedAt := Some(now);
      next.bytesUploaded := 0;
      next.totalBytes := 0;
      next.progress := 0;
      runningTasks := runningTasks + 1;
    }

    /** The last lock-held section of processTask, with the save and the wake-up
        that follow it: records how the upload of a task ended. */
    method Finish(task: TaskObject, ok: bool, error: string)
      modifies `saved, `token, task
      ensures task.Record() == Outcome(old(task.Record()), ok, error)
      ensures task.status == (if ok then Completed else Failed)
      ensures ok ==> task.progress == 100 && task.error == old(task.error)
                     && task.bytesUploaded == (if task.totalBytes > 0 then task.totalBytes else old(task.bytesUploaded))
      ensures !ok ==> task.error == error && task.progress == old(task.progress)
                      && task.bytesUploaded == old(task.bytesUploaded)
      ensures task.totalBytes == old(task.totalBytes) && task.startedAt == old(task.startedAt)
      ensures saved == RecordsOf(tasks) && token
    {
      if !ok {
        task.status := Failed;
        task.error := error;
      } else {
        task.status := Completed;
        task.progress := 100;
        if task.totalBytes > 0 {
          task.bytesUploaded := task.totalBytes;
        }
      }
      SaveAndTrigger([task]);
    }

    /** ControlTask: list, records, answer, state file, wake-up and cancellation
        are those of Control. */
    method ControlTask(id: string, action: Action, present: set<string>) returns (verdict: Verdict)
      requires Valid()
      modifies `tasks, `token, `saved, tasks, cancels.Values
      ensures Valid()
      ensures Follows(old(Control(tasks, HeapOf(tasks), id, action, present)), old(tasks), old(token), old(saved),
                      verdict)
      ensures CancelsOnly(id, old(Control(tasks, HeapOf(tasks), id, action, present)).cancelled.Some?)
    {
      ghost var heap := HeapOf(tasks);
      ControlKeepsDistinct(tasks, heap, id, action, present);
      var i := FindTask(id);
      assert HeapOf(tasks) == heap;
      if i < |tasks| {
        verdict := ControlFound(i, action, present);
      } else {
        verdict := ControlAll(id, action, present);
      }
    }

    /** The actions of ControlTask that name no task. */
    method ControlAll(ghost id: string, action: Action, present: set<string>) returns (verdict: Verdict)
      requires Distinct(tasks) && Position(tasks, HeapOf(tasks), id) == |tasks|
      modifies `tasks, `token, `saved, tasks
      ensures Follows(old(Control(tasks, HeapOf(tasks), id, action, present)), old(tasks), old(token), old(saved),
                      verdict)
      ensures CancelsOnly(id, old(Control(tasks, HeapOf(tasks), id, action, present)).cancelled.Some?)
    {
      if action == RetryAllFailed {
        verdict := RetryAll(present);
      } else if action == ClearFinished {
        verdict := Clear();
      } else {
        verdict := NotFound;
      }
    }

    /** What it means for the object to have done what an effect describes. */
    twostate predicate Follows(e: Effect<TaskObject>, before: seq<TaskObject>, token0: bool, saved0: seq<Task>,
                               verdict: Verdict)
      reads this, before, tasks
    {
      && tasks == e.list && verdict == e.verdict
      && HeapOf(before) == e.heap
      && token == (token0 || e.triggered)
      && saved == (if e.saved then RecordsOf(tasks) else saved0)
    }

    /** No context is cancelled, or only the one registered for the identifier. */
    twostate predicate CancelsOnly(id: string, some: bool)
      reads this, cancels.Values
    {
      && cancels == old(cancels)
      && forall c :: c in cancels.Values ==> c.done == (old(c.done) || (some && id in cancels && cancels[id] == c))
    }

    method FindTask(id: string) returns (i: nat)
      ensures i == Position(tasks, HeapOf(tasks), id)
    {
      i := 0;
      while i < |tasks| && tasks[i].id != id
        invariant i <= |tasks|
        invariant forall j :: 0 <= j < i ==> tasks[j].id != id
      {
        i := i + 1;
      }
      PositionIs(tasks, HeapOf(tasks), id, i);
    }

    /** The switch of ControlTask on the task at position i. */
    method ControlFound(i: nat, action: Action, present: set<string>) returns (verdict: Verdict)
      requires i < |tasks|
      modifies `tasks, `token, `saved, tasks, cancels.Values
      ensures Follows(old(ControlOne(tasks, HeapOf(tasks), i, action, present)), old(tasks), old(token), old(saved),
                      verdict)
      ensures CancelsOnly(old(tasks[i].id), old(ControlOne(tasks, HeapOf(tasks), i, action, present)).cancelled.Some?)
    {
      match action
      case Pause => verdict := PauseTask(i);
      case Resume => verdict := ResumeTask(i);
      case Remove => verdict := RemoveTask(i);
      case Retry => verdict := RetryTask(i, present);
      case _ => verdict := UnknownAction;
    }

    method PauseTask(i: nat) returns (verdict: Verdict)
      requires i < |tasks|
      modifies tasks[i]
      ensures Follows(old(ControlOne(tasks, HeapOf(tasks), i, Pause, {})), old(tasks), old(token), old(saved), verdict)
    {
      var t := tasks[i];
      if t.status == Pending {
        t.status := Paused;
        verdict := Done;
      } else {
        verdict := NotPending;
      }
    }

    method ResumeTask(i: nat) returns (verdict: Verdict)
      requires i < |tasks|
      modifies `token, tasks[i]
      ensures Follows(old(ControlOne(tasks, HeapOf(tasks), i, Resume, {})), old(tasks), old(token), old(saved), verdict)
    {
      var t := tasks[i];
      if t.status == Paused {
        t.status := Pending;
        Trigger();
        verdict := Done;
      } else {
        verdict := NotPaused;
      }
    }

    method RemoveTask(i: nat) returns (verdict: Verdict)
      requires i < |tasks|
      modifies `tasks, `token, `saved, cancels.Values
      ensures Follows(old(ControlOne(tasks, HeapOf(tasks), i, Remove, {})), old(tasks), old(token), old(saved), verdict)
      ensures CancelsOnly(old(tasks[i].id), old(tasks[i].status == Running))
    {
      ghost var heap := HeapOf(tasks);
      if tasks[i].status == Running {
        CancelUpload(tasks[i].id);
      }
      Unlist(i, heap);
      verdict := Done;
    }

    /** Takes a task off the list. */
    method Unlist(i: nat, ghost heap: map<TaskObject, Task>)
      requires i < |tasks| && heap == HeapOf(tasks)
      modifies `tasks, `token, `saved
      ensures tasks == old(tasks[..i] + tasks[i + 1..]) && HeapOf(old(tasks)) == heap
      ensures token && saved == RecordsOf(tasks)
    {
      ghost var before := tasks;
      tasks := tasks[..i] + tasks[i + 1..];
      SaveAndTrigger(before);
    }

    method CancelUpload(id: string)
      modifies cancels.Values
      ensures CancelsOnly(id, true) && HeapOf(tasks) == old(HeapOf(tasks))
    {
      if id in cancels {
        cancels[id].done := true;
      }
    }

    method RetryTask(i: nat, present: set<string>) returns (verdict: Verdict)
      requires i < |tasks|
      modifies `token, `saved, tasks[i]
      ensures Follows(old(ControlOne(tasks, HeapOf(tasks), i, Retry, present)), old(tasks), old(token), old(saved),
                      verdict)
    {
      var t := tasks[i];
      if t.status != Failed && t.status != Completed {
        verdict := NotRetryable;
      } else if t.fileName !in present {
        verdict := FileMissing;
      } else {
        RequeueAt(i);
        SaveAndTrigger(tasks);
        verdict := Done;
      }
    }

    method RequeueAt(i: nat)
      requires i < |tasks|
      modifies tasks[i]
      ensures HeapOf(tasks) == old(HeapOf(tasks))[tasks[i] := Requeued(old(tasks[i].Record()))]
    {
      Requeue(tasks[i]);
    }

    static method Requeue(t: TaskObject)
      modifies t
      ensures t.Record() == Requeued(old(t.Record()))
    {
      t.status := Pending;
      t.error := "";
      t.progress := 0;
      t.bytesUploaded := 0;
      t.startedAt := None;
    }

    /** retry_all_failed. */
    method RetryAll(present: set<string>) returns (verdict: Verdict)
      requires Distinct(tasks)
      modifies `token, `saved, tasks
      ensures verdict == Done
      ensures HeapOf(tasks) == old(RetryFailed(tasks, HeapOf(tasks), present))
      ensures var found := old(SomeRetryable(tasks, HeapOf(tasks), present));
              token == (old(token) || found) && saved == (if found then RecordsOf(tasks) else old(saved))
    {
      var found := RetryEach(HeapOf(tasks), present);
      if found {
        SaveAndTrigger(tasks);
      }
      verdict := Done;
    }

    /** Its loop over the tasks. */
    method RetryEach(ghost heap: map<TaskObject, Task>, present: set<string>) returns (found: bool)
      requires Distinct(tasks) && heap == HeapOf(tasks)
      modifies tasks
      ensures HeapOf(tasks) == RetryFailed(tasks, heap, present)
      ensures found == SomeRetryable(tasks, heap, present)
    {
      found := false;
      RetryStart(tasks, heap, present);
      for i := 0 to |tasks|
        invariant HeapOf(tasks) == RetryFailed(tasks[..i], heap, present)
        invariant found <==> SomeRetryable(tasks[..i], heap, present)
      {
        found := RetryAt(i, heap, found, present);
      }
      RetryEnd(tasks);
    }

    /** Its body. */
    method RetryAt(i: nat, ghost heap: map<TaskObject, Task>, before: bool, present: set<string>) returns (found: bool)
      requires Distinct(tasks) && i < |tasks| && Covers(heap, tasks)
      requires HeapOf(tasks) == RetryFailed(tasks[..i], heap, present)
      requires before <==> SomeRetryable(tasks[..i], heap, present)
      modifies tasks[i]
      ensures HeapOf(tasks) == RetryFailed(tasks[..i + 1], heap, present)
      ensures found <==> SomeRetryable(tasks[..i + 1], heap, present)
    {
      RetryStep(tasks, heap, present, i);
      assert tasks[i].Record() == HeapOf(tasks)[tasks[i]];
      found := before;
      if tasks[i].status == Failed && tasks[i].fileName in present {
        RequeueAt(i);
        found := true;
      }
    }

    /** clear_finished. */
    method Clear() returns (verdict: Verdict)
      modifies `tasks, `token, `saved
      ensures verdict == Done && token
      ensures tasks == old(Unfinished(tasks, HeapOf(tasks))) && saved == RecordsOf(tasks)
      ensures HeapOf(old(tasks)) == old(HeapOf(tasks))
    {
      var active: seq<TaskObject> := [];
      ghost var heap := HeapOf(tasks);
      var list := tasks;
      for i := 0 to |list|
        invariant tasks == list && active == Unfinished(list[..i], heap)
      {
        assert list[..i + 1] == list[..i] + [list[i]];
        UnfinishedAppend(list[..i], list[i], heap);
        if list[i].status != Completed && list[i].status != Failed {
          active := active + [list[i]];
        }
      }
      assert list[..|list|] == list;
      tasks := active;
      SaveAndTrigger(list);
      verdict := Done;
    }

    /** The hosts of listed tasks that still want their limiter. */
    method ActiveHosts() returns (hosts: set<string>)
      ensures forall h :: h in hosts <==> ActiveHost(tasks, h)
    {
      hosts := {};
      for i := 0 to |tasks|
        invariant forall h :: h in hosts <==>
                    exists j :: 0 <= j < i && tasks[j].host == h && tasks[j].status in {Pending, Running, Paused}
      {
        var t := tasks[i];
        if t.status == Pending || t.status == Running || t.status == Paused {
          hosts := hosts + {t.host};
        }
      }
    }

    /** The eviction of getOrCreateLimiter from a full table: a host with no
        unfinished task if there is one, otherwise any. */
    method EvictOne() returns (victim: string)
      requires |limiters| > 0
      modifies `limiters
      ensures victim in old(limiters) && limiters == old(limiters) - {victim}
      ensures ActiveHost(tasks, victim) ==> forall h :: h in old(limiters) ==> ActiveHost(tasks, h)
    {
      var activeHosts := ActiveHosts();
      var idle := set h | h in limiters && h !in activeHosts;
      if idle != {} {
        victim :| victim in idle;
      } else {
        assert |limiters.Keys| > 0;
        victim :| victim in limiters.Keys;
        forall h | h in limiters ensures ActiveHost(tasks, h) {
          assert h !in idle;
        }
      }
      limiters := limiters - {victim};
    }

    /** getOrCreateLimiter: null without throttling; otherwise the limiter of the
        host, updated in place if it exists. The table never exceeds its bound, no
        other host's limiter changes, and an active host loses its limiter only
        if the table is full of active hosts. */
    method GetOrCreateLimiter(t: Throttle) returns (limiter: Limiter?)
      requires |limiters| <= MAX_LIMITERS
      modifies `limiters, limiters.Values
      ensures |limiters| <= MAX_LIMITERS
      ensures limiter == null <==> t.rateLimitKBps <= 0 && t.maxLatencyMs <= 0
      ensures limiter == null ==> limiters == old(limiters)
      ensures limiter != null ==> t.host in limiters && limiters[t.host] == limiter
      ensures limiter != null ==>
                && limiter.limit == limiter.maxLimit
                && (t.rateLimitKBps == 0 ==> limiter.limit == 104857600.0)
                && (t.rateLimitKBps != 0 ==> limiter.limit == (1024 * t.rateLimitKBps) as real)
                && limiter.minLimit == (if t.minLimitKBps == 0 then 10240.0 else (1024 * t.minLimitKBps) as real)
                && limiter.maxLatency == 1000000 * t.maxLatencyMs && limiter.consecutiveLow == 0
      ensures limiter != null && t.host in old(limiters) ==>
                && limiters == old(limiters)
                && limiter.State() == Configured(old(limiters[t.host].State()),
                                                 RequestedLimit(t), RequestedFloor(t), RequestedLatency(t))
      ensures limiter != null && t.host !in old(limiters) ==>
                && fresh(limiter) && BurstOk(limiter.burst, limiter.limit)
                && limiter.State() == Gauge(RequestedLimit(t), RequestedLimit(t),
                                            RequestedFloor(t), RequestedLatency(t), 0, 0)
                && (forall h :: h in limiters && h != t.host ==> h in old(limiters) && limiters[h] == old(limiters)[h])
                && (forall h :: h in old(limiters) && h !in limiters ==>
                      && |old(limiters)| == MAX_LIMITERS
                      && (ActiveHost(tasks, h) ==> forall k :: k in old(limiters) ==> ActiveHost(tasks, k)))
                && (forall h, k :: h in old(limiters) && k in old(limiters) && h !in limiters && k !in limiters ==>
                    h == k)
      ensures forall l: Limiter :: l in old(limiters).Values && l != limiter ==> l.State() == old(l.State())
    {
      if t.rateLimitKBps <= 0 && t.maxLatencyMs <= 0 {
        return null;
      }
      if t.host in limiters {
        limiter := limiters[t.host];
        limiter.UpdateConfig(RequestedLimit(t), RequestedFloor(t), RequestedLatency(t));
      } else {
        limiter := AddLimiter(t);
      }
    }

    /** Its last part: makes room if the table is full, and enters a new limiter. */
    method AddLimiter(t: Throttle) returns (limiter: Limiter)
      requires |limiters| <= MAX_LIMITERS && t.host !in limiters
      modifies `limiters
      ensures |limiters| <= MAX_LIMITERS
      ensures fresh(limiter) && BurstOk(limiter.burst, limiter.limit)
      ensures limiter.State()
              == Gauge(RequestedLimit(t), RequestedLimit(t), RequestedFloor(t), RequestedLatency(t), 0, 0)
      ensures t.host in limiters && limiters[t.host] == limiter
      ensures forall h :: h in limiters && h != t.host ==> h in old(limiters) && limiters[h] == old(limiters)[h]
      ensures forall h :: h in old(limiters) && h !in limiters ==>
                && |old(limiters)| == MAX_LIMITERS
                && (ActiveHost(tasks, h) ==> forall k :: k in old(limiters) ==> ActiveHost(tasks, k))
      ensures forall h, k :: h in old(limiters) && k in old(limiters) && h !in limiters && k !in limiters ==> h == k
    {
      if |limiters| >= MAX_LIMITERS {
        var _ := EvictOne();
      }
      var limit := RequestedLimit(t);
      limiter := new Limiter(limit, BurstFor(limit), RequestedFloor(t), RequestedLatency(t));
      limiters := limiters[t.host := limiter];
    }

    /** UpdateHostLimiter: reconfigures the host's limiter, if it has one, and
        sets the concurrency limit if a positive one is given, with a wake-up. */
    method UpdateHostLimiter(t: Throttle, concurrentFiles: int)
      modifies `maxConcurrent, `token, limiters.Values
      ensures t.host in limiters ==>
                limiters[t.host].State() == Configured(old(limiters[t.host].State()),
                  if t.rateLimitKBps == 0 && t.maxLatencyMs <= 0 then 0.0 else RequestedLimit(t),
                  RequestedFloor(t), RequestedLatency(t))
      ensures t.host in limiters ==>
                var l := limiters[t.host];
                && l.limit == l.maxLimit
                && (t.rateLimitKBps != 0 ==> l.limit == (1024 * t.rateLimitKBps) as real)
                && (t.rateLimitKBps == 0 ==> l.limit == if t.maxLatencyMs > 0 then 104857600.0 else INF)
                && l.minLimit == (if t.minLimitKBps == 0 then 10240.0 else (1024 * t.minLimitKBps) as real)
                && l.maxLatency == 1000000 * t.maxLatencyMs && l.lastLatency == old(limiters[t.host].lastLatency)
                && l.consecutiveLow == 0
      ensures forall l: Limiter :: l in limiters.Values && !(t.host in limiters && limiters[t.host] == l) ==>
                l.State() == old(l.State())
      ensures maxConcurrent == (if concurrentFiles > 0 then concurrentFiles else old(maxConcurrent))
      ensures token == (old(token) || concurrentFiles > 0)
      ensures old(maxConcurrent) >= 1 ==> maxConcurrent >= 1
    {
      if t.host in limiters {
        var limit := (t.rateLimitKBps * 1024) as real;
        if limit == 0.0 && t.maxLatencyMs > 0 {
          limit := DEFAULT_LIMIT;
        }
        limiters[t.host].UpdateConfig(limit, RequestedFloor(t), RequestedLatency(t));
      }
      if concurrentFiles > 0 {
        if maxConcurrent != concurrentFiles {
          maxConcurrent := concurrentFiles;
        }
        Trigger();
      }
    }

    /** The pre-aggregation of GetHostStats: one pass over the tasks. */
    method Aggregates(now: int) returns (aggs: map<string, Aggregate>)
      ensures Agrees(aggs, RecordsOf(tasks), now)
    {
      aggs := map[];
      ghost var records := RecordsOf(tasks);
      for i := 0 to |tasks|
        invariant Agrees(aggs, records[..i], now)
      {
        var t := tasks[i];
        assert records[..i + 1] == records[..i] + [records[i]] && records[i] == t.Record();
        FoldAgrees(aggs, records[..i], records[i], now);
        aggs := AggregateOne(aggs, t, now);
      }
      assert records[..|tasks|] == records;
    }

    /** The body of that pass. */
    static method AggregateOne(before: map<string, Aggregate>, t: TaskObject, now: int)
      returns (aggs: map<string, Aggregate>)
      ensures aggs == Fold(before, t.Record(), now)
    {
      aggs := before;
      if t.status == Running || t.status == Pending {
        if t.host !in aggs {
          aggs := aggs[t.host := Aggregate(0, 0.0)];
        }
        if t.status == Running {
          var agg := aggs[t.host];
          aggs := aggs[t.host := Aggregate(agg.active + 1, agg.speed + SpeedOf(t.Record(), now))];
        }
      }
    }

    /** GetHostStats, against the nested-loop definition: a host is reported, once,
        exactly when it has a limiter and a Running or Pending task, with the
        count and the total speed of its Running tasks. */
    method GetHostStats(now: int) returns (stats: seq<HostStats>)
      ensures forall h :: Reports(stats, h) <==>
                (h in limiters
                 && exists i :: 0 <= i < |tasks| && tasks[i].host == h && tasks[i].status in {Running, Pending})
      ensures forall i, j :: 0 <= i < j < |stats| ==> stats[i].host != stats[j].host
      ensures forall i :: 0 <= i < |stats| ==>
                && stats[i].host in limiters
                && var l := limiters[stats[i].host];
                && stats[i].lastLatency == l.lastLatency
                && stats[i].currentLimit == l.limit && stats[i].maxLimit == l.maxLimit
                && stats[i].activeTasks == ActiveTasks(RecordsOf(tasks), stats[i].host)
                && stats[i].totalSpeedKBps * 1024.0 == TotalSpeed(RecordsOf(tasks), stats[i].host, now)
      ensures forall i :: 0 <= i < |stats| ==>
                stats[i] == StatsOf(limiters[stats[i].host].State(), RecordsOf(tasks), stats[i].host, now)
    {
      var aggs := Aggregates(now);
      stats := ReportHosts(aggs);
      HasCountedIn(tasks);
      forall i | 0 <= i < |stats|
        ensures stats[i].host in limiters
                && stats[i] == StatsOf(limiters[stats[i].host].State(), RecordsOf(tasks), stats[i].host, now)
      {
        assert stats[i] == Entry(limiters[stats[i].host].State(), stats[i].host, aggs[stats[i].host]);
      }
    }

    /** Its loop over the limiters. */
    method ReportHosts(aggs: map<string, Aggregate>) returns (stats: seq<HostStats>)
      ensures forall h :: Reports(stats, h) <==> h in limiters && h in aggs
      ensures forall i, j :: 0 <= i < j < |stats| ==> stats[i].host != stats[j].host
      ensures forall i :: 0 <= i < |stats| ==>
                && stats[i].host in limiters && stats[i].host in aggs
                && stats[i] == Entry(limiters[stats[i].host].State(), stats[i].host, aggs[stats[i].host])
    {
      stats := [];
      var left := limiters.Keys;
      while left != {}
        invariant left <= limiters.Keys
        invariant forall i :: 0 <= i < |stats| ==>
          && stats[i].host in limiters && stats[i].host in aggs && Reports(stats, stats[i].host)
          && stats[i] == Entry(limiters[stats[i].host].State(), stats[i].host, aggs[stats[i].host])
        invariant forall i, j :: 0 <= i < j < |stats| ==> stats[i].host != stats[j].host
        invariant forall h :: Reports(stats, h) <==> h in limiters && h !in left && h in aggs
        decreases |left|
      {
        var host :| host in left;
        left := left - {host};
        if host in aggs {
          var l := limiters[host];
          var entry := HostStats(host, l.lastLatency, l.limit, l.maxLimit, aggs[host].active,
                                  aggs[host].speed / 1024.0);
          ReportedAppends(stats, entry);
          stats := stats + [entry];
        }
      }
    }
  }

  function Entry(g: Gauge, host: string, agg: Aggregate): HostStats {
    HostStats(host, g.lastLatency, g.current, g.maxLimit, agg.active, agg.speed / 1024.0)
  }

  predicate Reports(stats: seq<HostStats>, host: string) {
    exists i :: 0 <= i < |stats| && stats[i].host == host
  }

  lemma HasCountedIn(list: seq<TaskObject>)
    ensures forall h :: HasCounted(RecordsOf(list), h) <==>
              exists i :: 0 <= i < |list| && list[i].host == h && list[i].status in {Running, Pending}
  {
    forall h
      ensures HasCounted(RecordsOf(list), h) <==>
              exists i :: 0 <= i < |list| && list[i].host == h && list[i].status in {Running, Pending}
    {
      if i :| 0 <= i < |list| && list[i].host == h && list[i].status in {Running, Pending} {
        assert Counts(RecordsOf(list)[i], h);
      }
    }
  }

  lemma ReportedAppends(stats: seq<HostStats>, entry: HostStats)
    ensures forall h :: Reports(stats + [entry], h) <==> Reports(stats, h) || h == entry.host
  {
    var all := stats + [entry];
    assert all[|stats|] == entry;
    forall h | Reports(stats, h) ensures Reports(all, h) {
      var i :| 0 <= i < |stats| && stats[i].host == h;
      assert all[i].host == h;
    }
  }

  function StatsOf(g: Gauge, records: seq<Task>, host: string, now: int): HostStats {
    Entry(g, host, Direct(records, host, now))
  }

  /* ---------- Lemmas that tie the loops to the operations ---------- */

  lemma {:induction false} FirstPending<R>(list: seq<R>, heap: map<R, Task>, i: nat)
    requires Covers(heap, list) && i <= |list|
    requires forall j :: 0 <= j < i ==> heap[list[j]].status != Pending
    requires i < |list| ==> heap[list[i]].status == Pending
    ensures i == |list| <==> PendingOf(list, heap) == []
    ensures i < |list| ==> PendingOf(list, heap)[0] == list[i]
  {
    if list != [] && i > 0 {
      FirstPending(list[1..], heap, i - 1);
    }
  }

  lemma {:induction false} PositionIs<R>(list: seq<R>, heap: map<R, Task>, id: string, i: nat)
    requires Covers(heap, list) && i <= |list|
    requires forall j :: 0 <= j < i ==> heap[list[j]].id != id
    requires i < |list| ==> heap[list[i]].id == id
    ensures Position(list, heap, id) == i
  {
    if list != [] && i > 0 {
      PositionIs(list[1..], heap, id, i - 1);
    }
  }

  lemma {:induction false} UnfinishedAppend<R>(list: seq<R>, r: R, heap: map<R, Task>)
    requires Covers(heap, list) && r in heap
    ensures Covers(heap, list + [r])
    ensures Unfinished(list + [r], heap) == Unfinished(list, heap) + (if Finished(heap[r]) then [] else [r])
  {
    if list != [] {
      UnfinishedAppend(list[1..], r, heap);
      assert (list + [r])[1..] == list[1..] + [r];
    }
  }

  /** What the inner loop finds, when the first Pending tasks have been started,
      is the next of them. */
  lemma PassFinds<R>(list: seq<R>, heap: map<R, Task>, started: seq<R>, i: nat, now: int)
    requires Covers(heap, list) && Distinct(list) && i <= |list| && started <= PendingOf(list, heap)
    requires i == |list| <==> PendingOf(list, MarkStarted(heap, started, now)) == []
    requires i < |list| ==> PendingOf(list, MarkStarted(heap, started, now))[0] == list[i]
    ensures i == |list| ==> started == PendingOf(list, heap)
    ensures i < |list| ==> |started| < |PendingOf(list, heap)| && PendingOf(list, heap)[|started|] == list[i]
    ensures i < |list| ==> list[i] in heap && list[i] !in started
  {
    var pending := PendingOf(list, heap);
    assert started == pending[..|started|];
    PendingAfterStart(list, heap, |started|, now);
    PendingOfDistinct(list, heap);
  }

  lemma PickedIs<R>(list: seq<R>, heap: map<R, Task>, running: int, limit: int, started: seq<R>)
    requires Covers(heap, list) && started <= PendingOf(list, heap)
    requires started == PendingOf(list, heap) || limit <= running + |started|
    requires started == [] || running + |started| <= limit
    ensures started == Picked(list, heap, running, limit)
  {
  }

  /** Starting one more picked task extends MarkStarted by it. */
  lemma StartOneMore<R>(heap: map<R, Task>, started: seq<R>, next: R, now: int)
    requires next in heap && next !in started
    ensures MarkStarted(heap, started, now)[next] == heap[next]
    ensures MarkStarted(heap, started, now)[next := Started(heap[next], now)]
            == MarkStarted(heap, started + [next], now)
  {
  }

  lemma ControlKeepsDistinct<R>(list: seq<R>, heap: map<R, Task>, id: string, action: Action, present: set<string>)
    requires Covers(heap, list) && Distinct(list)
    ensures Distinct(Control(list, heap, id, action, present).list)
  {
    ControlIsDisciplined(list, heap, id, action, present);
    SubsequenceDistinct(Control(list, heap, id, action, present).list, list);
  }

  ghost predicate SomeRetryable<R>(list: seq<R>, heap: map<R, Task>, present: set<string>)
    requires Covers(heap, list)
  {
    exists r :: r in list && Retryable(list, heap, present, r)
  }

  /** Its beginning and its end. */
  lemma RetryStart<R>(list: seq<R>, heap: map<R, Task>, present: set<string>)
    requires Covers(heap, list)
    ensures RetryFailed(list[..0], heap, present) == heap && !SomeRetryable(list[..0], heap, present)
  {
  }

  lemma RetryEnd<R>(list: seq<R>)
    ensures list[..|list|] == list
  {
  }

  /** One round of the retry_all_failed loop. */
  lemma RetryStep<R>(list: seq<R>, heap: map<R, Task>, present: set<string>, i: nat)
    requires Covers(heap, list) && Distinct(list) && i < |list|
    ensures var r, before := list[i], RetryFailed(list[..i], heap, present);
            var hit := heap[r].status == Failed && heap[r].fileName in present;
            && before[r] == heap[r]
            && RetryFailed(list[..i + 1], heap, present) == (if hit then before[r := Requeued(heap[r])] else before)
            && (SomeRetryable(list[..i + 1], heap, present) <==> hit || SomeRetryable(list[..i], heap, present))
  {
    var r := list[i];
    assert list[..i + 1] == list[..i] + [r];
    if SomeRetryable(list[..i], heap, present) {
      var q :| q in list[..i] && Retryable(list[..i], heap, present, q);
      assert Retryable(list[..i + 1], heap, present, q);
    }
    if heap[r].status == Failed && heap[r].fileName in present {
      assert Retryable(list[..i + 1], heap, present, r);
    }
    if SomeRetryable(list[..i + 1], heap, present) {
      var q :| q in list[..i + 1] && Retryable(list[..i + 1], heap, present, q);
      assert q == r || Retryable(list[..i], heap, present, q);
    }
  }
}
