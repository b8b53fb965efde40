/** Queue tasks and what each queue operation does to an ordered list of them.

    A list holds references R into a heap of task records: object references in
    the QueueManager class, indices in the step system of module Scheduler. The
    operations are written once, over any R, and both use them. */
module Tasks {
  import TaskIds

  datatype Option<+T> = None | Some(value: T)

  datatype Status = Pending | Running | Paused | Completed | Failed

  datatype Task = Task(
    id: string,
    fileName: string,
    host: string,
    status: Status,
    progress: int,
    bytesUploaded: int,
    totalBytes: int,
    startedAt: Option<int>,
    error: string)

  /** A task as AddTasks makes it. */
  function NewTask(id: nat, name: string, host: string): Task {
    Task(TaskIds.Format(id), name, host, Pending, 0, 0, 0, None, "")
  }

  /** A task after its worker has recorded how the upload went. */
  function Outcome(t: Task, ok: bool, error: string): Task {
    if ok then t.(status := Completed, progress := 100,
                  bytesUploaded := if t.totalBytes > 0 then t.totalBytes else t.bytesUploaded)
    else t.(status := Failed, error := error)
  }

  ghost predicate Covers<R>(heap: map<R, Task>, list: seq<R>) {
    forall r :: r in list ==> r in heap
  }

  ghost predicate Distinct<R>(list: seq<R>) {
    forall i, j :: 0 <= i < j < |list| ==> list[i] != list[j]
  }

  /* ---------- The dispatcher pass ---------- */

  /** The Pending tasks of a list, in list order. */
  function PendingOf<R>(list: seq<R>, heap: map<R, Task>): (pending: seq<R>)
    requires Covers(heap, list)
    ensures |pending| <= |list|
    ensures forall r :: r in pending ==> r in list && heap[r].status == Pending
    ensures forall r :: r in list && heap[r].status == Pending ==> r in pending
  {
    if list == [] then []
    else if heap[list[0]].status == Pending then [list[0]] + PendingOf(list[1..], heap)
    else PendingOf(list[1..], heap)
  }

  /** The tasks one dispatcher pass starts: as many of the first Pending ones
      as there are free slots. */
  function Picked<R>(list: seq<R>, heap: map<R, Task>, running: int, limit: int): (picked: seq<R>)
    requires Covers(heap, list)
    ensures forall r :: r in picked ==> r in list && heap[r].status == Pending
    ensures |picked| <= limit - running || picked == []
    ensures |picked| < limit - running ==> forall r :: r in list && heap[r].status == Pending ==> r in picked
  {
    var pending := PendingOf(list, heap);
    if limit <= running then [] else if |pending| <= limit - running then pending else pending[..limit - running]
  }

  function Started(t: Task, now: int): Task {
    t.(status := Running, startedAt := Some(now), bytesUploaded := 0, totalBytes := 0, progress := 0)
  }

  function MarkStarted<R>(heap: map<R, Task>, picked: seq<R>, now: int): map<R, Task> {
    map r | r in heap :: if r in picked then Started(heap[r], now) else heap[r]
  }

  lemma {:induction false} PendingOfDistinct<R>(list: seq<R>, heap: map<R, Task>)
    requires Covers(heap, list) && Distinct(list)
    ensures Distinct(PendingOf(list, heap))
  {
    if list != [] {
      PendingOfDistinct(list[1..], heap);
    }
  }

  /** PendingOf looks only at which listed tasks are Pending. */
  lemma {:induction false} PendingOfFrame<R>(list: seq<R>, heap: map<R, Task>, heap': map<R, Task>)
    requires Covers(heap, list) && Covers(heap', list)
    requires forall r :: r in list ==> (heap[r].status == Pending <==> heap'[r].status == Pending)
    ensures PendingOf(list, heap) == PendingOf(list, heap')
  {
    if list != [] {
      PendingOfFrame(list[1..], heap, heap');
    }
  }

  /** If exactly the first k Pending tasks stop being Pending, the others are
      what is left, in order. */
  lemma {:induction false} PendingWithoutFirst<R>(list: seq<R>, heap: map<R, Task>, heap': map<R, Task>, k: nat)
    requires Covers(heap, list) && Covers(heap', list) && Distinct(list) && k <= |PendingOf(list, heap)|
    requires forall r :: r in list ==>
               (heap'[r].status == Pending <==> heap[r].status == Pending && r !in PendingOf(list, heap)[..k])
    ensures PendingOf(list, heap') == PendingOf(list, heap)[k..]
  {
    if list != [] {
      var first, tail := list[0], list[1..];
      var pending, rest := PendingOf(list, heap), PendingOf(tail, heap);
      assert first !in tail;
      if heap[first].status == Pending {
        if k == 0 {
          PendingOfFrame(list, heap, heap');
        } else {
          assert pending[..k] == [first] + rest[..k - 1];
          assert first in pending[..k];
          PendingWithoutFirst(tail, heap, heap', k - 1);
        }
      } else {
        PendingWithoutFirst(tail, heap, heap', k);
      }
    }
  }

  /** Starting the first k Pending tasks leaves exactly the others Pending. */
  lemma PendingAfterStart<R>(list: seq<R>, heap: map<R, Task>, k: nat, now: int)
    requires Covers(heap, list) && Distinct(list) && k <= |PendingOf(list, heap)|
    ensures PendingOf(list, MarkStarted(heap, PendingOf(list, heap)[..k], now)) == PendingOf(list, heap)[k..]
  {
    PendingWithoutFirst(list, heap, MarkStarted(heap, PendingOf(list, heap)[..k], now), k);
  }

  lemma PickedDistinct<R>(list: seq<R>, heap: map<R, Task>, running: int, limit: int)
    requires Covers(heap, list) && Distinct(list)
    ensures Distinct(Picked(list, heap, running, limit))
  {
    PendingOfDistinct(list, heap);
  }

  /** One dispatcher pass, against the description of it: it starts the first
      min(#Pending, free slots) Pending tasks in list order, and ends with no
      Pending task or no free slot. */
  lemma PassFillsSlotsInOrder<R>(list: seq<R>, heap: map<R, Task>, running: int, limit: int, now: int)
    requires Covers(heap, list) && Distinct(list)
    ensures var pending, picked := PendingOf(list, heap), Picked(list, heap, running, limit);
            var heap' := MarkStarted(heap, picked, now);
            && Distinct(picked)
            && picked == pending[..|picked|]
            && |picked| == (if limit - running <= 0 then 0
                            else if |pending| <= limit - running then |pending| else limit - running)
            && PendingOf(list, heap') == pending[|picked|..]
            && (PendingOf(list, heap') == [] || limit <= running + |picked|)
  {
    PendingOfDistinct(list, heap);
    PendingAfterStart(list, heap, |Picked(list, heap, running, limit)|, now);
  }

  /** What the pass does to a record: a task it starts is Running from now on, with
      nothing uploaded yet; any other is left as it is. */
  lemma PassStarts<R>(list: seq<R>, heap: map<R, Task>, running: int, limit: int, now: int, r: R)
    requires Covers(heap, list) && r in heap
    ensures var t, heap' := heap[r], MarkStarted(heap, Picked(list, heap, running, limit), now);
            && r in heap'
            && heap'[r] == (if r in Picked(list, heap, running, limit)
                            then Task(t.id, t.fileName, t.host, Running, 0, 0, 0, Some(now), t.error) else t)
  {
  }

  /* ---------- User control of the list ---------- */

  datatype Action = Pause | Resume | Remove | Retry | RetryAllFailed | ClearFinished | Unknown

  datatype Verdict = Done | NotPending | NotPaused | FileMissing | NotRetryable | UnknownAction | NotFound

  /** What ControlTask leaves behind: the list, the records, its answer, whether
      it saved the state and woke the dispatcher, and whose upload it cancelled. */
  datatype Effect<R> = Effect(
    list: seq<R>,
    heap: map<R, Task>,
    verdict: Verdict,
    saved: bool,
    triggered: bool,
    cancelled: Option<R>)

  function Requeued(t: Task): Task {
    t.(status := Pending, error := "", progress := 0, bytesUploaded := 0, startedAt := None)
  }

  predicate Finished(t: Task) { t.status == Completed || t.status == Failed }

  /** The first listed position that carries the identifier, or |list|. */
  function Position<R>(list: seq<R>, heap: map<R, Task>, id: string): (i: nat)
    requires Covers(heap, list)
    ensures i <= |list|
    ensures i < |list| ==> heap[list[i]].id == id
    ensures forall j :: 0 <= j < i ==> heap[list[j]].id != id
  {
    if list == [] then 0
    else if heap[list[0]].id == id then 0
    else 1 + Position(list[1..], heap, id)
  }

  function Unfinished<R>(list: seq<R>, heap: map<R, Task>): (kept: seq<R>)
    requires Covers(heap, list)
    ensures forall r :: r in kept ==> r in list && !Finished(heap[r])
    ensures forall r :: r in list && !Finished(heap[r]) ==> r in kept
  {
    if list == [] then []
    else if Finished(heap[list[0]]) then Unfinished(list[1..], heap)
    else [list[0]] + Unfinished(list[1..], heap)
  }

  predicate Retryable<R>(list: seq<R>, heap: map<R, Task>, present: set<string>, r: R)
    requires r in heap
  {
    r in list && heap[r].status == Failed && heap[r].fileName in present
  }

  function Refused<R>(list: seq<R>, heap: map<R, Task>, verdict: Verdict): Effect<R> {
    Effect(list, heap, verdict, false, false, None)
  }

  function ControlOne<R>(list: seq<R>, heap: map<R, Task>, i: nat, action: Action, present: set<string>): Effect<R>
    requires Covers(heap, list) && i < |list|
  {
    var r := list[i];
    var t := heap[r];
    match action
    case Pause =>
      if t.status == Pending then Effect(list, heap[r := t.(status := Paused)], Done, false, false, None)
      else Refused(list, heap, NotPending)
    case Resume =>
      if t.status == Paused then Effect(list, heap[r := t.(status := Pending)], Done, false, true, None)
      else Refused(list, heap, NotPaused)
    case Remove =>
      Effect(list[..i] + list[i + 1..], heap, Done, true, true, if t.status == Running then Some(r) else None)
    case Retry =>
      if !Finished(t) then Refused(list, heap, NotRetryable)
      else if t.fileName !in present then Refused(list, heap, FileMissing)
      else Effect(list, heap[r := Requeued(t)], Done, true, true, None)
    case _ => Refused(list, heap, UnknownAction)
  }

  function RetryFailed<R>(list: seq<R>, heap: map<R, Task>, present: set<string>): map<R, Task> {
    map r | r in heap :: if Retryable(list, heap, present, r) then Requeued(heap[r]) else heap[r]
  }

  /** ControlTask. `present` is the set of file names that os.Stat would find. */
  function Control<R>(list: seq<R>, heap: map<R, Task>, id: string, action: Action, present: set<string>): Effect<R>
    requires Covers(heap, list)
  {
    var i := Position(list, heap, id);
    if i < |list| then ControlOne(list, heap, i, action, present)
    else if action == RetryAllFailed then
      var found := exists r :: r in list && Retryable(list, heap, present, r);
      Effect(list, RetryFailed(list, heap, present), Done, found, found, None)
    else if action == ClearFinished then
      Effect(Unfinished(list, heap), heap, Done, true, true, None)
    else Refused(list, heap, NotFound)
  }

  /** The status changes a user may cause. Running is in none of them: only the
      dispatcher starts a task and only its worker ends it. */
  predicate UserMayChange(before: Status, after: Status) {
    || before == after
    || (before == Pending && after == Paused)
    || (before == Paused && after == Pending)
    || ((before == Failed || before == Completed) && after == Pending)
  }

  ghost predicate IsSubsequence<R>(sub: seq<R>, list: seq<R>) {
    if sub == [] then true
    else if list == [] then false
    else (sub[0] == list[0] && IsSubsequence(sub[1..], list[1..])) || IsSubsequence(sub, list[1..])
  }

  lemma {:induction false} SubsequenceWithout<R>(list: seq<R>, i: nat)
    requires i < |list|
    ensures IsSubsequence(list[..i] + list[i + 1..], list)
  {
    var sub := list[..i] + list[i + 1..];
    if i == 0 {
      assert sub == list[1..];
      SubsequenceRefl(list[1..]);
    } else {
      SubsequenceWithout(list[1..], i - 1);
      assert sub[1..] == list[1..][..i - 1] + list[1..][i..];
    }
  }

  lemma {:induction false} SubsequenceRefl<R>(list: seq<R>)
    ensures IsSubsequence(list, list)
  {
    if list != [] {
      SubsequenceRefl(list[1..]);
    }
  }

  lemma {:induction false} UnfinishedIsSubsequence<R>(list: seq<R>, heap: map<R, Task>)
    requires Covers(heap, list)
    ensures IsSubsequence(Unfinished(list, heap), list)
  {
    if list != [] {
      UnfinishedIsSubsequence(list[1..], heap);
    }
  }

  lemma {:induction false} SubsequenceMembers<R>(sub: seq<R>, list: seq<R>)
    requires IsSubsequence(sub, list)
    ensures forall r :: r in sub ==> r in list
  {
    if sub != [] {
      if sub[0] == list[0] && IsSubsequence(sub[1..], list[1..]) {
        SubsequenceMembers(sub[1..], list[1..]);
        forall r | r in sub ensures r in list {
          assert r == sub[0] || r in sub[1..];
        }
      } else {
        SubsequenceMembers(sub, list[1..]);
      }
    }
  }

  lemma {:induction false} SubsequenceDistinct<R>(sub: seq<R>, list: seq<R>)
    requires IsSubsequence(sub, list) && Distinct(list)
    ensures Distinct(sub)
  {
    if sub != [] {
      if sub[0] == list[0] && IsSubsequence(sub[1..], list[1..]) {
        var first := sub[0];
        SubsequenceDistinct(sub[1..], list[1..]);
        SubsequenceMembers(sub[1..], list[1..]);
        assert first !in list[1..];
        forall i, j | 0 <= i < j < |sub| ensures sub[i] != sub[j] {
          assert sub[j] == sub[1..][j - 1];
          assert i == 0 || sub[i] == sub[1..][i - 1];
        }
      } else {
        SubsequenceDistinct(sub, list[1..]);
      }
    }
  }

  /** The discipline of a control action: the tasks that stay listed keep their
      order, records keep their identity, statuses change only as a user may
      change them, nothing becomes Pending without a wake-up of the dispatcher,
      and only the switch between Pending and Paused goes unsaved. */
  ghost predicate Disciplined<R>(list: seq<R>, heap: map<R, Task>, e: Effect<R>) {
    && IsSubsequence(e.list, list)
    && e.heap.Keys == heap.Keys
    && (forall r :: r in heap ==> KeepsDiscipline(list, heap[r], e.heap[r], r, e))
    && (!e.saved ==> e.list == list)
    && (e.cancelled.Some? ==>
          e.cancelled.value in list && e.cancelled.value in heap && heap[e.cancelled.value].status == Running)
    && (e.verdict != Done ==> e == Refused(list, heap, e.verdict))
  }

  predicate KeepsDiscipline<R>(list: seq<R>, before: Task, after: Task, r: R, e: Effect<R>) {
    && after.id == before.id && after.fileName == before.fileName && after.host == before.host
    && UserMayChange(before.status, after.status)
    && (r !in list ==> after == before)
    && (after.status == Pending && before.status != Pending ==> e.triggered)
    && (!e.saved && after != before ==> before.status in {Pending, Paused} && after.status in {Pending, Paused})
  }

  lemma ControlOneIsDisciplined<R>(list: seq<R>, heap: map<R, Task>, i: nat, action: Action, present: set<string>)
    requires Covers(heap, list) && i < |list|
    ensures Disciplined(list, heap, ControlOne(list, heap, i, action, present))
  {
    SubsequenceRefl(list);
    SubsequenceWithout(list, i);
  }

  lemma RetryAllIsDisciplined<R>(list: seq<R>, heap: map<R, Task>, id: string, present: set<string>)
    requires Covers(heap, list) && Position(list, heap, id) == |list|
    ensures Disciplined(list, heap, Control(list, heap, id, RetryAllFailed, present))
  {
    SubsequenceRefl(list);
    var e := Control(list, heap, id, RetryAllFailed, present);
    forall r | r in heap ensures KeepsDiscipline(list, heap[r], e.heap[r], r, e) {
      if e.heap[r] != heap[r] {
        assert Retryable(list, heap, present, r);
      }
    }
  }

  /** Every control action keeps the discipline, whatever it is aimed at. */
  lemma ControlIsDisciplined<R>(list: seq<R>, heap: map<R, Task>, id: string, action: Action, present: set<string>)
    requires Covers(heap, list)
    ensures Disciplined(list, heap, Control(list, heap, id, action, present))
  {
    var i := Position(list, heap, id);
    if i < |list| {
      ControlOneIsDisciplined(list, heap, i, action, present);
    } else if action == RetryAllFailed {
      RetryAllIsDisciplined(list, heap, id, present);
    } else {
      SubsequenceRefl(list);
      UnfinishedIsSubsequence(list, heap);
    }
  }

  /** What is done to the first listed task with the identifier. */
  ghost predicate ActsOn<R>(list: seq<R>, heap: map<R, Task>, i: nat, action: Action, present: set<string>,
                            e: Effect<R>)
    requires Covers(heap, list) && i < |list|
  {
    var r, t := list[i], heap[list[i]];
    match action
    case Pause =>
      if t.status != Pending then Untouched(list, heap, e, NotPending)
      else Changes(list, heap, r, t.(status := Paused), e) && !e.saved && !e.triggered
    case Resume =>
      if t.status != Paused then Untouched(list, heap, e, NotPaused)
      else Changes(list, heap, r, t.(status := Pending), e) && !e.saved && e.triggered
    case Remove =>
      && |e.list| == |list| - 1 && (forall j :: 0 <= j < |e.list| ==> e.list[j] == list[if j < i then j else j + 1])
      && e.heap == heap && e.verdict == Done && e.saved && e.triggered
      && e.cancelled == (if t.status == Running then Some(r) else None)
    case Retry =>
      if t.status != Completed && t.status != Failed then Untouched(list, heap, e, NotRetryable)
      else if t.fileName !in present then Untouched(list, heap, e, FileMissing)
      else Changes(list, heap, r, Task(t.id, t.fileName, t.host, Pending, 0, 0, t.totalBytes, None, ""), e)
           && e.saved && e.triggered
    case _ => Untouched(list, heap, e, UnknownAction)
  }

  ghost predicate Untouched<R>(list: seq<R>, heap: map<R, Task>, e: Effect<R>, verdict: Verdict) {
    e.list == list && e.heap == heap && e.verdict == verdict && !e.saved && !e.triggered && e.cancelled.None?
  }

  ghost predicate Changes<R>(list: seq<R>, heap: map<R, Task>, r: R, t: Task, e: Effect<R>) {
    e.list == list && e.heap == heap[r := t] && e.verdict == Done && e.cancelled.None?
  }

  lemma ControlActsOn<R>(list: seq<R>, heap: map<R, Task>, id: string, action: Action, present: set<string>, i: nat)
    requires Covers(heap, list) && i < |list| && heap[list[i]].id == id
    requires forall j :: 0 <= j < i ==> heap[list[j]].id != id
    ensures ActsOn(list, heap, i, action, present, Control(list, heap, id, action, present))
  {
    assert Position(list, heap, id) == i;
  }

  /** Where no listed task has the identifier: retry_all_failed requeues exactly the
      listed Failed tasks whose file is there, and clear_finished unlists exactly the
      Completed and Failed ones. */
  lemma ControlActsOnAll<R>(list: seq<R>, heap: map<R, Task>, id: string, action: Action, present: set<string>, r: R)
    requires Covers(heap, list) && r in heap && (forall q :: q in list ==> heap[q].id != id)
    ensures var e := Control(list, heap, id, action, present);
            match action
            case RetryAllFailed =>
              && e.list == list && e.verdict == Done && e.saved == e.triggered && e.cancelled.None? && r in e.heap
              && (if r in list && heap[r].status == Failed && heap[r].fileName in present
                  then e.saved && e.heap[r] == Task(heap[r].id, heap[r].fileName, heap[r].host,
                                                    Pending, 0, 0, heap[r].totalBytes, None, "")
                  else e.heap[r] == heap[r])
              && (e.saved ==> exists q :: q in list && heap[q].status == Failed && heap[q].fileName in present)
            case ClearFinished =>
              && e.heap == heap && e.verdict == Done && e.saved && e.triggered && e.cancelled.None?
              && IsSubsequence(e.list, list)
              && (r in e.list <==> r in list && heap[r].status != Completed && heap[r].status != Failed)
            case _ => Untouched(list, heap, e, NotFound)
  {
    assert Position(list, heap, id) == |list|;
    if action == RetryAllFailed && r in list && heap[r].status == Failed && heap[r].fileName in present {
      assert Retryable(list, heap, present, r);
    }
    if action == ClearFinished {
      UnfinishedIsSubsequence(list, heap);
    }
  }

  /** Pausing a Pending task and resuming it restores the queue. */
  lemma ResumeUndoesPause<R>(list: seq<R>, heap: map<R, Task>, id: string, present: set<string>)
    requires Covers(heap, list)
    requires Control(list, heap, id, Pause, present).verdict == Done
    ensures var e := Control(list, heap, id, Pause, present);
            Covers(e.heap, e.list) && Control(e.list, e.heap, id, Resume, present).heap == heap
            && Control(e.list, e.heap, id, Resume, present).list == list
  {
    var e := Control(list, heap, id, Pause, present);
    PositionFrame(list, heap, e.heap, id);
    var r := list[Position(list, heap, id)];
    assert heap[r].(status := Paused).(status := Pending) == heap[r];
    assert e.heap[r := heap[r]] == heap;
  }

  lemma {:induction false} PositionFrame<R>(list: seq<R>, heap: map<R, Task>, heap': map<R, Task>, id: string)
    requires Covers(heap, list) && Covers(heap', list)
    requires forall r :: r in list ==> heap[r].id == heap'[r].id
    ensures Position(list, heap, id) == Position(list, heap', id)
  {
    if list != [] {
      PositionFrame(list[1..], heap, heap', id);
    }
  }
}
