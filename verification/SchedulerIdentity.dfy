/** Task identifiers: when a batch of AddTasks keeps them distinct. */
module SchedulerIdentity {
  import opened Tasks
  import opened Scheduler
  import opened SchedulerSafety
  import opened SchedulerPromises
  import TaskIds

  ghost predicate UniqueIds(heap: map<nat, Task>) {
    forall p, q :: p in heap && q in heap && p != q ==> heap[p].id != heap[q].id
  }

  function IdsOf(tasks: seq<Task>): (ids: seq<string>)
    ensures |ids| == |tasks| && forall i :: 0 <= i < |tasks| ==> ids[i] == tasks[i].id
  {
    seq(|tasks|, i requires 0 <= i < |tasks| => tasks[i].id)
  }

  ghost predicate DistinctIds(tasks: seq<Task>) { TaskIds.NoRepeats(IdsOf(tasks)) }

  /* ---------- The identifiers of a batch ---------- */

  lemma {:induction false} AdvanceShift(counter: nat, n: nat)
    requires counter <= TaskIds.MAX_UINT64
    ensures TaskIds.Advance(TaskIds.Increment(counter), n) == TaskIds.Advance(counter, n + 1)
  {
    if n > 0 {
      AdvanceShift(counter, n - 1);
    } else {
      assert TaskIds.Advance(counter, 0) == counter;
    }
  }

  /** A batch enters the list in order, the k-th task under the k-th identifier
      after the counter, whether or not the counter wraps. */
  lemma {:induction false} AppendIsBatch(s: State, names: seq<string>, host: string, k: nat)
    requires WellFormed(s) && k < |names|
    ensures var s' := Append(s, names, host);
            && |s.list| + k < |s'.list| && s'.list[|s.list| + k] == s.nextRef + k
            && s.nextRef + k in s'.heap
            && s'.heap[s.nextRef + k]
               == Task(TaskIds.Format(TaskIds.Advance(s.nextId, k + 1)), names[k], host, Pending, 0, 0, 0, None, "")
    decreases |names|
  {
    var s1 := AppendOne(s, names[0], host);
    AppendOneKeepsWellFormed(s, names[0], host);
    if k == 0 {
      AppendExtends(s1, names[1..], host);
      assert Append(s, names, host).list[|s.list|] == s1.list[|s.list|];
      assert TaskIds.Advance(s.nextId, 0) == s.nextId;
    } else {
      AppendIsBatch(s1, names[1..], host, k - 1);
      AdvanceShift(s.nextId, k);
    }
  }

  lemma {:induction false} AppendAdvances(s: State, names: seq<string>, host: string)
    requires s.nextId <= TaskIds.MAX_UINT64
    ensures Append(s, names, host).nextId == TaskIds.Advance(s.nextId, |names|)
    decreases |names|
  {
    if names != [] {
      AppendAdvances(AppendOne(s, names[0], host), names[1..], host);
      AdvanceShift(s.nextId, |names| - 1);
    }
  }

  /** The old records keep their identifiers. */
  ghost predicate KeepsOld(heap: map<nat, Task>, heap': map<nat, Task>, from: nat) {
    forall r :: r in heap ==> r < from && r in heap' && heap'[r].id == heap[r].id
  }

  ghost predicate OnlyNew(heap: map<nat, Task>, heap': map<nat, Task>, from: nat, n: nat) {
    forall r :: r in heap' ==> r in heap || from <= r < from + n
  }

  /** The new records have the next n identifiers, under references from `from` on. */
  ghost predicate Numbered(heap': map<nat, Task>, counter: nat, from: nat, n: nat)
    requires counter <= TaskIds.MAX_UINT64
  {
    forall r :: from <= r < from + n ==>
        r in heap' && heap'[r].id == TaskIds.Format(TaskIds.Advance(counter, r - from + 1))
  }

  ghost predicate Extended(heap: map<nat, Task>, heap': map<nat, Task>, counter: nat, from: nat, n: nat)
    requires counter <= TaskIds.MAX_UINT64
  {
    KeepsOld(heap, heap', from) && OnlyNew(heap, heap', from, n) && Numbered(heap', counter, from, n)
  }

  lemma NumberedByOneMore(heap': map<nat, Task>, counter: nat, from: nat, n: nat)
    requires counter <= TaskIds.MAX_UINT64 && Numbered(heap', TaskIds.Increment(counter), from + 1, n)
    requires from in heap' && heap'[from].id == TaskIds.Format(TaskIds.Increment(counter))
    ensures Numbered(heap', counter, from, n + 1)
  {
    forall r | from <= r < from + n + 1
      ensures r in heap' && heap'[r].id == TaskIds.Format(TaskIds.Advance(counter, r - from + 1))
    {
      AdvanceShift(counter, r - from);
      assert TaskIds.Advance(TaskIds.Increment(counter), 0) == TaskIds.Increment(counter);
    }
  }

  lemma ExtendedByOneMore(heap: map<nat, Task>, t: Task, heap': map<nat, Task>, counter: nat, from: nat, n: nat)
    requires counter <= TaskIds.MAX_UINT64 && RefsBelow(heap, from)
             && t.id == TaskIds.Format(TaskIds.Increment(counter))
    requires Extended(heap[from := t], heap', TaskIds.Increment(counter), from + 1, n)
    ensures Extended(heap, heap', counter, from, n + 1)
  {
    var heap1 := heap[from := t];
    assert from in heap1 && heap'[from].id == t.id;
    NumberedByOneMore(heap', counter, from, n);
    assert KeepsOld(heap, heap', from) by {
      assert forall r :: r in heap ==> r in heap1 && heap1[r] == heap[r];
    }
    assert OnlyNew(heap, heap', from, n + 1) by {
      assert forall r :: r in heap1 ==> r in heap || r == from;
    }
  }

  ghost predicate RefsBelow(heap: map<nat, Task>, from: nat) { forall r :: r in heap ==> r < from }

  lemma RefsBelowNext(heap: map<nat, Task>, from: nat, t: Task)
    requires RefsBelow(heap, from)
    ensures RefsBelow(heap[from := t], from + 1)
  {
  }

  lemma {:induction false} AppendExtended(s: State, names: seq<string>, host: string)
    requires s.nextId <= TaskIds.MAX_UINT64 && RefsBelow(s.heap, s.nextRef)
    ensures Extended(s.heap, Append(s, names, host).heap, s.nextId, s.nextRef, |names|)
    decreases |names|
  {
    if names != [] {
      var s1 := AppendOne(s, names[0], host);
      var t := NewTask(TaskIds.Increment(s.nextId), names[0], host);
      assert s1.heap == s.heap[s.nextRef := t] && s1.nextRef == s.nextRef + 1
             && s1.nextId == TaskIds.Increment(s.nextId);
      RefsBelowNext(s.heap, s.nextRef, t);
      AppendExtended(s1, names[1..], host);
      var heap' := Append(s1, names[1..], host).heap;
      assert heap' == Append(s, names, host).heap;
      ExtendedByOneMore(s.heap, t, heap', s.nextId, s.nextRef, |names| - 1);
    }
  }

  /** The batch is no longer than the counter's range, and meets none of the
      identifiers of the records there are. */
  ghost predicate BatchMeetsNone(counter: nat, n: nat, heap: map<nat, Task>) {
    n <= TaskIds.RANGE && forall r :: r in heap ==> !TaskIds.Collides(counter, n, heap[r].id)
  }

  lemma NewPairDiffers(heap: map<nat, Task>, heap': map<nat, Task>, counter: nat, from: nat, n: nat, p: nat, q: nat)
    requires counter <= TaskIds.MAX_UINT64 && Extended(heap, heap', counter, from, n)
    requires UniqueIds(heap) && BatchMeetsNone(counter, n, heap)
    requires p in heap' && q in heap' && p < q
    ensures heap'[p].id != heap'[q].id
  {
    if from <= p {
      TaskIds.BatchDistinct(counter, p - from + 1, q - from + 1);
    } else if from <= q {
      assert p in heap && q !in heap;
      TaskIds.NotIssued(counter, n, heap[p].id, q - from + 1);
    } else {
      assert p in heap && q in heap;
    }
  }

  lemma NewBatchStaysUnique(heap: map<nat, Task>, heap': map<nat, Task>, counter: nat, from: nat, n: nat)
    requires counter <= TaskIds.MAX_UINT64 && Extended(heap, heap', counter, from, n)
    requires UniqueIds(heap) && BatchMeetsNone(counter, n, heap)
    ensures UniqueIds(heap')
  {
    forall p, q | p in heap' && q in heap' && p != q ensures heap'[p].id != heap'[q].id {
      NewPairDiffers(heap, heap', counter, from, n, if p < q then p else q, if p < q then q else p);
    }
  }

  lemma LongBatchRepeats(heap': map<nat, Task>, counter: nat, from: nat, n: nat)
    requires counter <= TaskIds.MAX_UINT64 && Numbered(heap', counter, from, n) && n > TaskIds.RANGE
    ensures !UniqueIds(heap')
  {
    TaskIds.RangeRepeats(counter);
    assert heap'[from].id == heap'[from + TaskIds.RANGE].id;
  }

  lemma MeetingBatchRepeats(heap: map<nat, Task>, heap': map<nat, Task>, counter: nat, from: nat, n: nat, r: nat)
    requires counter <= TaskIds.MAX_UINT64 && Extended(heap, heap', counter, from, n)
    requires r in heap && TaskIds.Collides(counter, n, heap[r].id)
    ensures !UniqueIds(heap')
  {
    var k := TaskIds.CollidingIsIssued(counter, n, heap[r].id);
    assert heap'[from + k - 1].id == heap'[r].id;
  }

  lemma UniqueBatchIsNew(heap: map<nat, Task>, heap': map<nat, Task>, counter: nat, from: nat, n: nat)
    requires counter <= TaskIds.MAX_UINT64 && Extended(heap, heap', counter, from, n)
    ensures !BatchMeetsNone(counter, n, heap) ==> !UniqueIds(heap')
  {
    if n > TaskIds.RANGE {
      LongBatchRepeats(heap', counter, from, n);
    } else if !BatchMeetsNone(counter, n, heap) {
      var r :| r in heap && TaskIds.Collides(counter, n, heap[r].id);
      MeetingBatchRepeats(heap, heap', counter, from, n, r);
    }
  }

  /** AddTasks keeps the identifiers of all records distinct exactly if its batch
      is no longer than the counter's range and meets none of them. */
  lemma AppendStaysUniqueIff(s: State, names: seq<string>, host: string)
    requires WellFormed(s) && UniqueIds(s.heap)
    ensures UniqueIds(Append(s, names, host).heap) <==> BatchMeetsNone(s.nextId, |names|, s.heap)
  {
    var heap' := Append(s, names, host).heap;
    AppendExtended(s, names, host);
    if BatchMeetsNone(s.nextId, |names|, s.heap) {
      NewBatchStaysUnique(s.heap, heap', s.nextId, s.nextRef, |names|);
    }
    UniqueBatchIsNew(s.heap, heap', s.nextId, s.nextRef, |names|);
  }

  /* ---------- Listed identifiers ---------- */

  function ListedIds(heap: map<nat, Task>, list: seq<nat>): (ids: seq<string>)
    requires Covers(heap, list)
    ensures |ids| == |list| && forall i :: 0 <= i < |list| ==> ids[i] == heap[list[i]].id
  {
    IdsOf(Snapshot(heap, list))
  }

  lemma {:induction false} AppendLists(s: State, names: seq<string>, host: string)
    requires s.nextId <= TaskIds.MAX_UINT64 && Covers(s.heap, s.list) && RefsBelow(s.heap, s.nextRef)
    ensures var s' := Append(s, names, host);
            && Covers(s'.heap, s'.list)
            && ListedIds(s'.heap, s'.list) == ListedIds(s.heap, s.list) + TaskIds.Issued(s.nextId, |names|)
    decreases |names|
  {
    if names != [] {
      var s1 := AppendOne(s, names[0], host);
      var t := NewTask(TaskIds.Increment(s.nextId), names[0], host);
      assert s1.heap == s.heap[s.nextRef := t] && s1.list == s.list + [s.nextRef] && s1.nextRef == s.nextRef + 1;
      RefsBelowNext(s.heap, s.nextRef, t);
      ListedSnoc(s.heap, s.list, s.nextRef, t);
      AppendLists(s1, names[1..], host);
      IssuedCons(s.nextId, |names| - 1);
      Joined(ListedIds(s.heap, s.list), t.id, TaskIds.Issued(s1.nextId, |names| - 1));
    }
  }

  lemma ListedSnoc(heap: map<nat, Task>, list: seq<nat>, from: nat, t: Task)
    requires Covers(heap, list) && RefsBelow(heap, from)
    ensures Covers(heap[from := t], list + [from])
    ensures ListedIds(heap[from := t], list + [from]) == ListedIds(heap, list) + [t.id]
  {
  }

  lemma Joined(before: seq<string>, id: string, rest: seq<string>)
    ensures before + [id] + rest == before + ([id] + rest)
  {
  }

  lemma IssuedCons(counter: nat, n: nat)
    requires counter <= TaskIds.MAX_UINT64
    ensures TaskIds.Issued(counter, n + 1)
            == [TaskIds.Format(TaskIds.Increment(counter))] + TaskIds.Issued(TaskIds.Increment(counter), n)
  {
    forall k | 0 <= k < n + 1
      ensures TaskIds.Issued(counter, n + 1)[k]
              == ([TaskIds.Format(TaskIds.Increment(counter))] + TaskIds.Issued(TaskIds.Increment(counter), n))[k]
    {
      AdvanceShift(counter, k);
      assert TaskIds.Advance(TaskIds.Increment(counter), 0) == TaskIds.Increment(counter);
    }
  }

  /** With distinct listed identifiers, AddTasks keeps them distinct exactly if its
      batch is no longer than the counter's range and meets none of those listed. */
  lemma ListingStaysDistinctIff(s: State, names: seq<string>, host: string)
    requires WellFormed(s) && TaskIds.NoRepeats(ListedIds(s.heap, s.list))
    ensures var s' := Append(s, names, host);
            && Covers(s'.heap, s'.list)
            && (TaskIds.NoRepeats(ListedIds(s'.heap, s'.list))
                <==> TaskIds.BatchIsNew(s.nextId, |names|, ListedIds(s.heap, s.list)))
  {
    AppendLists(s, names, host);
    TaskIds.StayDistinctIff(ListedIds(s.heap, s.list), s.nextId, |names|);
  }

  /** A file that lists "0" and a number at or beyond the largest counter value. */
  function FullFile(n: nat): Disk {
    Disk([Task("0", "a", "h", Pending, 0, 0, 0, None, ""),
      Task(TaskIds.Format(n), "b", "h", Pending, 0, 0, 0, None, "")], 1)
  }

  lemma FullFileCounter(n: nat)
    requires n >= TaskIds.MAX_UINT64
    ensures HighestId(FullFile(n).tasks) == TaskIds.MAX_UINT64
  {
    if n > TaskIds.MAX_UINT64 {
      TaskIds.ParseOverflow(n);
    } else {
      TaskIds.ParseFormat(n);
    }
    assert FullFile(n).tasks[1] in FullFile(n).tasks;
  }

  lemma FullFileListing(n: nat)
    ensures var s := Load(FullFile(n), {}, false);
            Covers(s.heap, s.list) && ListedIds(s.heap, s.list) == ["0", TaskIds.Format(n)]
  {
  }

  lemma WrapIssuesZero()
    ensures TaskIds.Issued(TaskIds.MAX_UINT64, 1) == ["0"]
  {
    assert TaskIds.Advance(TaskIds.MAX_UINT64, 0) == TaskIds.MAX_UINT64;
  }

  /** It does happen: from such a file, the next task added is a second "0". */
  lemma WrapMakesDuplicate(n: nat)
    requires n >= TaskIds.MAX_UINT64
    ensures var s := Load(FullFile(n), {}, false);
            && WellFormed(s)
            && var s' := Next(s, AddTasks(["c"], "h"));
               Reachable(s') && Covers(s'.heap, s'.list) && ListedIds(s'.heap, s'.list) == ["0", TaskIds.Format(n), "0"]
  {
    var s := Load(FullFile(n), {}, false);
    LoadIsReachable(FullFile(n), {}, false);
    FullFileCounter(n);
    FullFileListing(n);
    ReachableNext(s, AddTasks(["c"], "h"));
    SecondZero(s, TaskIds.Format(n));
  }

  lemma SecondZero(s: State, other: string)
    requires WellFormed(s) && s.nextId == TaskIds.MAX_UINT64 && ListedIds(s.heap, s.list) == ["0", other]
    ensures var s' := Next(s, AddTasks(["c"], "h"));
            && Covers(s'.heap, s'.list)
            && ListedIds(s'.heap, s'.list) == ["0", other, "0"]
  {
    AppendLists(s, ["c"], "h");
    WrapIssuesZero();
  }
}
