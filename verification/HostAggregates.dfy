/** Per-host figures of a task list, defined the direct way: for each host, scan
    every task. */
module HostAggregates {
  import opened Tasks

  /** What GetHostStats pre-aggregates for one host. */
  datatype Aggregate = Aggregate(active: nat, speed: real)

  predicate Counts(t: Task, host: string) {
    t.host == host && (t.status == Running || t.status == Pending)
  }

  predicate HasCounted(records: seq<Task>, host: string) {
    exists i :: 0 <= i < |records| && Counts(records[i], host)
  }

  /** Bytes per second of a Running task; times are nanoseconds. */
  function SpeedOf(t: Task, now: int): real {
    if t.startedAt.Some? && t.bytesUploaded > 0 && now > t.startedAt.value
    then t.bytesUploaded as real / ((now - t.startedAt.value) as real / 1000000000.0)
    else 0.0
  }

  function ActiveTasks(records: seq<Task>, host: string): nat {
    if records == [] then 0
    else ActiveTasks(records[..|records| - 1], host)
         + (var t := records[|records| - 1]; if t.host == host && t.status == Running then 1 else 0)
  }

  function TotalSpeed(records: seq<Task>, host: string, now: int): real {
    if records == [] then 0.0
    else TotalSpeed(records[..|records| - 1], host, now)
         + (var t := records[|records| - 1]; if t.host == host && t.status == Running then SpeedOf(t, now) else 0.0)
  }

  function Direct(records: seq<Task>, host: string, now: int): Aggregate {
    Aggregate(ActiveTasks(records, host), TotalSpeed(records, host, now))
  }

  /** A one-pass table agrees with the direct definition for every host. */
  ghost predicate Agrees(table: map<string, Aggregate>, records: seq<Task>, now: int) {
    && (forall h :: h in table <==> HasCounted(records, h))
    && (forall h :: h in table ==> table[h] == Direct(records, h, now))
  }

  /** One task folded into the table. */
  function Fold(table: map<string, Aggregate>, t: Task, now: int): map<string, Aggregate> {
    if t.status != Running && t.status != Pending then table
    else
      var before := if t.host in table then table[t.host] else Aggregate(0, 0.0);
      var after := if t.status == Running then Aggregate(before.active + 1, before.speed + SpeedOf(t, now)) else before;
      table[t.host := after]
  }

  lemma {:induction false} NothingCounted(records: seq<Task>, host: string, now: int)
    requires !HasCounted(records, host)
    ensures Direct(records, host, now) == Aggregate(0, 0.0)
  {
    if records != [] {
      var n := |records| - 1;
      assert !Counts(records[n], host);
      forall i | 0 <= i < n ensures !Counts(records[..n][i], host) {
        assert !Counts(records[i], host);
      }
      NothingCounted(records[..n], host, now);
    }
  }

  lemma HasCountedAppend(records: seq<Task>, t: Task, host: string)
    ensures HasCounted(records + [t], host) <==> HasCounted(records, host) || Counts(t, host)
  {
    var all := records + [t];
    if Counts(t, host) {
      assert Counts(all[|records|], host);
    } else if HasCounted(records, host) {
      var i :| 0 <= i < |records| && Counts(records[i], host);
      assert Counts(all[i], host);
    }
  }

  /** Folding in the next task keeps the table in agreement. */
  lemma FoldAgrees(table: map<string, Aggregate>, records: seq<Task>, t: Task, now: int)
    requires Agrees(table, records, now)
    ensures Agrees(Fold(table, t, now), records + [t], now)
  {
    var all := records + [t];
    assert all[..|all| - 1] == records;
    var table' := Fold(table, t, now);
    forall h
      ensures h in table' <==> HasCounted(all, h)
      ensures h in table' ==> table'[h] == Direct(all, h, now)
    {
      HasCountedAppend(records, t, h);
      if !HasCounted(records, h) {
        NothingCounted(records, h, now);
      }
    }
  }

  /* ---------- What the figures say ---------- */

  /** The speed of an upload under way is what it has sent over the time it took, and
      zero where there is nothing to divide. */
  lemma SpeedIsBytesOverTime(t: Task, now: int)
    ensures SpeedOf(t, now) >= 0.0
    ensures t.startedAt.Some? && now > t.startedAt.value && t.bytesUploaded >= 0 ==>
              SpeedOf(t, now) * (now - t.startedAt.value) as real == t.bytesUploaded as real * 1000000000.0
    ensures t.startedAt.None? || now <= t.startedAt.value || t.bytesUploaded <= 0 ==> SpeedOf(t, now) == 0.0
  {
    if t.startedAt.Some? && t.bytesUploaded > 0 && now > t.startedAt.value {
      var bytes, elapsed := t.bytesUploaded as real, (now - t.startedAt.value) as real;
      QuotientOf(bytes, elapsed, 1000000000.0);
    }
  }

  lemma QuotientOf(x: real, y: real, unit: real)
    requires x >= 0.0 && y > 0.0 && unit > 0.0
    ensures y / unit > 0.0 && x / (y / unit) >= 0.0 && x / (y / unit) * y == x * unit
  {
    var q := y / unit;
    assert q * unit == y;
    assert q > 0.0;
    assert x / q * q == x;
    assert x / q * (q * unit) == (x / q * q) * unit;
  }

  /** A Running task of the host counts once and adds its speed; no other task adds
      anything. */
  lemma FiguresOfOneMore(records: seq<Task>, t: Task, host: string, now: int)
    ensures Direct([], host, now) == Aggregate(0, 0.0)
    ensures var before, after := Direct(records, host, now), Direct(records + [t], host, now);
            if t.host == host && t.status == Running
            then after.active == before.active + 1 && after.speed == before.speed + SpeedOf(t, now)
            else after == before
  {
    assert (records + [t])[..|records|] == records;
  }
}
