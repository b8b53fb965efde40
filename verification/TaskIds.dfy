/** Task identifiers: decimal strings issued from a 64-bit counter, and the
    parser that restores the counter from whatever a state file holds. */
module TaskIds {

  const MAX_UINT64: nat := 0xFFFF_FFFF_FFFF_FFFF

  function Digit(d: nat): char
    requires d < 10
  {
    '0' + d as char
  }

  /** strconv.FormatUint(n, 10). */
  function Format(n: nat): string {
    if n < 10 then [Digit(n)] else Format(n / 10) + [Digit(n % 10)]
  }

  /** The scanning loop of strconv.ParseUint with its error ignored: a syntax
      error yields 0, an overflow yields the largest value, whichever the scan
      meets first. */
  function Scan(s: string, acc: nat): (value: nat)
    ensures acc <= MAX_UINT64 ==> value <= MAX_UINT64
    decreases |s|
  {
    if s == "" then acc
    else if !('0' <= s[0] <= '9') then 0
    else
      var next := acc * 10 + (s[0] as int - '0' as int);
      if next > MAX_UINT64 then MAX_UINT64 else Scan(s[1..], next)
  }

  function Parse(s: string): nat { Scan(s, 0) }

  lemma {:induction false} ScanFormat(n: nat, rest: string)
    requires n <= MAX_UINT64
    ensures Scan(Format(n) + rest, 0) == Scan(rest, n)
    decreases n
  {
    var last := [Digit(n % 10)];
    assert (last + rest)[1..] == rest;
    if n >= 10 {
      ScanFormat(n / 10, last + rest);
      assert Format(n) + rest == Format(n / 10) + (last + rest);
    }
  }

  /** Formatting and parsing are inverse over the whole counter range. */
  lemma ParseFormat(n: nat)
    requires n <= MAX_UINT64
    ensures Parse(Format(n)) == n
  {
    ScanFormat(n, "");
    assert Format(n) + "" == Format(n);
  }

  lemma {:induction false} ScanOverflow(n: nat, rest: string)
    requires n > MAX_UINT64
    ensures Scan(Format(n) + rest, 0) == MAX_UINT64
    decreases n
  {
    var last := [Digit(n % 10)];
    assert (last + rest)[1..] == rest;
    assert Format(n) + rest == Format(n / 10) + (last + rest);
    if n / 10 > MAX_UINT64 {
      ScanOverflow(n / 10, last + rest);
    } else {
      ScanFormat(n / 10, last + rest);
    }
  }

  /** A number too large for the counter sets it to its maximum. */
  lemma ParseOverflow(n: nat)
    requires n > MAX_UINT64
    ensures Parse(Format(n)) == MAX_UINT64
  {
    ScanOverflow(n, "");
    assert Format(n) + "" == Format(n);
  }

  /** qm.nextID++ on a uint64. */
  function Increment(counter: nat): (next: nat)
    requires counter <= MAX_UINT64
    ensures next <= MAX_UINT64
  {
    if counter == MAX_UINT64 then 0 else counter + 1
  }

  /** The counter after n increments. */
  function Advance(counter: nat, n: nat): (next: nat)
    requires counter <= MAX_UINT64
    ensures next <= MAX_UINT64
  {
    if n == 0 then counter else Increment(Advance(counter, n - 1))
  }

  lemma {:induction false} AdvanceWithoutWrap(counter: nat, n: nat)
    requires counter + n <= MAX_UINT64
    ensures Advance(counter, n) == counter + n
  {
    if n > 0 {
      AdvanceWithoutWrap(counter, n - 1);
    }
  }

  /** Every identifier of a batch of n lies above the counter exactly when the
      counter does not wrap inside the batch. */
  lemma BatchAboveCounterIff(counter: nat, n: nat)
    requires counter <= MAX_UINT64
    ensures (forall k :: 1 <= k <= n ==> Advance(counter, k) > counter) <==> counter + n <= MAX_UINT64
  {
    if counter + n <= MAX_UINT64 {
      forall k | 1 <= k <= n ensures Advance(counter, k) > counter {
        AdvanceWithoutWrap(counter, k);
      }
    } else {
      var k := MAX_UINT64 - counter + 1;
      AdvanceWithoutWrap(counter, k - 1);
      assert Advance(counter, k) == 0;
    }
  }

  /* ---------- Batches that may wrap ---------- */

  /** 2^64. */
  const RANGE: nat := MAX_UINT64 + 1

  lemma {:induction false} AdvanceIs(counter: nat, n: nat) returns (wraps: nat)
    requires counter <= MAX_UINT64
    ensures Advance(counter, n) == counter + n - wraps * RANGE
  {
    if n == 0 {
      wraps := 0;
    } else {
      wraps := AdvanceIs(counter, n - 1);
      if Advance(counter, n - 1) == MAX_UINT64 {
        wraps := wraps + 1;
      }
    }
  }

  /** How many increments take the counter to a value, one at least. */
  function Distance(counter: nat, value: nat): int {
    if value > counter then value - counter else value + RANGE - counter
  }

  /** The identifier is among the next n, however often the counter wraps. */
  predicate Collides(counter: nat, n: nat, id: string) {
    Format(Parse(id)) == id && Distance(counter, Parse(id)) <= n
  }

  lemma AdvanceByDistance(counter: nat, value: nat)
    requires counter <= MAX_UINT64 && value <= MAX_UINT64
    ensures Distance(counter, value) >= 1 && Advance(counter, Distance(counter, value)) == value
  {
    var wraps := AdvanceIs(counter, Distance(counter, value));
  }

  lemma DistanceIsShortest(counter: nat, k: nat)
    requires counter <= MAX_UINT64 && 1 <= k
    ensures Distance(counter, Advance(counter, k)) <= k
  {
    var wraps := AdvanceIs(counter, k);
  }

  lemma IssuedCollides(counter: nat, n: nat, k: nat)
    requires counter <= MAX_UINT64 && 1 <= k <= n
    ensures Collides(counter, n, Format(Advance(counter, k)))
  {
    ParseFormat(Advance(counter, k));
    DistanceIsShortest(counter, k);
  }

  lemma CollidingIsIssued(counter: nat, n: nat, id: string) returns (k: nat)
    requires counter <= MAX_UINT64 && Collides(counter, n, id)
    ensures 1 <= k <= n && Format(Advance(counter, k)) == id
  {
    AdvanceByDistance(counter, Parse(id));
    k := Distance(counter, Parse(id));
  }

  lemma CollidesIff(counter: nat, n: nat, id: string)
    requires counter <= MAX_UINT64
    ensures Collides(counter, n, id) <==> exists k :: 1 <= k <= n && Format(Advance(counter, k)) == id
  {
    if Collides(counter, n, id) {
      var k := CollidingIsIssued(counter, n, id);
    } else {
      forall k | 1 <= k <= n ensures Format(Advance(counter, k)) != id {
        IssuedCollides(counter, n, k);
      }
    }
  }

  lemma NotIssued(counter: nat, n: nat, id: string, k: nat)
    requires counter <= MAX_UINT64 && !Collides(counter, n, id) && 1 <= k <= n
    ensures Format(Advance(counter, k)) != id
  {
    IssuedCollides(counter, n, k);
  }

  lemma AdvanceDiffers(counter: nat, j: nat, k: nat)
    requires counter <= MAX_UINT64 && j < k < j + RANGE
    ensures Advance(counter, j) != Advance(counter, k)
  {
    var wj := AdvanceIs(counter, j);
    var wk := AdvanceIs(counter, k);
    if wk > wj {
      assert wk * RANGE >= wj * RANGE + RANGE;
    }
  }

  /** No two of a batch agree, unless it is longer than the counter's range. */
  lemma BatchDistinct(counter: nat, j: nat, k: nat)
    requires counter <= MAX_UINT64 && 1 <= j < k <= RANGE
    ensures Format(Advance(counter, j)) != Format(Advance(counter, k))
  {
    AdvanceDiffers(counter, j, k);
    ParseFormat(Advance(counter, j));
    ParseFormat(Advance(counter, k));
  }

  lemma RangeRepeats(counter: nat)
    requires counter <= MAX_UINT64
    ensures Advance(counter, 1 + RANGE) == Advance(counter, 1)
  {
    var w1 := AdvanceIs(counter, 1);
    var w2 := AdvanceIs(counter, 1 + RANGE);
  }

  /** The next n identifiers. */
  function Issued(counter: nat, n: nat): (ids: seq<string>)
    requires counter <= MAX_UINT64
    ensures |ids| == n && forall k :: 0 <= k < n ==> ids[k] == Format(Advance(counter, k + 1))
  {
    seq(n, k requires 0 <= k < n => Format(Advance(counter, k + 1)))
  }

  ghost predicate NoRepeats(ids: seq<string>) {
    forall i, j :: 0 <= i < j < |ids| ==> ids[i] != ids[j]
  }

  predicate BatchIsNew(counter: nat, n: nat, ids: seq<string>) {
    n <= RANGE && forall i :: 0 <= i < |ids| ==> !Collides(counter, n, ids[i])
  }

  lemma IssuedNoRepeats(counter: nat, n: nat)
    requires counter <= MAX_UINT64 && n <= RANGE
    ensures NoRepeats(Issued(counter, n))
  {
    forall j, k | 0 <= j < k < n ensures Issued(counter, n)[j] != Issued(counter, n)[k] {
      BatchDistinct(counter, j + 1, k + 1);
    }
  }

  lemma IssuedRepeats(counter: nat, n: nat)
    requires counter <= MAX_UINT64 && n > RANGE
    ensures Issued(counter, n)[0] == Issued(counter, n)[RANGE]
  {
    RangeRepeats(counter);
  }

  lemma IssuedMeetsIff(counter: nat, n: nat, id: string)
    requires counter <= MAX_UINT64
    ensures id in Issued(counter, n) <==> Collides(counter, n, id)
  {
    if Collides(counter, n, id) {
      var k := CollidingIsIssued(counter, n, id);
      assert Issued(counter, n)[k - 1] == id;
    } else {
      forall i | 0 <= i < n ensures Issued(counter, n)[i] != id {
        NotIssued(counter, n, id, i + 1);
      }
    }
  }

  lemma LongBatchRepeats(ids: seq<string>, counter: nat, n: nat)
    requires counter <= MAX_UINT64 && n > RANGE
    ensures !NoRepeats(ids + Issued(counter, n))
  {
    var all := ids + Issued(counter, n);
    IssuedRepeats(counter, n);
    assert all[|ids|] == all[|ids| + RANGE];
  }

  lemma MeetingBatchRepeats(ids: seq<string>, counter: nat, n: nat, i: nat)
    requires counter <= MAX_UINT64 && i < |ids| && Collides(counter, n, ids[i])
    ensures !NoRepeats(ids + Issued(counter, n))
  {
    var all := ids + Issued(counter, n);
    IssuedMeetsIff(counter, n, ids[i]);
    var k :| 0 <= k < n && Issued(counter, n)[k] == ids[i];
    assert all[|ids| + k] == all[i];
  }

  lemma NewBatchNoRepeats(ids: seq<string>, counter: nat, n: nat)
    requires counter <= MAX_UINT64 && NoRepeats(ids) && BatchIsNew(counter, n, ids)
    ensures NoRepeats(ids + Issued(counter, n))
  {
    var all := ids + Issued(counter, n);
    IssuedNoRepeats(counter, n);
    forall i, j | 0 <= i < j < |all| ensures all[i] != all[j] {
      if i < |ids| <= j {
        NotIssued(counter, n, ids[i], j - |ids| + 1);
      }
    }
  }

  /** Identifiers without repetition stay so under a batch exactly if it is no
      longer than the counter's range and meets none of them. */
  lemma StayDistinctIff(ids: seq<string>, counter: nat, n: nat)
    requires counter <= MAX_UINT64 && NoRepeats(ids)
    ensures NoRepeats(ids + Issued(counter, n)) <==> BatchIsNew(counter, n, ids)
  {
    if BatchIsNew(counter, n, ids) {
      NewBatchNoRepeats(ids, counter, n);
    } else if n > RANGE {
      LongBatchRepeats(ids, counter, n);
    } else {
      var i :| 0 <= i < |ids| && Collides(counter, n, ids[i]);
      MeetingBatchRepeats(ids, counter, n, i);
    }
  }

  /** What is not above the counter is out of reach of a batch that does not wrap. */
  lemma OldIsOutOfReach(counter: nat, n: nat, id: string)
    requires counter + n <= MAX_UINT64 && Parse(id) <= counter
    ensures !Collides(counter, n, id)
  {
  }
}
