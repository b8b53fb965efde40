/** The waits between upload attempts. Durations are nanoseconds on an int64. */
module Backoff {

  const BASE_DELAY := 100_000_000
  const MAX_DELAY := 5_000_000_000
  const MAX_INT64 := 0x7FFF_FFFF_FFFF_FFFF
  const MAX_RETRIES_LIMIT := 100

  function Pow2(n: nat): nat { if n == 0 then 1 else 2 * Pow2(n - 1) }

  function MinInt(a: int, b: int): int { if a < b then a else b }

  /** 100 ms doubled after each failed attempt, capped at 5 s. */
  function Delay(attempt: int): int {
    if attempt <= 1 then BASE_DELAY else MinInt(MAX_DELAY, BASE_DELAY * Pow2(attempt - 1))
  }

  lemma {:induction false} Pow2Grows(m: nat, n: nat)
    requires m <= n
    ensures Pow2(m) <= Pow2(n)
    decreases n
  {
    if m < n {
      Pow2Grows(m, n - 1);
    }
  }

  lemma DelayInRange(attempt: int)
    ensures BASE_DELAY <= Delay(attempt) <= MAX_DELAY && Delay(attempt) % 4 == 0
  {
    if attempt > 1 {
      Pow2Grows(0, attempt - 1);
      assert BASE_DELAY * Pow2(attempt - 1) == 4 * (25_000_000 * Pow2(attempt - 1));
    }
  }

  /** Longer runs of failures never wait less, before jitter. */
  lemma DelayGrows(a: int, b: int)
    requires a <= b
    ensures Delay(a) <= Delay(b)
  {
    DelayInRange(b);
    if 1 < a {
      Pow2Grows(a - 1, b - 1);
    }
  }

  /** The doubling loop of retryDelay, which never leaves the int64 range. */
  method BaseDelay(attempt: int) returns (delay: int)
    ensures delay == Delay(attempt)
  {
    delay := BASE_DELAY;
    var i := 1;
    while i < attempt && delay < MAX_DELAY
      invariant 1 <= i && (i == 1 || i <= attempt)
      invariant delay == BASE_DELAY * Pow2(i - 1)
      invariant 0 < delay < 2 * MAX_DELAY <= MAX_INT64
      decreases attempt - i
    {
      delay := delay * 2;
      i := i + 1;
    }
    if i < attempt {
      Pow2Grows(i - 1, attempt - 1);
    }
    if delay > MAX_DELAY {
      delay := MAX_DELAY;
    }
  }

  /** retryDelay. `draw` is what rand.Int63n(delay / 2) returns. The jittered
      wait lies within a quarter of the delay, below it or above. */
  method RetryDelay(attempt: int, draw: int) returns (wait: int)
    requires 0 <= draw < Delay(attempt) / 2
    ensures 4 * wait >= 3 * Delay(attempt) && 4 * wait < 5 * Delay(attempt)
    ensures wait == Delay(attempt) - Delay(attempt) / 4 + draw
  {
    DelayInRange(attempt);
    var delay := BaseDelay(attempt);
    var jitter := draw - delay / 4;
    wait := delay + jitter;
  }

  /** The attempts processTask allows: three if unset, at most the limit. */
  function Attempts(maxRetries: int): (n: nat)
    ensures 1 <= n <= MAX_RETRIES_LIMIT
    ensures maxRetries > 0 ==> n <= maxRetries && (n == maxRetries || n == MAX_RETRIES_LIMIT)
    ensures maxRetries <= 0 ==> n == 3
  {
    if maxRetries > 0 then MinInt(maxRetries, MAX_RETRIES_LIMIT) else 3
  }

  function Sum(waits: seq<int>): int { if waits == [] then 0 else Sum(waits[..|waits| - 1]) + waits[|waits| - 1] }

  /** The waits after attempts 1, 2, ... are those of retryDelay. */
  ghost predicate JitteredWaits(waits: seq<int>) {
    forall i :: 0 <= i < |waits| ==> 3 * Delay(i + 1) <= 4 * waits[i] < 5 * Delay(i + 1)
  }

  /** All the waiting of a run stays below 6.25 s for each gap. */
  lemma {:induction false} WaitingIsBounded(waits: seq<int>)
    requires JitteredWaits(waits)
    ensures 0 <= Sum(waits) && 4 * Sum(waits) <= 5 * MAX_DELAY * |waits|
    ensures waits != [] ==> 4 * Sum(waits) < 5 * MAX_DELAY * |waits|
  {
    if waits != [] {
      var n := |waits| - 1;
      WaitingIsBounded(waits[..n]);
      DelayInRange(n + 1);
    }
  }
}
