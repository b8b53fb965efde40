/** The adaptive rate limiter: additive patience, multiplicative decrease and
    increase between a floor and a cap. Rates are bytes per second as reals,
    latencies are nanoseconds. */
module RateLimiting {

  /** rate.Inf is the largest finite float64. */
  const INF: real := 9007199254740991.0 * TwoTo(971)

  function TwoTo(n: nat): real { if n == 0 then 1.0 else 2.0 * TwoTo(n - 1) }

  /** The adjustable state of a Limiter. */
  datatype Gauge = Gauge(
    current: real,
    maxLimit: real,
    minLimit: real,
    maxLatency: int,
    lastLatency: int,
    consecutiveLow: nat)

  /** Below this many bytes per second a transfer would stall. */
  const ABSOLUTE_FLOOR := 1024.0

  function Max(x: real, y: real): real { if x < y then y else x }
  function Min(x: real, y: real): real { if x < y then x else y }

  function Floor(g: Gauge): real { Max(g.minLimit, ABSOLUTE_FLOOR) }

  function Effective(newLimit: real): real { if newLimit == 0.0 then INF else newLimit }

  function Configured(g: Gauge, newLimit: real, newMinLimit: real, newMaxLatency: int): Gauge {
    var effective := Effective(newLimit);
    Gauge(effective, effective, newMinLimit, newMaxLatency, g.lastLatency, 0)
  }

  /** One latency sample. */
  function Recorded(g: Gauge, latency: int): Gauge {
    var seen := g.(lastLatency := latency);
    if g.maxLatency <= 0 then seen
    else if latency > g.maxLatency
      then seen.(current := Max(Max(g.current * 0.8, g.minLimit), ABSOLUTE_FLOOR), consecutiveLow := 0)
    else if g.current >= g.maxLimit then seen
    else if g.consecutiveLow + 1 < 5 then seen.(consecutiveLow := g.consecutiveLow + 1)
    else
      var raised := if g.current < g.maxLimit * 0.1 then g.current * 1.5 else g.current * 1.2;
      seen.(current := Min(raised, g.maxLimit), consecutiveLow := 0)
  }

  /** The limiter object. `limit` stands for the rate of the token bucket it
      drives, `burst` for the bucket's size, fixed at creation. */
  class Limiter {
    var limit: real
    const burst: int
    var maxLimit: real
    var minLimit: real
    var maxLatency: int
    var lastLatency: int
    var consecutiveLow: nat

    ghost function State(): Gauge
      reads this
    {
      Gauge(limit, maxLimit, minLimit, maxLatency, lastLatency, consecutiveLow)
    }

    constructor (limit: real, burst: int, minLimit: real, maxLatency: int)
      ensures State() == Gauge(limit, limit, minLimit, maxLatency, 0, 0) && this.burst == burst
    {
      this.limit := limit;
      this.burst := burst;
      this.maxLimit := limit;
      this.minLimit := minLimit;
      this.maxLatency := maxLatency;
      this.lastLatency := 0;
      this.consecutiveLow := 0;
    }

    method UpdateConfig(newLimit: real, newMinLimit: real, newMaxLatency: int)
      modifies this
      ensures State() == Configured(old(State()), newLimit, newMinLimit, newMaxLatency)
      ensures limit == maxLimit == (if newLimit == 0.0 then INF else newLimit)
      ensures minLimit == newMinLimit && maxLatency == newMaxLatency
      ensures lastLatency == old(lastLatency) && consecutiveLow == 0
    {
      var effective := newLimit;
      if effective == 0.0 {
        effective := INF;
      }
      maxLimit := effective;
      minLimit := newMinLimit;
      maxLatency := newMaxLatency;
      limit := effective;
      consecutiveLow := 0;
    }

    /** The rate moves only where a limit on the latency is set: down by a fifth, but not
        below either floor, at a sample above it; and up at the fifth good sample in a
        row below the cap, by a half below a tenth of the cap and by a fifth above,
        but not over the cap. */
    method RecordLatency(latency: int)
      modifies this
      ensures State() == Recorded(old(State()), latency)
      ensures lastLatency == latency
      ensures maxLimit == old(maxLimit) && minLimit == old(minLimit) && maxLatency == old(maxLatency)
      ensures maxLatency <= 0 || (latency <= maxLatency && old(limit) >= maxLimit) ==>
                limit == old(limit) && consecutiveLow == old(consecutiveLow)
      ensures 0 < maxLatency < latency ==>
                && limit >= old(limit) * 0.8 && limit >= minLimit && limit >= 1024.0
                && (limit == old(limit) * 0.8 || limit == minLimit || limit == 1024.0)
                && consecutiveLow == 0
      ensures maxLatency > 0 && latency <= maxLatency && old(limit) < maxLimit && old(consecutiveLow) < 4 ==>
                limit == old(limit) && consecutiveLow == old(consecutiveLow) + 1
      ensures maxLatency > 0 && latency <= maxLatency && old(limit) < maxLimit && old(consecutiveLow) >= 4 ==>
                && consecutiveLow == 0
                && var raised := old(limit) * (if old(limit) * 10.0 < maxLimit then 1.5 else 1.2);
                   limit == if raised > maxLimit then maxLimit else raised
    {
      lastLatency := latency;
      var currentLimit := limit;
      if maxLatency <= 0 {
        return;
      }
      if latency > maxLatency {
        var newLimit := currentLimit * 0.8;
        if newLimit < minLimit {
          newLimit := minLimit;
        }
        if newLimit < 1024.0 {
          newLimit := 1024.0;
        }
        limit := newLimit;
        consecutiveLow := 0;
      } else if currentLimit < maxLimit {
        consecutiveLow := consecutiveLow + 1;
        if consecutiveLow >= 5 {
          var multiplier := 1.2;
          if currentLimit < maxLimit * 0.1 {
            multiplier := 1.5;
          }
          var newLimit := currentLimit * multiplier;
          if newLimit > maxLimit {
            newLimit := maxLimit;
          }
          limit := newLimit;
          consecutiveLow := 0;
        }
      }
    }

    /** The waits a throttled read of n bytes asks the bucket for, when the context
        lets the first `granted` of them through. Each fits the bucket, so none is
        refused for size. The read succeeds exactly if that many suffice; then the
        waits pay for it, and otherwise the last of them is the one that failed. */
    method Chunks(n: nat, granted: nat) returns (waits: seq<int>, ok: bool)
      requires burst > 0
      ensures forall i :: 0 <= i < |waits| ==> 0 < waits[i] <= burst
      ensures ok <==> n <= granted * burst
      ensures ok ==> Total(waits) == n && (waits == [] || (|waits| - 1) * burst < n)
      ensures !ok ==> |waits| == granted + 1 && granted * burst < Total(waits) <= n
    {
      waits := [];
      var remaining := n;
      while remaining > 0
        invariant 0 <= remaining <= n && |waits| <= granted
        invariant forall i :: 0 <= i < |waits| ==> 0 < waits[i] <= burst
        invariant Total(waits) == n - remaining
        invariant remaining > 0 ==> n - remaining == |waits| * burst
        invariant waits == [] || (|waits| - 1) * burst < n
        invariant n - remaining <= |waits| * burst
        decreases remaining
      {
        var waitN := remaining;
        if waitN > burst {
          waitN := burst;
        }
        TotalAppend(waits, waitN);
        OneMoreWait(|waits|, burst);
        waits := waits + [waitN];
        if |waits| > granted {
          return waits, false;
        }
        remaining := remaining - waitN;
      }
      MoreWaits(|waits|, granted, burst);
      ok := true;
    }
  }

  function Total(s: seq<int>): int { if s == [] then 0 else s[0] + Total(s[1..]) }

  lemma MoreWaits(k: nat, m: nat, burst: int)
    requires k <= m && burst > 0
    ensures k * burst <= m * burst
  {
  }

  lemma OneMoreWait(k: nat, burst: int)
    ensures (k + 1) * burst == k * burst + burst
  {
  }

  lemma {:induction false} TotalAppend(s: seq<int>, x: int)
    ensures Total(s + [x]) == Total(s) + x
  {
    if s == [] {
      assert s + [x] == [x];
    } else {
      TotalAppend(s[1..], x);
      assert (s + [x])[1..] == s[1..] + [x];
    }
  }

  /* ---------- The control law ---------- */

  datatype Input = Sample(latency: int) | Update(limit: real, minLimit: real, maxLatency: int)

  function After(g: Gauge, inputs: seq<Input>): Gauge
    decreases |inputs|
  {
    if inputs == [] then g
    else
      var last := inputs[|inputs| - 1];
      var before := After(g, inputs[..|inputs| - 1]);
      match last
      case Sample(latency) => Recorded(before, latency)
      case Update(limit, minLimit, maxLatency) => Configured(before, limit, minLimit, maxLatency)
  }

  predicate InBand(g: Gauge) { Floor(g) <= g.current <= g.maxLimit && g.consecutiveLow < 5 }

  /** A configuration whose floor does not exceed its cap. */
  predicate Sensible(input: Input) {
    input.Update? ==> Max(input.minLimit, ABSOLUTE_FLOOR) <= Effective(input.limit)
  }

  /** From a fresh sensible limiter the rate stays between floor and cap, over
      any mix of samples and sensible updates. */
  lemma {:induction false} RateStaysInBand(limit: real, minLimit: real, maxLatency: int, inputs: seq<Input>)
    requires Max(minLimit, ABSOLUTE_FLOOR) <= limit
    requires forall i :: 0 <= i < |inputs| ==> Sensible(inputs[i])
    ensures InBand(After(Gauge(limit, limit, minLimit, maxLatency, 0, 0), inputs))
    decreases |inputs|
  {
    if inputs != [] {
      RateStaysInBand(limit, minLimit, maxLatency, inputs[..|inputs| - 1]);
    }
  }

  /** The cap alone survives a high sample exactly when the floor is not above
      it: a floor configured above the cap pushes the rate over the cap. */
  lemma HighSampleKeepsCapIff(g: Gauge, latency: int)
    requires 0.0 <= g.current <= g.maxLimit && latency > g.maxLatency > 0
    ensures Recorded(g, latency).current <= g.maxLimit <==> Floor(g) <= g.maxLimit
  {
  }

  /** cur * 0.8^n and cur * 1.2^n. */
  function Lowered(cur: real, n: nat): real { if n == 0 then cur else Lowered(cur, n - 1) * 0.8 }
  function Raised(cur: real, n: nat): real { if n == 0 then cur else Raised(cur, n - 1) * 1.2 }

  ghost predicate AllHigh(g: Gauge, latencies: seq<int>) {
    forall i :: 0 <= i < |latencies| ==> latencies[i] > g.maxLatency > 0
  }

  ghost predicate AllGood(g: Gauge, latencies: seq<int>) {
    g.maxLatency > 0 && forall i :: 0 <= i < |latencies| ==> latencies[i] <= g.maxLatency
  }

  function Samples(latencies: seq<int>): (inputs: seq<Input>)
    ensures |inputs| == |latencies| && forall i :: 0 <= i < |latencies| ==> inputs[i] == Sample(latencies[i])
  {
    seq(|latencies|, i requires 0 <= i < |latencies| => Sample(latencies[i]))
  }

  lemma AfterSample(g: Gauge, latencies: seq<int>)
    requires latencies != []
    ensures After(g, Samples(latencies))
            == Recorded(After(g, Samples(latencies[..|latencies| - 1])), latencies[|latencies| - 1])
  {
    var n := |latencies| - 1;
    assert Samples(latencies)[..n] == Samples(latencies[..n]);
  }

  /** n high samples in a row leave exactly max(floor, cur * 0.8^n). */
  lemma {:induction false} HighSamplesDecay(g: Gauge, latencies: seq<int>)
    requires InBand(g) && AllHigh(g, latencies)
    ensures var g' := After(g, Samples(latencies));
            && g'.current == Max(Floor(g), Lowered(g.current, |latencies|))
            && g'.minLimit == g.minLimit && g'.maxLimit == g.maxLimit && g'.maxLatency == g.maxLatency
    decreases |latencies|
  {
    if latencies != [] {
      HighSamplesDecay(g, latencies[..|latencies| - 1]);
      AfterSample(g, latencies);
    }
  }

  ghost predicate SameSettings(g: Gauge, g': Gauge) {
    g'.minLimit == g.minLimit && g'.maxLimit == g.maxLimit && g'.maxLatency == g.maxLatency
  }

  /** The rate after n raises, none beyond the cap. */
  function Climbed(cur: real, cap: real, n: nat): real {
    if n == 0 then cur
    else
      var before := Climbed(cur, cap, n - 1);
      if before >= cap then before
      else Min(cap, if before * 10.0 < cap then before + before / 2.0 else before + before / 5.0)
  }

  /** A good sample raises the rate when it completes a row of five, and is otherwise
      counted towards the row. */
  lemma GoodSample(g: Gauge, latency: int)
    requires InBand(g) && 0 < g.maxLatency && latency <= g.maxLatency
    ensures var g' := Recorded(g, latency);
            && InBand(g') && SameSettings(g, g')
            && (g.current == g.maxLimit ==> g'.current == g.maxLimit)
            && (g.current < g.maxLimit && g.consecutiveLow < 4 ==>
                  g'.current == g.current && g'.consecutiveLow == g.consecutiveLow + 1)
            && (g.current < g.maxLimit && g.consecutiveLow == 4 ==>
                  g'.current == Climbed(g.current, g.maxLimit, 1) && g'.consecutiveLow == 0)
  {
  }

  /** How far k good samples, counted from a full row, have brought the rate up
      from `start`, with the patience towards the next row. */
  predicate ClimbedBy(g: Gauge, start: real, k: nat) {
    && (g.current == g.maxLimit || g.consecutiveLow == k % 5)
    && g.current == Climbed(start, g.maxLimit, k / 5)
  }

  lemma OneMoreGoodSample(g: Gauge, latency: int, start: real, k: nat)
    requires InBand(g) && 0 < g.maxLatency && latency <= g.maxLatency && ClimbedBy(g, start, k)
    ensures ClimbedBy(Recorded(g, latency), start, k + 1)
  {
    GoodSample(g, latency);
    if k % 5 == 4 {
      assert (k + 1) / 5 == k / 5 + 1;
    } else {
      assert (k + 1) / 5 == k / 5;
    }
  }

  /** After k good samples the rate is exactly that of (c + k) / 5 raises, where c is
      the patience already accumulated. */
  lemma {:induction false} GoodSamplesClimb(g: Gauge, latencies: seq<int>)
    requires InBand(g) && AllGood(g, latencies)
    ensures var g' := After(g, Samples(latencies));
            && InBand(g') && SameSettings(g, g')
            && (g'.current == g'.maxLimit || g'.consecutiveLow == (g.consecutiveLow + |latencies|) % 5)
            && g'.current == Climbed(g.current, g.maxLimit, (g.consecutiveLow + |latencies|) / 5)
    decreases |latencies|
  {
    if latencies != [] {
      var n := |latencies| - 1;
      GoodSamplesClimb(g, latencies[..n]);
      AfterSample(g, latencies);
      var before := After(g, Samples(latencies[..n]));
      GoodSample(before, latencies[n]);
      OneMoreGoodSample(before, latencies[n], g.current, g.consecutiveLow + n);
    }
  }

  /** Each raise adds a fifth at least, up to the cap. */
  lemma {:induction false} ClimbedAtLeast(cur: real, cap: real, n: nat)
    requires 0.0 <= cur <= cap
    ensures 0.0 <= Raised(cur, n) && Min(cap, Raised(cur, n)) <= Climbed(cur, cap, n) <= cap
  {
    if n > 0 {
      ClimbedAtLeast(cur, cap, n - 1);
    }
  }

  /** 5n good samples restore the cap whenever n raises by a fifth would. */
  lemma GoodSamplesRestoreCap(g: Gauge, latencies: seq<int>, n: nat)
    requires InBand(g) && AllGood(g, latencies) && |latencies| == 5 * n
    requires Raised(g.current, n) >= g.maxLimit
    ensures After(g, Samples(latencies)).current == g.maxLimit
  {
    GoodSamplesClimb(g, latencies);
    ClimbedAtLeast(g.current, g.maxLimit, n);
    assert (g.consecutiveLow + 5 * n) / 5 == n;
  }
}
