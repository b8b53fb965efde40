/** What the login limiter guarantees over any run of the locked sections of any
    number of requests: a bound on all wrong passwords in a span of time, and one on
    those of a single address. */
module LoginSafety {
  import opened LoginLimiting

  /* ---------- Runs of locked sections ---------- */

  /** A section in the order of the lock: whether its request was let through to the
      comparison, and the state it left. */
  datatype Passage = Passage(section: Section, admitted: bool, after: LimiterState)

  function Before(s: LimiterState, run: seq<Passage>, i: nat): LimiterState
    requires i <= |run|
  {
    if i == 0 then s else run[i - 1].after
  }

  ghost predicate Passes(s: LimiterState, run: seq<Passage>) {
    forall i {:trigger Before(s, run, i)} :: 0 <= i < |run| ==>
      Step(Before(s, run, i), run[i].section, run[i].admitted, run[i].after)
  }

  ghost predicate ClockedFrom(run: seq<Passage>, start: int) {
    && (forall i :: 0 <= i < |run| ==> start <= run[i].section.now)
    && (forall i, j :: 0 <= i < j < |run| ==> run[i].section.now <= run[j].section.now)
  }

  /** The time of the last section. */
  function Clock(run: seq<Passage>, start: int): int { if run == [] then start else run[|run| - 1].section.now }

  /** The requests between their sections: admitted, and not at their second yet. */
  function Serving(run: seq<Passage>): int {
    if run == [] then 0
    else
      var last := run[|run| - 1];
      Serving(run[..|run| - 1]) + (if !last.section.First? then -1 else if last.admitted then 1 else 0)
  }

  /** Only admitted requests come to a second section, and never more than `most`
      requests are between their sections. */
  ghost predicate Served(run: seq<Passage>, most: nat) {
    forall n :: 0 <= n <= |run| ==> 0 <= Serving(run[..n]) <= most
  }

  lemma PassesPrefix(s: LimiterState, run: seq<Passage>, n: nat, start: int)
    requires n <= |run| && Passes(s, run) && ClockedFrom(run, start)
    ensures Passes(s, run[..n]) && ClockedFrom(run[..n], start)
  {
    forall i | 0 <= i < n
      ensures Step(Before(s, run[..n], i), run[..n][i].section, run[..n][i].admitted, run[..n][i].after)
    {
      assert Before(s, run[..n], i) == Before(s, run, i);
    }
  }

  lemma ServedPrefix(run: seq<Passage>, n: nat, most: nat)
    requires n <= |run| && Served(run, most)
    ensures Served(run[..n], most)
  {
    forall k | 0 <= k <= n ensures 0 <= Serving(run[..n][..k]) <= most {
      assert run[..n][..k] == run[..k];
    }
  }

  /* ---------- The global budget ---------- */

  /** A wrong password: when it was recorded, and in which window. */
  datatype Wrong = Wrong(time: int, window: int)

  /** All of a run. */
  function LogOf(run: seq<Passage>): seq<Wrong> {
    if run == [] then []
    else
      var last := run[|run| - 1];
      var log := LogOf(run[..|run| - 1]);
      if last.section.AfterWrong? then log + [Wrong(last.section.now, last.after.budget.windowStart)] else log
  }

  function InWindow(log: seq<Wrong>, window: int): nat {
    if log == [] then 0 else InWindow(log[..|log| - 1], window) + (if log[|log| - 1].window == window then 1 else 0)
  }

  /** Those in the span of one window length that begins at a. */
  function InSpan(log: seq<Wrong>, a: int): nat {
    if log == [] then 0
    else InSpan(log[..|log| - 1], a) + (if a <= log[|log| - 1].time <= a + WINDOW then 1 else 0)
  }

  /** Windows that differ start more than a window length apart, and what is
      logged in one happened before the next began. */
  ghost predicate Ordered(x: Wrong, y: Wrong) {
    x.time <= y.time && (x.window == y.window || (x.window + WINDOW < y.window && x.time <= y.window))
  }

  /** With at most `most` requests served at once, a window that is spent has room
      only for those already admitted when it was. */
  ghost predicate BudgetInv(b: Budget, log: seq<Wrong>, serving: int, clock: int, most: nat) {
    && (forall i :: 0 <= i < |log| ==> log[i].window <= log[i].time <= clock)
    && (forall i, j :: 0 <= i < j < |log| ==> Ordered(log[i], log[j]))
    && (forall i :: 0 <= i < |log| ==>
          log[i].window == b.windowStart || (log[i].window + WINDOW < b.windowStart && log[i].time <= b.windowStart))
    && b.windowStart <= clock && 0 <= serving <= most
    && (forall w :: InWindow(log, w) <= MAX_GLOBAL_FAILURES + most - 1)
    && CurrentWindowOk(b, log, serving, most)
  }

  ghost predicate CurrentWindowOk(b: Budget, log: seq<Wrong>, serving: int, most: nat) {
    && b.failures <= MAX_GLOBAL_FAILURES
    && (!Spent(b) ==> InWindow(log, b.windowStart) <= b.failures)
    && (Spent(b) ==> InWindow(log, b.windowStart) + serving <= MAX_GLOBAL_FAILURES + most - 1)
  }

  lemma {:induction false} NoneInWindow(log: seq<Wrong>, window: int)
    requires forall i :: 0 <= i < |log| ==> log[i].window != window
    ensures InWindow(log, window) == 0
  {
    if log != [] {
      NoneInWindow(log[..|log| - 1], window);
    }
  }

  lemma OpenedKeepsInv(b: Budget, log: seq<Wrong>, serving: int, clock: int, now: int, most: nat)
    requires BudgetInv(b, log, serving, clock, most) && clock <= now && most > 0
    ensures BudgetInv(Opened(b, now), log, serving, now, most)
  {
    if now - b.windowStart > WINDOW {
      NoneInWindow(log, now);
    }
  }

  lemma InWindowAppend(log: seq<Wrong>, entry: Wrong, w: int)
    ensures InWindow(log + [entry], w) == InWindow(log, w) + (if entry.window == w then 1 else 0)
  {
    assert (log + [entry])[..|log|] == log;
  }

  lemma LogStaysOrdered(b: Budget, log: seq<Wrong>, serving: int, now: int, most: nat)
    requires BudgetInv(b, log, serving, now, most)
    ensures var log' := log + [Wrong(now, b.windowStart)];
            forall i, j :: 0 <= i < j < |log'| ==> Ordered(log'[i], log'[j])
  {
    var log' := log + [Wrong(now, b.windowStart)];
    forall i, j | 0 <= i < j < |log'| ensures Ordered(log'[i], log'[j]) {
      assert log'[i] == log[i];
      assert j < |log| ==> Ordered(log[i], log[j]);
    }
  }

  lemma CountedKeepsInv(b: Budget, log: seq<Wrong>, serving: int, clock: int, now: int, most: nat)
    requires BudgetInv(b, log, serving, clock, most) && clock <= now && most > 0 && serving > 0
    ensures var b' := Counted(b, now); BudgetInv(b', log + [Wrong(now, b'.windowStart)], serving - 1, now, most)
  {
    OpenedKeepsInv(b, log, serving, clock, now, most);
    var current := Opened(b, now);
    var entry := Wrong(now, current.windowStart);
    LogStaysOrdered(current, log, serving, now, most);
    InWindowAppend(log, entry, current.windowStart);
    forall w ensures InWindow(log + [entry], w) <= MAX_GLOBAL_FAILURES + most - 1 {
      InWindowAppend(log, entry, w);
    }
  }

  /** One locked section keeps the account. */
  lemma SectionKeepsInv(s: LimiterState, p: Passage, log: seq<Wrong>, serving: int, clock: int, most: nat)
    requires BudgetInv(s.budget, log, serving, clock, most) && clock <= p.section.now && most > 0
    requires Step(s, p.section, p.admitted, p.after)
    requires if p.section.First? then p.admitted ==> serving < most else serving > 0
    ensures var log' := if p.section.AfterWrong? then log + [Wrong(p.section.now, p.after.budget.windowStart)] else log;
            var serving' := serving + (if !p.section.First? then -1 else if p.admitted then 1 else 0);
            BudgetInv(p.after.budget, log', serving', p.section.now, most)
  {
    match p.section
    case First(_, now) => OpenedKeepsInv(s.budget, log, serving, clock, now, most);
    case AfterWrong(_, now) => CountedKeepsInv(s.budget, log, serving, clock, now, most);
    case AfterRight(_, _) =>
  }

  lemma LastPassage(s: LimiterState, run: seq<Passage>, clock: int, most: nat)
    requires run != [] && Passes(s, run) && ClockedFrom(run, clock) && Served(run, most)
    ensures var n := |run| - 1;
            var before, p := Before(s, run, n), run[n];
            && Before(s, run[..n], n) == before && Before(s, run, n + 1) == p.after
            && Step(before, p.section, p.admitted, p.after) && Clock(run[..n], clock) <= p.section.now
            && (if p.section.First? then p.admitted ==> Serving(run[..n]) < most else Serving(run[..n]) > 0)
  {
    assert 0 <= Serving(run) <= most by { assert run[..|run|] == run; }
  }

  lemma {:induction false} InvAlongRun(s: LimiterState, run: seq<Passage>, clock: int, most: nat)
    requires BudgetInv(s.budget, [], 0, clock, most) && most > 0
    requires Passes(s, run) && ClockedFrom(run, clock) && Served(run, most)
    ensures BudgetInv(Before(s, run, |run|).budget, LogOf(run), Serving(run),
                      Clock(run, clock), most)
    decreases |run|
  {
    if run != [] {
      var n := |run| - 1;
      PassesPrefix(s, run, n, clock);
      ServedPrefix(run, n, most);
      InvAlongRun(s, run[..n], clock, most);
      LastPassage(s, run, clock, most);
      SectionKeepsInv(Before(s, run, n), run[n], LogOf(run[..n]), Serving(run[..n]), Clock(run[..n], clock), most);
    }
  }

  /** Events of a span lie in at most two windows. */
  lemma {:induction false} SpanWithinTwoWindows(log: seq<Wrong>, a: int, w1: int, w2: int)
    requires forall i :: 0 <= i < |log| && a <= log[i].time <= a + WINDOW ==> log[i].window == w1 || log[i].window == w2
    ensures InSpan(log, a) <= InWindow(log, w1) + InWindow(log, w2)
  {
    if log != [] {
      SpanWithinTwoWindows(log[..|log| - 1], a, w1, w2);
    }
  }

  lemma SpanBound(b: Budget, log: seq<Wrong>, serving: int, clock: int, a: int, most: nat)
    requires BudgetInv(b, log, serving, clock, most)
    ensures InSpan(log, a) <= 2 * (MAX_GLOBAL_FAILURES + most - 1)
  {
    if !exists i :: 0 <= i < |log| && a <= log[i].time <= a + WINDOW {
      SpanWithinTwoWindows(log, a, 0, 0);
    } else {
      var first := FirstInSpan(log, a);
      var last := LastInSpan(log, a);
      forall i | 0 <= i < |log| && a <= log[i].time <= a + WINDOW
        ensures log[i].window == log[first].window || log[i].window == log[last].window
      {
        if first < i < last {
          assert Ordered(log[first], log[i]) && Ordered(log[i], log[last]);
        }
      }
      SpanWithinTwoWindows(log, a, log[first].window, log[last].window);
    }
  }

  lemma FirstInSpan(log: seq<Wrong>, a: int) returns (k: nat)
    requires exists i :: 0 <= i < |log| && a <= log[i].time <= a + WINDOW
    ensures k < |log| && a <= log[k].time <= a + WINDOW
    ensures forall i :: 0 <= i < k ==> !(a <= log[i].time <= a + WINDOW)
  {
    k := 0;
    while !(a <= log[k].time <= a + WINDOW)
      invariant k < |log|
      invariant forall i :: 0 <= i < k ==> !(a <= log[i].time <= a + WINDOW)
      decreases |log| - k
    {
      k := k + 1;
    }
  }

  lemma LastInSpan(log: seq<Wrong>, a: int) returns (k: nat)
    requires exists i :: 0 <= i < |log| && a <= log[i].time <= a + WINDOW
    ensures k < |log| && a <= log[k].time <= a + WINDOW
    ensures forall i :: k < i < |log| ==> !(a <= log[i].time <= a + WINDOW)
  {
    k := |log| - 1;
    while !(a <= log[k].time <= a + WINDOW)
      invariant k < |log|
      invariant forall i :: k < i < |log| ==> !(a <= log[i].time <= a + WINDOW)
      decreases k
    {
      k := k - 1;
    }
  }

  /** The budget: whatever requests come, from whatever addresses, any span of
      one window length holds at most twice the budget of wrong passwords, if
      requests are served one at a time; and twice as many more as there are
      others served at once. */
  lemma AtMostTwiceTheBudget(run: seq<Passage>, start: int, a: int, most: nat)
    requires ZERO_TIME <= start && most > 0
    requires Passes(INITIAL, run) && ClockedFrom(run, start) && Served(run, most)
    ensures InSpan(LogOf(run), a) <= 2 * (MAX_GLOBAL_FAILURES + most - 1)
  {
    InvAlongRun(INITIAL, run, start, most);
    SpanBound(Before(INITIAL, run, |run|).budget, LogOf(run), Serving(run),
              Clock(run, start), a, most);
  }

  /* ---------- One address ---------- */

  /** Wrong passwords recorded for one address, each for a request that was let through
      when the entry stood as it does here. */
  ghost predicate Compared(a: LoginAttempt, times: seq<int>)
    decreases |times|
  {
    times != [] ==> times[0] >= a.blockedUntil && Compared(Failed(a, times[0]), times[1..])
  }

  /** The entry after all of them. */
  function FailedAll(a: LoginAttempt, times: seq<int>): LoginAttempt
    decreases |times|
  {
    if times == [] then a else FailedAll(Failed(a, times[0]), times[1..])
  }

  ghost predicate Sorted(times: seq<int>) {
    forall i, j :: 0 <= i < j < |times| ==> times[i] <= times[j]
  }

  /** From a counter below the limit, the block comes when the limit is reached. */
  lemma {:induction false} BlockComes(a: LoginAttempt, times: seq<int>)
    requires a.count < MAX_LOGIN_ATTEMPTS && |times| == MAX_LOGIN_ATTEMPTS - a.count + 1
    requires Compared(a, times) && Sorted(times)
    ensures times[|times| - 1] >= times[0] + BLOCK_DURATION
    decreases |times|
  {
    var b := Failed(a, times[0]);
    if b.count < MAX_LOGIN_ATTEMPTS {
      BlockComes(b, times[1..]);
    } else {
      assert times[1..][0] >= b.blockedUntil;
    }
  }

  lemma {:induction false} ComparedPrefix(a: LoginAttempt, times: seq<int>, n: nat)
    requires n <= |times| && Compared(a, times)
    ensures Compared(a, times[..n])
    decreases n
  {
    if n > 0 {
      ComparedPrefix(Failed(a, times[0]), times[1..], n - 1);
      assert times[..n][1..] == times[1..][..n - 1];
    }
  }

  lemma {:induction false} ComparedSuffix(a: LoginAttempt, times: seq<int>, n: nat)
    requires n <= |times| && Compared(a, times)
    ensures Compared(FailedAll(a, times[..n]), times[n..])
    decreases n
  {
    if n > 0 {
      ComparedSuffix(Failed(a, times[0]), times[1..], n - 1);
      assert times[..n][1..] == times[1..][..n - 1] && times[n..] == times[1..][n - 1..];
    }
  }

  lemma {:induction false} ComparedSnoc(a: LoginAttempt, times: seq<int>, time: int)
    requires Compared(a, times) && time >= FailedAll(a, times).blockedUntil
    ensures Compared(a, times + [time])
    ensures FailedAll(a, times + [time]) == Failed(FailedAll(a, times), time)
    decreases |times|
  {
    if times == [] {
      assert times + [time] == [time];
    } else {
      ComparedSnoc(Failed(a, times[0]), times[1..], time);
      assert (times + [time])[1..] == times[1..] + [time];
    }
  }

  /** However its counter stands, any six wrong passwords in a row from one
      address take at least the blocking time. */
  lemma SixGuessesTakeABlock(a: LoginAttempt, times: seq<int>)
    requires |times| == MAX_LOGIN_ATTEMPTS + 1 && Compared(a, times) && Sorted(times)
    ensures times[MAX_LOGIN_ATTEMPTS] >= times[0] + BLOCK_DURATION
  {
    var b := Failed(a, times[0]);
    if b.count < MAX_LOGIN_ATTEMPTS {
      var m := MAX_LOGIN_ATTEMPTS - b.count + 1;
      ComparedPrefix(b, times[1..], m);
      BlockComes(b, times[1..][..m]);
      assert times[1..][..m][m - 1] == times[m];
    } else {
      assert times[1..][0] >= b.blockedUntil;
    }
  }

  lemma {:induction false} RowsOfFiveTakeBlocks(a: LoginAttempt, times: seq<int>)
    requires times != [] && Compared(a, times) && Sorted(times)
    ensures times[|times| - 1] >= times[0] + (|times| - 1) / MAX_LOGIN_ATTEMPTS * BLOCK_DURATION
    decreases |times|
  {
    if |times| > MAX_LOGIN_ATTEMPTS {
      var n := MAX_LOGIN_ATTEMPTS;
      ComparedPrefix(a, times, n + 1);
      SixGuessesTakeABlock(a, times[..n + 1]);
      ComparedSuffix(a, times, n);
      RowsOfFiveTakeBlocks(FailedAll(a, times[..n]), times[n..]);
      assert times[n..][|times| - n - 1] == times[|times| - 1];
    }
  }

  /** And no block comes early: fewer than five wrong passwords after the entry is made
      leave the address unblocked, and the fifth blocks it. */
  lemma {:induction false} BlockComesAtTheFifth(times: seq<int>)
    requires |times| <= MAX_LOGIN_ATTEMPTS
    ensures var a := FailedAll(NEW_ATTEMPT, times);
            && a.count == |times|
            && a.blockedUntil == (if |times| < 5 then ZERO_TIME else times[4] + BLOCK_DURATION)
    decreases |times|
  {
    if times != [] {
      var n := |times| - 1;
      BlockComesAtTheFifth(times[..n]);
      FailedAllSnoc(NEW_ATTEMPT, times[..n], times[n]);
      assert times == times[..n] + [times[n]];
    }
  }

  lemma {:induction false} FailedAllSnoc(a: LoginAttempt, times: seq<int>, time: int)
    ensures FailedAll(a, times + [time]) == Failed(FailedAll(a, times), time)
    decreases |times|
  {
    if times == [] {
      assert times + [time] == [time];
    } else {
      FailedAllSnoc(Failed(a, times[0]), times[1..], time);
      assert (times + [time])[1..] == times[1..] + [time];
    }
  }

  /* ---------- One address in a run ---------- */

  /** When the wrong passwords of an address were recorded. */
  function WrongTimes(run: seq<Passage>, address: string): seq<int> {
    if run == [] then []
    else
      var e := run[|run| - 1].section;
      var times := WrongTimes(run[..|run| - 1], address);
      if e.AfterWrong? && e.address == address then times + [e.now] else times
  }

  /** The requests of the address do not overlap: a wrong password is recorded for the
      request whose first section was the last section of the address. */
  ghost predicate OneByOne(run: seq<Passage>, address: string) {
    forall i :: 0 <= i < |run| && run[i].section.AfterWrong? && run[i].section.address == address ==>
      exists j :: 0 <= j < i && FollowsAdmission(run, address, j, i)
  }

  ghost predicate FollowsAdmission(run: seq<Passage>, address: string, j: nat, i: nat)
    requires j < i < |run|
  {
    && run[j].section.First? && run[j].section.address == address && run[j].admitted
    && forall k :: j < k < i ==> run[k].section.address != address
  }

  /** Once listed, the address is neither evicted nor forgotten at a login. */
  ghost predicate StaysListed(s: LimiterState, run: seq<Passage>, address: string) {
    forall i {:trigger Before(s, run, i)} :: 0 <= i < |run| && address in Before(s, run, i).attempts ==>
      address in run[i].after.attempts
  }

  /** The entries agree up to the time of the last attempt. */
  predicate SameStanding(a: LoginAttempt, b: LoginAttempt) { a.count == b.count && a.blockedUntil == b.blockedUntil }

  /** A section that is not its wrong password leaves the standing of an address that
      stays listed. */
  lemma StandingKept(s: LimiterState, p: Passage, address: string)
    requires Step(s, p.section, p.admitted, p.after)
    requires address in s.attempts ==> address in p.after.attempts
    requires !(p.section.AfterWrong? && p.section.address == address)
    ensures SameStanding(EntryOf(p.after.attempts, address), EntryOf(s.attempts, address))
  {
  }

  lemma {:induction false} StandingBetween(s: LimiterState, run: seq<Passage>, address: string, j: nat, i: nat)
    requires Passes(s, run) && StaysListed(s, run, address) && j < i < |run| && FollowsAdmission(run, address, j, i)
    ensures SameStanding(EntryOf(Before(s, run, i).attempts, address), EntryOf(Before(s, run, j).attempts, address))
    decreases i
  {
    assert Step(Before(s, run, i - 1), run[i - 1].section, run[i - 1].admitted, run[i - 1].after);
    assert !(run[i - 1].section.AfterWrong? && run[i - 1].section.address == address);
    StandingKept(Before(s, run, i - 1), run[i - 1], address);
    if j < i - 1 {
      StandingBetween(s, run, address, j, i - 1);
    }
  }

  /** So a wrong password is recorded when the address is not blocked. */
  lemma RecordedUnblocked(s: LimiterState, run: seq<Passage>, address: string, start: int, i: nat)
    requires Passes(s, run) && ClockedFrom(run, start) && StaysListed(s, run, address) && OneByOne(run, address)
    requires i < |run| && run[i].section.AfterWrong? && run[i].section.address == address
    ensures run[i].section.now >= EntryOf(Before(s, run, i).attempts, address).blockedUntil
  {
    var j :| 0 <= j < i && FollowsAdmission(run, address, j, i);
    StandingBetween(s, run, address, j, i);
    assert Step(Before(s, run, j), run[j].section, run[j].admitted, run[j].after);
  }

  lemma OneByOnePrefix(s: LimiterState, run: seq<Passage>, address: string, n: nat)
    requires n <= |run| && OneByOne(run, address) && StaysListed(s, run, address)
    ensures OneByOne(run[..n], address) && StaysListed(s, run[..n], address)
  {
    forall i | 0 <= i < n && run[..n][i].section.AfterWrong? && run[..n][i].section.address == address
      ensures exists j :: 0 <= j < i && FollowsAdmission(run[..n], address, j, i)
    {
      var j :| 0 <= j < i && FollowsAdmission(run, address, j, i);
      assert FollowsAdmission(run[..n], address, j, i);
    }
    forall i | 0 <= i < n && address in Before(s, run[..n], i).attempts ensures address in run[..n][i].after.attempts {
      assert Before(s, run[..n], i) == Before(s, run, i);
    }
  }

  ghost predicate UpTo(times: seq<int>, clock: int) {
    forall i :: 0 <= i < |times| ==> times[i] <= clock
  }

  lemma {:induction false} WrongTimesClocked(run: seq<Passage>, address: string, start: int)
    requires ClockedFrom(run, start)
    ensures Sorted(WrongTimes(run, address))
    ensures UpTo(WrongTimes(run, address), Clock(run, start))
  {
    if run != [] {
      var n := |run| - 1;
      var times := WrongTimes(run[..n], address);
      WrongTimesClocked(run[..n], address, start);
      assert Clock(run[..n], start) <= run[n].section.now;
    }
  }

  /** In the account of the address, every wrong password of the run was compared while
      the address was not blocked. */
  lemma {:induction false} RunIsCompared(s: LimiterState, run: seq<Passage>, address: string, start: int)
    requires Passes(s, run) && ClockedFrom(run, start) && StaysListed(s, run, address) && OneByOne(run, address)
    ensures Compared(EntryOf(s.attempts, address), WrongTimes(run, address))
    ensures SameStanding(EntryOf(Before(s, run, |run|).attempts, address),
                         FailedAll(EntryOf(s.attempts, address), WrongTimes(run, address)))
    decreases |run|
  {
    if run != [] {
      var n, a := |run| - 1, EntryOf(s.attempts, address);
      var before, times := Before(s, run, n), WrongTimes(run[..n], address);
      PassesPrefix(s, run, n, start);
      OneByOnePrefix(s, run, address, n);
      RunIsCompared(s, run[..n], address, start);
      assert Before(s, run[..n], n) == before;
      assert Step(before, run[n].section, run[n].admitted, run[n].after);
      if run[n].section.AfterWrong? && run[n].section.address == address {
        RecordedUnblocked(s, run, address, start, n);
        ComparedSnoc(a, times, run[n].section.now);
      } else {
        StandingKept(before, run[n], address);
      }
    }
  }

  /** Whatever other requests come in between, n wrong passwords from one address, one
      request at a time, take at least one blocking time for each five after the
      first. */
  lemma GuessesAreSlow(s: LimiterState, run: seq<Passage>, address: string, start: int)
    requires Passes(s, run) && ClockedFrom(run, start) && StaysListed(s, run, address) && OneByOne(run, address)
    requires WrongTimes(run, address) != []
    ensures var times := WrongTimes(run, address);
            times[|times| - 1] >= times[0] + (|times| - 1) / MAX_LOGIN_ATTEMPTS * BLOCK_DURATION
  {
    RunIsCompared(s, run, address, start);
    WrongTimesClocked(run, address, start);
    RowsOfFiveTakeBlocks(EntryOf(s.attempts, address), WrongTimes(run, address));
  }
}
