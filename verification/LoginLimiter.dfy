/** The login limiter: a bounded table of attempts per address, and a global
    budget of wrong passwords per window. Times are nanoseconds on a clock that
    never goes back. A request passes two locked sections, with the comparison of
    the password in between; any number of requests may be in between at once. */
module LoginLimiting {
  import opened Maps

  const MAX_LOGIN_ATTEMPTS := 5
  const BLOCK_DURATION := 900_000_000_000
  const MAX_ENTRIES := 1000
  const IDLE_TIMEOUT := 900_000_000_000
  const MAX_GLOBAL_FAILURES := 100
  const WINDOW := 900_000_000_000

  datatype LoginAttempt = LoginAttempt(count: nat, blockedUntil: int, lastAttempt: int)

  /** time.Time{} lies before every clock reading. */
  const ZERO_TIME := -62_135_596_800_000_000_000

  const NEW_ATTEMPT := LoginAttempt(0, ZERO_TIME, ZERO_TIME)

  /** The global counters. */
  datatype Budget = Budget(failures: nat, windowStart: int)

  datatype LimiterState = LimiterState(attempts: map<string, LoginAttempt>, budget: Budget)

  const INITIAL := LimiterState(map[], Budget(0, ZERO_TIME))

  function EntryOf(attempts: map<string, LoginAttempt>, address: string): LoginAttempt {
    if address in attempts then attempts[address] else NEW_ATTEMPT
  }

  /** globalLoginBlockedLocked: opens a new window if the last one is over. */
  function Opened(b: Budget, now: int): Budget {
    if now - b.windowStart > WINDOW then Budget(0, now) else b
  }

  predicate Spent(b: Budget) { b.failures >= MAX_GLOBAL_FAILURES }

  /** A wrong password, as the global budget counts it. */
  function Counted(b: Budget, now: int): Budget {
    var current := Opened(b, now);
    if Spent(current) then current else current.(failures := current.failures + 1)
  }

  /** One more wrong password from an address. */
  function Failed(a: LoginAttempt, now: int): LoginAttempt {
    var count := (if now > a.blockedUntil && a.count >= MAX_LOGIN_ATTEMPTS then 0 else a.count) + 1;
    LoginAttempt(count, if count >= MAX_LOGIN_ATTEMPTS then now + BLOCK_DURATION else a.blockedUntil, now)
  }

  predicate Idle(a: LoginAttempt, now: int) { now > a.blockedUntil && now - a.lastAttempt > IDLE_TIMEOUT }

  /** Blocked, or seen within the idle timeout. */
  predicate Busy(a: LoginAttempt, now: int) { a.blockedUntil >= now || a.lastAttempt + IDLE_TIMEOUT >= now }

  /** A section leaves the table bounded, with this entry for its address. No other
      address is touched, except to make room for a new one in a full table. */
  ghost predicate Tabled(before: map<string, LoginAttempt>, after: map<string, LoginAttempt>, address: string,
                         entry: LoginAttempt) {
    && |after| <= MAX_ENTRIES
    && address in after && after[address] == entry
    && (forall k :: k in after && k != address ==> k in before && after[k] == before[k])
    && (address in before || |before| < MAX_ENTRIES ==> forall k :: k in before ==> k in after)
  }

  /** Then the idle ones go, or, if none is idle, any one of them. */
  ghost predicate EvictsIdleFirst(before: map<string, LoginAttempt>, after: map<string, LoginAttempt>, address: string,
                                  now: int) {
    && (forall k :: k in before && k !in after && Busy(before[k], now) ==>
          forall j :: j in before && j != k ==> Busy(before[j], now) && j in after)
    && (address !in before && |before| >= MAX_ENTRIES ==>
          forall k :: k in after && k != address ==> Busy(after[k], now))
  }

  /** The locked sections of a request, each at the time it is entered: before the
      comparison, and after a wrong or the right password. */
  datatype Section =
    | First(address: string, now: int)
    | AfterWrong(address: string, now: int)
    | AfterRight(address: string, now: int)

  /** What a section does. A first one lets its request through to the comparison
      exactly if its address is not blocked and the budget of the window is not
      spent. */
  ghost predicate Step(s: LimiterState, e: Section, admitted: bool, s': LimiterState) {
    match e
    case First(address, now) =>
      var entry := EntryOf(s.attempts, address);
      && Tabled(s.attempts, s'.attempts, address, entry.(lastAttempt := now))
      && s'.budget == (if now < entry.blockedUntil then s.budget else Opened(s.budget, now))
      && admitted == (now >= entry.blockedUntil && !Spent(s'.budget))
    case AfterWrong(address, now) =>
      && Tabled(s.attempts, s'.attempts, address, Failed(EntryOf(s.attempts, address), now))
      && s'.budget == Counted(s.budget, now) && !admitted
    case AfterRight(address, _) =>
      s' == LimiterState(s.attempts - {address}, s.budget) && !admitted
  }

  class LoginLimiter {
    var attempts: map<string, LoginAttempt>
    var failures: nat
    var windowStart: int

    ghost function State(): LimiterState
      reads this
    {
      LimiterState(attempts, Budget(failures, windowStart))
    }

    constructor ()
      ensures State() == INITIAL
    {
      attempts, failures, windowStart := map[], 0, ZERO_TIME;
    }

    /** globalLoginBlockedLocked. */
    method GlobalBlocked(now: int) returns (blocked: bool)
      modifies `failures, `windowStart
      ensures Budget(failures, windowStart) == Opened(old(Budget(failures, windowStart)), now)
      ensures now - old(windowStart) > WINDOW ==> failures == 0 && windowStart == now
      ensures now - old(windowStart) <= WINDOW ==> failures == old(failures) && windowStart == old(windowStart)
      ensures blocked == (failures >= MAX_GLOBAL_FAILURES)
    {
      if now - windowStart > WINDOW {
        failures := 0;
        windowStart := now;
      }
      blocked := failures >= MAX_GLOBAL_FAILURES;
    }

    /** evictLoginAttemptsLocked: makes room in a full table by forgetting idle
        addresses, or, if there are none, one arbitrary address. */
    method Evict(now: int)
      requires |attempts| <= MAX_ENTRIES
      modifies `attempts
      ensures |attempts| < MAX_ENTRIES
      ensures forall k :: k in attempts ==> k in old(attempts) && attempts[k] == old(attempts)[k]
      ensures |old(attempts)| < MAX_ENTRIES ==> attempts == old(attempts)
      ensures |old(attempts)| == MAX_ENTRIES ==> forall k :: k in attempts ==> Busy(attempts[k], now)
      ensures forall k :: k in old(attempts) && k !in attempts && Busy(old(attempts)[k], now) ==>
                forall j :: j in old(attempts) && j != k ==> Busy(old(attempts)[j], now) && j in attempts
    {
      if |attempts| < MAX_ENTRIES {
        return;
      }
      var kept := map k | k in attempts && !Idle(attempts[k], now) :: attempts[k];
      if |kept| >= MAX_ENTRIES {
        SubmapSize(kept, attempts);
        assert kept.Keys == attempts.Keys;
        forall j | j in attempts ensures !Idle(attempts[j], now) {
          assert j in kept.Keys;
        }
        assert |kept.Keys| > 0;
        var k :| k in kept.Keys;
        kept := kept - {k};
      } else {
        SubmapSize(kept, attempts);
      }
      attempts := kept;
    }

    /** A wrong password, charged to its address: the count starts again when a block
        has passed, and the fifth one blocks. */
    method Charge(address: string, now: int)
      requires address in attempts
      modifies `attempts
      ensures attempts == old(attempts)[address := Failed(old(attempts)[address], now)]
      ensures |attempts| == |old(attempts)|
      ensures var a, a' := old(attempts)[address], attempts[address];
              && a'.lastAttempt == now
              && a'.count == (if a.count >= MAX_LOGIN_ATTEMPTS && now > a.blockedUntil then 1 else a.count + 1)
              && a'.blockedUntil == (if a'.count < MAX_LOGIN_ATTEMPTS then a.blockedUntil else now + BLOCK_DURATION)
    {
      var current := attempts[address];
      if now > current.blockedUntil && current.count >= MAX_LOGIN_ATTEMPTS {
        current := current.(count := 0);
      }
      current := current.(count := current.count + 1, lastAttempt := now);
      if current.count >= MAX_LOGIN_ATTEMPTS {
        current := current.(blockedUntil := now + BLOCK_DURATION);
      }
      SameSize(attempts, address, current);
      attempts := attempts[address := current];
    }

    /** Makes the entry of an address, if it has none. */
    method Enter(address: string, now: int)
      requires |attempts| <= MAX_ENTRIES
      modifies `attempts
      ensures Tabled(old(attempts), attempts, address, EntryOf(old(attempts), address))
      ensures EvictsIdleFirst(old(attempts), attempts, address, now)
      ensures address in old(attempts) ==> attempts == old(attempts)
      ensures address !in old(attempts) ==> attempts[address] == LoginAttempt(0, ZERO_TIME, ZERO_TIME)
    {
      if address !in attempts {
        Evict(now);
        attempts := attempts[address := NEW_ATTEMPT];
      }
    }

    /** The first locked section of /api/login. */
    method Admit(address: string, now: int) returns (admitted: bool)
      requires |attempts| <= MAX_ENTRIES
      modifies this
      ensures Step(old(State()), First(address, now), admitted, State())
      ensures EvictsIdleFirst(old(attempts), attempts, address, now)
      ensures admitted <==>
                && now >= EntryOf(old(attempts), address).blockedUntil
                && (if now - old(windowStart) > WINDOW then 0 else old(failures)) < MAX_GLOBAL_FAILURES
    {
      Enter(address, now);
      ghost var entered := attempts;
      var attempt := attempts[address].(lastAttempt := now);
      SameSize(attempts, address, attempt);
      attempts := attempts[address := attempt];
      EntryChanged(old(attempts), entered, address, EntryOf(old(attempts), address), attempt, now);
      admitted := now >= attempt.blockedUntil;
      if admitted {
        var spent := GlobalBlocked(now);
        admitted := !spent;
      }
    }

    /** The second one after a wrong password, which may find the entry evicted. */
    method RecordFailure(address: string, now: int)
      requires |attempts| <= MAX_ENTRIES
      modifies this
      ensures Step(old(State()), AfterWrong(address, now), false, State())
      ensures EvictsIdleFirst(old(attempts), attempts, address, now)
      ensures var f := if now - old(windowStart) > WINDOW then 0 else old(failures);
              failures == if f < MAX_GLOBAL_FAILURES then f + 1 else f
      ensures var a := EntryOf(old(attempts), address);
              && address in attempts
              && var a' := attempts[address];
              && a'.count == (if a.count >= MAX_LOGIN_ATTEMPTS && now > a.blockedUntil then 1 else a.count + 1)
              && (a'.count < MAX_LOGIN_ATTEMPTS ==> a'.blockedUntil == a.blockedUntil)
              && (a'.count >= MAX_LOGIN_ATTEMPTS ==> a'.blockedUntil == now + BLOCK_DURATION)
    {
      Enter(address, now);
      ghost var entered := attempts;
      Charge(address, now);
      EntryChanged(old(attempts), entered, address, EntryOf(old(attempts), address), attempts[address], now);
      var spent := GlobalBlocked(now);
      if !spent {
        failures := failures + 1;
      }
    }

    /** The second one after the right password. */
    method RecordSuccess(address: string, now: int)
      modifies `attempts
      ensures Step(old(State()), AfterRight(address, now), false, State())
      ensures forall k :: k in attempts <==> k in old(attempts) && k != address
      ensures forall k :: k in attempts ==> attempts[k] == old(attempts)[k]
    {
      attempts := attempts - {address};
    }
  }

  lemma SameSize<K, V>(m: map<K, V>, k: K, v: V)
    requires k in m
    ensures |m[k := v]| == |m|
  {
    assert m[k := v].Keys == m.Keys;
  }

  lemma EntryChanged(before: map<string, LoginAttempt>, entered: map<string, LoginAttempt>, address: string,
                     entry: LoginAttempt, entry': LoginAttempt, now: int)
    requires Tabled(before, entered, address, entry) && EvictsIdleFirst(before, entered, address, now)
    ensures var after := entered[address := entry'];
            Tabled(before, after, address, entry') && EvictsIdleFirst(before, after, address, now)
  {
    SameSize(entered, address, entry');
    var after := entered[address := entry'];
    forall k ensures k in after <==> k in entered {
    }
  }
}
