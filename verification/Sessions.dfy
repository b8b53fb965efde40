/** The session table against a log of what was issued, logged out and evicted.
    validSession takes two separate locks, so its look-up and its deletion are
    separate events here. Times are nanoseconds on a clock that never goes back. */
module Sessions {
  import opened Tasks
  import opened Maps

  const SESSION_TTL := 604_800_000_000_000
  const MAX_SESSIONS := 1000

  type Table = map<string, int>   // token -> expiry

  predicate Expired(expiry: int, now: int) { now >= expiry }

  function Live(table: Table, now: int): Table { map t | t in table && !Expired(table[t], now) :: table[t] }

  function Pruned(table: Table, now: int): Table { if |table| >= MAX_SESSIONS then Live(table, now) else table }

  ghost predicate Oldest(table: Table, victim: string) {
    victim in table && forall t :: t in table ==> table[victim] <= table[t]
  }

  /** addSession with a given choice among the entries closest to expiring. */
  function Added(table: Table, token: string, now: int, victim: Option<string>): Table {
    var pruned := Pruned(table, now);
    (if victim.Some? then pruned - {victim.value} else pruned)[token := now + SESSION_TTL]
  }

  ghost predicate RightVictim(table: Table, now: int, victim: Option<string>) {
    var pruned := Pruned(table, now);
    (victim.Some? <==> |pruned| >= MAX_SESSIONS) && (victim.Some? ==> Oldest(pruned, victim.value))
  }

  class SessionTable {
    var sessions: Table

    constructor ()
      ensures sessions == map[]
    {
      sessions := map[];
    }

    /** addSession. The empty string stands for "none yet" in the search for the
        oldest entry, so it must not be a token; generated tokens never are. */
    method AddSession(token: string, now: int) returns (victim: Option<string>)
      requires "" !in sessions && token != ""
      modifies this
      ensures RightVictim(old(sessions), now, victim)
      ensures sessions == Added(old(sessions), token, now, victim)
      ensures token in sessions && sessions[token] == now + SESSION_TTL
      ensures |old(sessions)| < MAX_SESSIONS ==> forall t :: t in sessions <==> t in old(sessions) || t == token
      ensures |old(sessions)| >= MAX_SESSIONS ==> forall t :: t in sessions && t != token ==> now < sessions[t]
      ensures forall t :: t in sessions && t != token ==> t in old(sessions) && sessions[t] == old(sessions)[t]
      ensures forall t :: t in old(sessions) && t !in sessions && now < old(sessions)[t] ==>
                && victim == Some(t)
                && forall u :: u in old(sessions) && now < old(sessions)[u] ==> old(sessions)[t] <= old(sessions)[u]
    {
      victim := None;
      if |sessions| >= MAX_SESSIONS {
        Prune(now);
      }
      if |sessions| >= MAX_SESSIONS {
        var oldest := FindOldest();
        sessions := sessions - {oldest};
        victim := Some(oldest);
      }
      sessions := sessions[token := now + SESSION_TTL];
    }

    /** The pruning loop, in whatever order the map is ranged over. */
    method Prune(now: int)
      modifies this
      ensures sessions == Live(old(sessions), now)
      ensures forall t :: t in sessions <==> t in old(sessions) && now < old(sessions)[t]
      ensures forall t :: t in sessions ==> sessions[t] == old(sessions)[t]
    {
      var left := sessions.Keys;
      ghost var before := sessions;
      while left != {}
        invariant left <= before.Keys
        invariant sessions == map t | t in before && (t in left || !Expired(before[t], now)) :: before[t]
        decreases |left|
      {
        var t :| t in left;
        left := left - {t};
        if sessions[t] <= now {
          sessions := sessions - {t};
        }
      }
    }

    /** The search loop for the entry closest to expiring. */
    method FindOldest() returns (oldest: string)
      requires "" !in sessions && |sessions| > 0
      ensures Oldest(sessions, oldest)
      ensures oldest in sessions && forall t :: t in sessions ==> sessions[oldest] <= sessions[t]
    {
      oldest := "";
      var oldestExpiry := 0;
      var left := sessions.Keys;
      assert |sessions.Keys| > 0;
      while left != {}
        invariant left <= sessions.Keys
        invariant oldest == "" ==> left == sessions.Keys
        invariant oldest != "" ==> oldest in sessions && oldestExpiry == sessions[oldest]
        invariant oldest != "" ==> forall t :: t in sessions && t !in left ==> oldestExpiry <= sessions[t]
        decreases |left|
      {
        var t :| t in left;
        left := left - {t};
        if oldest == "" || sessions[t] < oldestExpiry {
          oldest, oldestExpiry := t, sessions[t];
        }
      }
    }

    /** The first half of validSession, under the read lock. */
    method LookUp(token: string, now: int) returns (present: bool, valid: bool)
      ensures present == (token in sessions)
      ensures valid == (token in sessions && now < sessions[token])
    {
      present := token in sessions;
      valid := present && now < sessions[token];
    }

    /** The second half, under the write lock, at a possibly later time. */
    method DropExpired(token: string, now: int)
      modifies this
      ensures sessions == Dropped(old(sessions), token, now)
      ensures token in sessions <==> token in old(sessions) && now < old(sessions)[token]
      ensures forall t :: t in old(sessions) && t != token ==> t in sessions && sessions[t] == old(sessions)[t]
      ensures forall t :: t in sessions ==> t in old(sessions)
    {
      if token in sessions && sessions[token] <= now {
        sessions := sessions - {token};
      }
    }

    method Logout(token: string)
      modifies this
      ensures sessions == old(sessions) - {token}
    {
      sessions := sessions - {token};
    }
  }

  function Dropped(table: Table, token: string, now: int): Table {
    if token in table && Expired(table[token], now) then table - {token} else table
  }

  /* ---------- Runs ---------- */

  /** What happens to the table, one lock at a time. */
  datatype Event =
    | Issue(token: string, now: int, victim: Option<string>)
    | Drop(token: string, now: int)
    | LogOut(token: string, now: int)

  ghost predicate Enabled(table: Table, e: Event) {
    e.Issue? ==> e.token != "" && RightVictim(table, e.now, e.victim)
  }

  function After(table: Table, e: Event): Table {
    match e
    case Issue(token, now, victim) => Added(table, token, now, victim)
    case Drop(token, now) => Dropped(table, token, now)
    case LogOut(token, _) => table - {token}
  }

  ghost predicate Steps(events: seq<Event>, tables: seq<Table>, k: int) {
    && 0 <= k < |events| && k + 1 < |tables|
    && Enabled(tables[k], events[k]) && tables[k + 1] == After(tables[k], events[k])
  }

  /** The tables before each event and at the end. */
  ghost predicate Runs(events: seq<Event>, tables: seq<Table>) {
    && |tables| == |events| + 1 && tables[0] == map[]
    && forall k :: 0 <= k < |events| ==> Steps(events, tables, k)
  }

  ghost predicate Clocked(events: seq<Event>) {
    forall j, k :: 0 <= j < k < |events| ==> events[j].now <= events[k].now
  }

  /** Of the first n events, the i-th is the last that issues the token or logs it
      out. */
  ghost predicate LatestAt(events: seq<Event>, n: nat, i: int, token: string)
    requires n <= |events|
  {
    && 0 <= i < n && events[i].token == token && !events[i].Drop?
    && forall j :: i < j < n && events[j].token == token ==> events[j].Drop?
  }

  ghost predicate IssuedLast(events: seq<Event>, n: nat, i: int, token: string)
    requires n <= |events|
  {
    LatestAt(events, n, i, token) && events[i].Issue?
  }

  /** The k-th event evicts the token from a table full of live tokens, none of which
      expires earlier. */
  ghost predicate EvictedAt(events: seq<Event>, tables: seq<Table>, k: nat, token: string)
    requires k < |events| && k < |tables|
  {
    && events[k].Issue? && events[k].victim == Some(token)
    && token in tables[k] && |tables[k]| == MAX_SESSIONS
    && forall t :: t in tables[k] ==> events[k].now < tables[k][t] && tables[k][token] <= tables[k][t]
  }

  /** Why a token issued by the i-th event is not in the table after n. */
  ghost predicate Lost(events: seq<Event>, tables: seq<Table>, n: nat, i: nat, token: string)
    requires i < n <= |events| && n <= |tables|
  {
    || (exists k :: i < k < n && EvictedAt(events, tables, k, token))
    || (exists k :: i < k < n && events[k].now >= events[i].now + SESSION_TTL)
  }

  ghost predicate Accounted(events: seq<Event>, tables: seq<Table>, n: nat, token: string)
    requires n <= |events| && n < |tables|
  {
    && (token in tables[n] ==>
          exists i :: IssuedLast(events, n, i, token) && tables[n][token] == events[i].now + SESSION_TTL)
    && (forall i :: IssuedLast(events, n, i, token) && token !in tables[n] ==> Lost(events, tables, n, i, token))
  }

  lemma AddedSize(table: Table, token: string, now: int, victim: Option<string>)
    requires |table| <= MAX_SESSIONS && RightVictim(table, now, victim)
    ensures |Added(table, token, now, victim)| <= MAX_SESSIONS
  {
    var pruned := Pruned(table, now);
    SubmapSize(pruned, table);
    if victim.Some? {
      var rest := pruned - {victim.value};
      assert rest.Keys == pruned.Keys - {victim.value};
      assert |rest.Keys| == |pruned.Keys| - 1;
      InsertSize(rest, token, now + SESSION_TTL);
    } else {
      InsertSize(pruned, token, now + SESSION_TTL);
    }
  }

  lemma InsertSize(table: Table, token: string, expiry: int)
    ensures |table[token := expiry]| <= |table| + 1
  {
    assert table[token := expiry].Keys == table.Keys + {token};
  }

  lemma {:induction false} TableIsBounded(events: seq<Event>, tables: seq<Table>, n: nat)
    requires Runs(events, tables) && n <= |events|
    ensures |tables[n]| <= MAX_SESSIONS
  {
    if n > 0 {
      TableIsBounded(events, tables, n - 1);
      var before := tables[n - 1];
      assert Steps(events, tables, n - 1);
      match events[n - 1] {
        case Issue(token, now, victim) => AddedSize(before, token, now, victim);
        case Drop(token, now) => SubmapSize(Dropped(before, token, now), before);
        case LogOut(token, _) => SubmapSize(before - {token}, before);
      }
    }
  }

  /** An addSession loses nothing but expired tokens and its victim, and a victim only
      if the table is full of live tokens, none of which expires earlier. */
  lemma IssueLoses(events: seq<Event>, tables: seq<Table>, k: nat, token: string)
    requires Runs(events, tables) && k < |events| && events[k].Issue? && events[k].token != token
    ensures token in tables[k + 1] ==> token in tables[k] && tables[k + 1][token] == tables[k][token]
    ensures token in tables[k] && token !in tables[k + 1] ==>
              tables[k][token] <= events[k].now || EvictedAt(events, tables, k, token)
  {
    var e, before := events[k], tables[k];
    TableIsBounded(events, tables, k);
    assert Steps(events, tables, k);
    if e.victim == Some(token) {
      SubmapSize(Live(before, e.now), before);
    }
  }

  /** So does every event that neither issues the token nor logs it out. */
  lemma OthersLose(events: seq<Event>, tables: seq<Table>, k: nat, token: string)
    requires Runs(events, tables) && k < |events| && (events[k].token == token ==> events[k].Drop?)
    ensures token in tables[k + 1] ==> token in tables[k] && tables[k + 1][token] == tables[k][token]
    ensures token in tables[k] && token !in tables[k + 1] ==>
              tables[k][token] <= events[k].now || EvictedAt(events, tables, k, token)
  {
    assert Steps(events, tables, k);
    if events[k].Issue? {
      IssueLoses(events, tables, k, token);
    }
  }

  lemma OtherEvent(events: seq<Event>, tables: seq<Table>, k: nat, token: string)
    requires k < |events| && |tables| == |events| + 1 && Accounted(events, tables, k, token)
    requires events[k].token == token ==> events[k].Drop?
    requires token in tables[k + 1] ==> token in tables[k] && tables[k + 1][token] == tables[k][token]
    requires token in tables[k] && token !in tables[k + 1] ==>
               tables[k][token] <= events[k].now || EvictedAt(events, tables, k, token)
    ensures Accounted(events, tables, k + 1, token)
  {
    if token in tables[k + 1] {
      var i :| IssuedLast(events, k, i, token) && tables[k][token] == events[i].now + SESSION_TTL;
      assert IssuedLast(events, k + 1, i, token);
    }
    var n := k + 1;
    forall i | IssuedLast(events, n, i, token) && token !in tables[n] ensures Lost(events, tables, n, i, token) {
      assert IssuedLast(events, k, i, token);
      if token in tables[k] {
        var j :| IssuedLast(events, k, j, token) && tables[k][token] == events[j].now + SESSION_TTL;
        OneLatest(events, k, i, j, token);
      } else {
        LostStays(events, tables, k, i, token);
      }
    }
  }

  lemma OneLatest(events: seq<Event>, n: nat, i: int, j: int, token: string)
    requires n <= |events| && LatestAt(events, n, i, token) && LatestAt(events, n, j, token)
    ensures i == j
  {
  }

  lemma LostStays(events: seq<Event>, tables: seq<Table>, n: nat, i: nat, token: string)
    requires i < n < |events| && n < |tables| && Lost(events, tables, n, i, token)
    ensures Lost(events, tables, n + 1, i, token)
  {
    if k :| i < k < n && EvictedAt(events, tables, k, token) {
      assert i < k < n + 1;
    } else {
      var k :| i < k < n && events[k].now >= events[i].now + SESSION_TTL;
      assert i < k < n + 1;
    }
  }

  /** Table and history are in step at every point of a run. */
  lemma {:induction false} AlwaysAccounted(events: seq<Event>, tables: seq<Table>, n: nat, token: string)
    requires Runs(events, tables) && n <= |events|
    ensures Accounted(events, tables, n, token)
  {
    if n > 0 {
      AlwaysAccounted(events, tables, n - 1, token);
      var e := events[n - 1];
      if e.token != token || e.Drop? {
        OthersLose(events, tables, n - 1, token);
        OtherEvent(events, tables, n - 1, token);
      } else {
        assert Steps(events, tables, n - 1);
        OwnEvent(events, tables, n - 1);
      }
    }
  }

  lemma OwnEvent(events: seq<Event>, tables: seq<Table>, k: nat)
    requires k < |events| && |tables| == |events| + 1 && !events[k].Drop?
    requires Steps(events, tables, k)
    ensures Accounted(events, tables, k + 1, events[k].token)
  {
    var token, n := events[k].token, k + 1;
    assert LatestAt(events, n, k, token);
    forall i | IssuedLast(events, n, i, token) ensures i == k {
      OneLatest(events, n, i, k, token);
    }
    if events[k].Issue? {
      assert IssuedLast(events, n, k, token);
    }
  }

  /** What validSession answers. */
  predicate Accepts(table: Table, token: string, now: int) { token in table && now < table[token] }

  /** The table is bounded. A token is accepted only if it was issued less than
      its lifetime ago and not logged out since; and one that was is refused only
      if it was evicted from a table full of live tokens expiring no earlier. */
  lemma AcceptedIffIssued(events: seq<Event>, tables: seq<Table>, token: string, now: int)
    requires Runs(events, tables) && Clocked(events) && (events != [] ==> events[|events| - 1].now <= now)
    ensures var n, table := |events|, tables[|events|];
            && |table| <= MAX_SESSIONS
            && (Accepts(table, token, now) ==>
                  exists i :: IssuedLast(events, n, i, token) && now < events[i].now + SESSION_TTL)
            && (forall i :: IssuedLast(events, n, i, token) && now < events[i].now + SESSION_TTL ==>
                  || Accepts(table, token, now)
                  || exists k :: i < k < n && EvictedAt(events, tables, k, token))
  {
    var n := |events|;
    TableIsBounded(events, tables, n);
    AlwaysAccounted(events, tables, n, token);
    forall i | IssuedLast(events, n, i, token) && now < events[i].now + SESSION_TTL && !Accepts(tables[n], token, now)
      ensures exists k :: i < k < n && EvictedAt(events, tables, k, token)
    {
      if token in tables[n] {
        var j :| IssuedLast(events, n, j, token) && tables[n][token] == events[j].now + SESSION_TTL;
        OneLatest(events, n, i, j, token);
      }
      assert Lost(events, tables, n, i, token);
    }
  }

  /** A deletion by validSession takes a token exactly if it is in the table and its
      latest issue is a lifetime old. */
  lemma DropDeletesIff(events: seq<Event>, tables: seq<Table>, k: nat)
    requires Runs(events, tables) && k < |events| && events[k].Drop?
    ensures tables[k + 1] != tables[k] <==>
              events[k].token in tables[k]
              && exists i :: IssuedLast(events, k, i, events[k].token) && events[i].now + SESSION_TTL <= events[k].now
  {
    var token := events[k].token;
    AlwaysAccounted(events, tables, k, token);
    assert Steps(events, tables, k);
    if token in tables[k] {
      var i :| IssuedLast(events, k, i, token) && tables[k][token] == events[i].now + SESSION_TTL;
      forall j | IssuedLast(events, k, j, token) ensures i == j {
        OneLatest(events, k, i, j, token);
      }
      assert token !in tables[k] - {token};
    }
  }

  ghost predicate NoLogOut(events: seq<Event>, from: nat, to: nat, token: string)
    requires to <= |events|
  {
    forall i :: from <= i < to && events[i].token == token ==> !events[i].LogOut?
  }

  lemma {:induction false} IssueStays(events: seq<Event>, p: nat, n: nat, token: string) returns (i: nat)
    requires p < n <= |events| && events[p].Issue? && events[p].token == token && NoLogOut(events, p, n, token)
    ensures p <= i < n && IssuedLast(events, n, i, token)
    decreases n
  {
    if events[n - 1].token == token && events[n - 1].Issue? {
      i := n - 1;
    } else {
      i := IssueStays(events, p, n - 1, token);
    }
  }

  /** The two locks of validSession: whatever happens between the look-up and the
      deletion, a token issued again in between, and not logged out since, is not
      deleted while its new lifetime lasts. */
  lemma ReissueSurvivesDrop(events: seq<Event>, tables: seq<Table>, p: nat, k: nat)
    requires Runs(events, tables) && Clocked(events) && p < k < |events| && events[p].Issue? && events[k].Drop?
    requires events[k].token == events[p].token && NoLogOut(events, p, k, events[p].token)
    requires events[k].now < events[p].now + SESSION_TTL
    ensures tables[k + 1] == tables[k]
  {
    var i := IssueStays(events, p, k, events[p].token);
    DropDeletesIff(events, tables, k);
    forall j | IssuedLast(events, k, j, events[k].token) ensures j == i {
      OneLatest(events, k, i, j, events[k].token);
    }
  }

  /** And a log-out ends it: the token is refused until it is issued again. */
  lemma LoggedOutIsRefused(events: seq<Event>, tables: seq<Table>, i: nat, token: string)
    requires Runs(events, tables) && LatestAt(events, |events|, i, token) && events[i].LogOut?
    ensures token !in tables[|events|]
  {
    AlwaysAccounted(events, tables, |events|, token);
    if token in tables[|events|] {
      var j :| IssuedLast(events, |events|, j, token);
      OneLatest(events, |events|, i, j, token);
      assert false;
    }
  }
}
