/** Stored SFTP passwords over any history of restarts, each with an arbitrary
    key or none: sealConfig, openConfig, loadState and saveState. */
module Credentials {
  import opened Tasks
  import opened Secrets

  /** A task in memory and on disk, as far as credentials are concerned. An empty
      password is none. */
  datatype MemTask = MemTask(id: string, password: string)
  datatype DiskTask = DiskTask(id: string, password: string, enc: Encoded)

  datatype Retained = Retained(enc: Encoded, plain: string)

  /** sealConfig. `nonce` is None when no random bytes can be had. */
  function SealConfig(retained: map<string, Retained>, key: Option<Key>, t: MemTask, nonce: Option<Nonce>): DiskTask {
    if t.id in retained && (t.password == "" || key.None?) then DiskTask(t.id, retained[t.id].plain, retained[t.id].enc)
    else if t.password == "" || key.None? || nonce.None? then DiskTask(t.id, "", Absent)
    else DiskTask(t.id, "", Encrypt(key.value, nonce.value, t.password))
  }

  /** openConfig: the password to use, and what has to be retained as stored. */
  datatype Opened = Opened(password: string, keep: Option<Retained>)

  function OpenConfig(key: Option<Key>, d: DiskTask): Opened {
    if d.enc == Absent then
      Opened(d.password, if d.password != "" && key.None? then Some(Retained(Absent, d.password)) else None)
    else if key.None? then Opened(d.password, Some(Retained(d.enc, "")))
    else
      match Decrypt(key.value, d.enc)
      case None => Opened(d.password, Some(Retained(d.enc, "")))
      case Some(password) => Opened(password, None)
  }

  function LoadedTasks(key: Option<Key>, disk: seq<DiskTask>): (tasks: seq<MemTask>)
    ensures |tasks| == |disk|
    ensures forall i :: 0 <= i < |disk| ==> tasks[i] == MemTask(disk[i].id, OpenConfig(key, disk[i]).password)
  {
    seq(|disk|, i requires 0 <= i < |disk| => MemTask(disk[i].id, OpenConfig(key, disk[i]).password))
  }

  function LoadedRetained(key: Option<Key>, disk: seq<DiskTask>): map<string, Retained> {
    if disk == [] then map[]
    else
      var d := disk[|disk| - 1];
      var before := LoadedRetained(key, disk[..|disk| - 1]);
      match OpenConfig(key, d).keep
      case None => before
      case Some(kept) => before[d.id := kept]
  }

  lemma RetainedSnoc(key: Option<Key>, disk: seq<DiskTask>, i: nat)
    requires i < |disk|
    ensures LoadedRetained(key, disk[..i + 1])
            == match OpenConfig(key, disk[i]).keep
               case None => LoadedRetained(key, disk[..i])
               case Some(kept) => LoadedRetained(key, disk[..i])[disk[i].id := kept]
  {
    assert disk[..i + 1][..i] == disk[..i];
  }

  predicate LegacyPlaintext(d: DiskTask) { d.enc == Absent && d.password != "" }

  predicate SomeLegacy(disk: seq<DiskTask>) { exists i :: 0 <= i < |disk| && LegacyPlaintext(disk[i]) }

  lemma SomeLegacySnoc(disk: seq<DiskTask>, i: nat)
    requires i < |disk|
    ensures SomeLegacy(disk[..i + 1]) <==> SomeLegacy(disk[..i]) || LegacyPlaintext(disk[i])
  {
    if SomeLegacy(disk[..i]) {
      var j :| 0 <= j < i && LegacyPlaintext(disk[..i][j]);
      assert LegacyPlaintext(disk[..i + 1][j]);
    }
    if LegacyPlaintext(disk[i]) {
      assert LegacyPlaintext(disk[..i + 1][i]);
    }
  }

  type Entropy = string -> Option<Nonce>

  function SavedDisk(retained: map<string, Retained>, key: Option<Key>, tasks: seq<MemTask>,
                     entropy: Entropy): (disk: seq<DiskTask>)
    ensures |disk| == |tasks|
    ensures forall i :: 0 <= i < |tasks| ==> disk[i] == SealConfig(retained, key, tasks[i], entropy(tasks[i].id))
  {
    seq(|tasks|, i requires 0 <= i < |tasks| => SealConfig(retained, key, tasks[i], entropy(tasks[i].id)))
  }

  /** The credential part of the queue manager, and its state file. */
  datatype Store = Store(key: Option<Key>, tasks: seq<MemTask>, retained: map<string, Retained>, disk: seq<DiskTask>)

  function Saved(s: Store, entropy: Entropy): Store {
    s.(disk := SavedDisk(s.retained, s.key, s.tasks, entropy))
  }

  /** loadState of a new process: with a key, a file with plaintext passwords is
      rewritten at once. */
  function Loaded(disk: seq<DiskTask>, key: Option<Key>, entropy: Entropy): Store {
    var s := Store(key, LoadedTasks(key, disk), LoadedRetained(key, disk), disk);
    if key.Some? && SomeLegacy(disk) then Saved(s, entropy) else s
  }

  /** The same, as the object does it. `entropy` answers rand.Read task by task. */
  class CredentialStore {
    var key: Option<Key>
    var tasks: seq<MemTask>
    var retained: map<string, Retained>
    var disk: seq<DiskTask>

    ghost function State(): Store
      reads this
    {
      Store(key, tasks, retained, disk)
    }

    constructor (disk: seq<DiskTask>, key: Option<Key>)
      ensures State() == Store(key, [], map[], disk)
    {
      this.key, this.tasks, this.retained, this.disk := key, [], map[], disk;
    }

    method OpenOne(d: DiskTask) returns (password: string)
      modifies `retained
      ensures password == OpenConfig(key, d).password
      ensures retained == (match OpenConfig(key, d).keep
                           case None => old(retained)
                           case Some(kept) => old(retained)[d.id := kept])
    {
      password := d.password;
      if d.enc == Absent {
        if password != "" && key.None? {
          retained := retained[d.id := Retained(Absent, password)];
        }
        return;
      }
      if key.None? {
        retained := retained[d.id := Retained(d.enc, "")];
        return;
      }
      var found := Decrypt(key.value, d.enc);
      if found.None? {
        retained := retained[d.id := Retained(d.enc, "")];
        return;
      }
      password := found.value;
    }

    method SaveState(entropy: Entropy)
      modifies `disk
      ensures State() == Saved(old(State()), entropy)
    {
      var written: seq<DiskTask> := [];
      for i := 0 to |tasks|
        invariant |written| == i
        invariant forall j :: 0 <= j < i ==> written[j] == SealConfig(retained, key, tasks[j], entropy(tasks[j].id))
      {
        written := written + [SealConfig(retained, key, tasks[i], entropy(tasks[i].id))];
      }
      disk := written;
    }

    method LoadState(entropy: Entropy)
      requires tasks == [] && retained == map[]
      modifies this
      ensures State() == Loaded(old(disk), old(key), entropy)
    {
      var loaded, legacyPlaintext := OpenAll();
      assert loaded == LoadedTasks(key, disk);
      tasks := loaded;
      if legacyPlaintext && key.Some? {
        SaveState(entropy);
      }
    }

    /** Its loop over the tasks of the file. */
    method OpenAll() returns (loaded: seq<MemTask>, legacyPlaintext: bool)
      requires retained == map[]
      modifies `retained
      ensures |loaded| == |disk| && forall i :: 0 <= i < |disk| ==>
                loaded[i] == MemTask(disk[i].id, OpenConfig(key, disk[i]).password)
      ensures retained == LoadedRetained(key, disk)
      ensures legacyPlaintext <==> SomeLegacy(disk)
    {
      loaded, legacyPlaintext := [], false;
      for i := 0 to |disk|
        invariant |loaded| == i
        invariant forall j :: 0 <= j < i ==> loaded[j] == MemTask(disk[j].id, OpenConfig(key, disk[j]).password)
        invariant retained == LoadedRetained(key, disk[..i])
        invariant legacyPlaintext <==> SomeLegacy(disk[..i])
      {
        RetainedSnoc(key, disk, i);
        SomeLegacySnoc(disk, i);
        var d := disk[i];
        var password := OpenOne(d);
        loaded := loaded + [MemTask(d.id, password)];
        legacyPlaintext := legacyPlaintext || (d.enc == Absent && d.password != "");
      }
      assert disk[..|disk|] == disk;
    }
  }

  /* ---------- Histories ---------- */

  /** What may happen: the process ends and another starts on the state file with
      its own key or none; or it saves; or a task is added or removed. */
  datatype Event =
    | Restart(key: Option<Key>, entropy: Entropy)
    | Save(entropy: Entropy)
    | Add(task: MemTask)
    | Remove(id: string)

  function Listed(tasks: seq<MemTask>): set<string> { set t | t in tasks :: t.id }

  function Without(tasks: seq<MemTask>, id: string): seq<MemTask> {
    if tasks == [] then []
    else if tasks[0].id == id then tasks[1..]
    else [tasks[0]] + Without(tasks[1..], id)
  }

  function After(s: Store, e: Event): Store {
    match e
    case Restart(key, entropy) => Loaded(s.disk, key, entropy)
    case Save(entropy) => Saved(s, entropy)
    case Add(t) => s.(tasks := s.tasks + [t])
    case Remove(id) => s.(tasks := Without(s.tasks, id))
  }

  /** A credential: a password, kept in plaintext or sealed under one key. */
  datatype Credential = Credential(password: string, lock: Option<Key>)

  predicate Carries(d: DiskTask, c: Credential) {
    match c.lock
    case None => d.password == c.password && d.enc == Absent
    case Some(k) => d.password == "" && Decrypt(k, d.enc) == Some(c.password)
  }

  /** The credential after a process with this key has saved it. */
  function Resealed(c: Credential, key: Option<Key>): Credential {
    if c.lock.None? && key.Some? then c.(lock := key) else c
  }

  /** How a process with this key holds a credential in memory: usable, if it can
      open it; retained as stored, if it could not write it back otherwise. */
  predicate Holds(key: Option<Key>, retained: map<string, Retained>, t: MemTask, c: Credential) {
    if c.lock.None? then
      && key.None? && t.password == c.password
      && t.id in retained && retained[t.id] == Retained(Absent, c.password)
    else if key == c.lock then t.password == c.password && t.id !in retained
    else
      && t.password == "" && t.id in retained && retained[t.id].plain == ""
      && Decrypt(c.lock.value, retained[t.id].enc) == Some(c.password)
  }

  ghost predicate UniqueIds(tasks: seq<MemTask>) {
    forall i, j :: 0 <= i < j < |tasks| ==> tasks[i].id != tasks[j].id
  }

  ghost predicate UniqueDiskIds(disk: seq<DiskTask>) {
    forall i, j :: 0 <= i < j < |disk| ==> disk[i].id != disk[j].id
  }

  ghost predicate OnDisk(disk: seq<DiskTask>, id: string, c: Credential) {
    exists i :: 0 <= i < |disk| && disk[i].id == id && Carries(disk[i], c)
  }

  ghost predicate InMemory(s: Store, id: string, c: Credential) {
    exists i :: 0 <= i < |s.tasks| && s.tasks[i].id == id && Holds(s.key, s.retained, s.tasks[i], c)
  }

  /** No trace of a password under this identifier. */
  ghost predicate BlankOnDisk(disk: seq<DiskTask>, id: string) {
    forall i :: 0 <= i < |disk| && disk[i].id == id ==> disk[i].password == "" && disk[i].enc == Absent
  }

  ghost predicate BlankInMemory(s: Store, id: string) {
    id !in s.retained && forall t :: t in s.tasks && t.id == id ==> t.password == ""
  }

  /** What may have become of a credential: in memory and on disk; in memory only,
      since the last save could not seal it; nowhere. */
  datatype Fate = Kept | Unsaved | Gone

  ghost predicate Suffers(s: Store, id: string, c: Credential, fate: Fate) {
    match fate
    case Kept => UniqueIds(s.tasks) && UniqueDiskIds(s.disk) && OnDisk(s.disk, id, c) && InMemory(s, id, c)
    case Unsaved => UniqueIds(s.tasks) && UniqueDiskIds(s.disk) && BlankOnDisk(s.disk, id) && InMemory(s, id, c)
    case Gone => BlankOnDisk(s.disk, id) && BlankInMemory(s, id)
  }

  lemma {:induction false} RetainedLookup(key: Option<Key>, disk: seq<DiskTask>, i: nat)
    requires UniqueDiskIds(disk) && i < |disk|
    ensures var r := LoadedRetained(key, disk);
            match OpenConfig(key, disk[i]).keep
            case None => disk[i].id !in r
            case Some(kept) => disk[i].id in r && r[disk[i].id] == kept
  {
    var n := |disk| - 1;
    if i < n {
      RetainedLookup(key, disk[..n], i);
    } else {
      RetainedOnlyListed(key, disk[..n], disk[i].id);
    }
  }

  lemma {:induction false} RetainedOnlyListed(key: Option<Key>, disk: seq<DiskTask>, id: string)
    requires forall i :: 0 <= i < |disk| ==> disk[i].id != id
    ensures id !in LoadedRetained(key, disk)
  {
    if disk != [] {
      RetainedOnlyListed(key, disk[..|disk| - 1], id);
    }
  }

  /** The process would have to seal it afresh. */
  predicate NeedsRandomness(key: Option<Key>, c: Credential) { key.Some? && c.lock == key }

  /** Sealing what is held, usable or only retained, gives back the credential
      exactly if there is randomness where it has to be sealed afresh; if there is
      none, nothing is left of it. */
  lemma SealKeepsIff(key: Option<Key>, retained: map<string, Retained>, t: MemTask, c: Credential, nonce: Option<Nonce>)
    requires c.password != "" && Holds(key, retained, t, c)
    ensures Carries(SealConfig(retained, key, t, nonce), c) <==> (NeedsRandomness(key, c) ==> nonce.Some?)
    ensures NeedsRandomness(key, c) && nonce.None? ==> SealConfig(retained, key, t, nonce) == DiskTask(t.id, "", Absent)
  {
    if NeedsRandomness(key, c) && nonce.Some? {
      RoundTrip(key.value, nonce.value, t.password);
    }
  }

  /** Opening a stored credential holds it, unless it is plaintext and a key is
      there: then it is usable and not retained, about to be sealed. */
  lemma {:induction false} OpenHolds(key: Option<Key>, disk: seq<DiskTask>, i: nat, c: Credential)
    requires UniqueDiskIds(disk) && i < |disk| && c.password != "" && Carries(disk[i], c)
    ensures var t, r := LoadedTasks(key, disk)[i], LoadedRetained(key, disk);
            && (c.lock.None? && key.Some? ==> LegacyPlaintext(disk[i]) && t.password == c.password && t.id !in r)
            && Holds(key, r, t, Resealed(c, key))
  {
    RetainedLookup(key, disk, i);
    if c.lock.Some? && key.Some? && key != c.lock && Decrypt(key.value, disk[i].enc).Some? {
      OneKeyOpens(key.value, c.lock.value, disk[i].enc);
    }
  }

  predicate Rewrites(disk: seq<DiskTask>, key: Option<Key>) { key.Some? && SomeLegacy(disk) }

  function FateAfterSave(key: Option<Key>, c: Credential, id: string, entropy: Entropy): Fate {
    if NeedsRandomness(key, c) && entropy(id).None? then Unsaved else Kept
  }

  function FateAfter(fate: Fate, s: Store, e: Event, id: string, c: Credential): Fate {
    match e
    case Save(entropy) => if fate == Gone then Gone else FateAfterSave(s.key, c, id, entropy)
    case Restart(key, entropy) =>
      if fate != Kept then Gone
      else if Rewrites(s.disk, key) then FateAfterSave(key, Resealed(c, key), id, entropy)
      else Kept
    case _ => fate
  }

  lemma SaveDecides(s: Store, id: string, c: Credential, entropy: Entropy)
    requires c.password != "" && UniqueIds(s.tasks) && InMemory(s, id, c)
    ensures Suffers(Saved(s, entropy), id, c, FateAfterSave(s.key, c, id, entropy))
  {
    var i :| 0 <= i < |s.tasks| && s.tasks[i].id == id && Holds(s.key, s.retained, s.tasks[i], c);
    var s' := Saved(s, entropy);
    assert s'.tasks[i].id == id && Holds(s'.key, s'.retained, s'.tasks[i], c);
    assert UniqueDiskIds(s'.disk);
    SealKeepsIff(s.key, s.retained, s.tasks[i], c, entropy(id));
    if NeedsRandomness(s.key, c) && entropy(id).None? {
      forall j | 0 <= j < |s'.disk| && s'.disk[j].id == id
        ensures s'.disk[j].password == "" && s'.disk[j].enc == Absent
      {
        assert j == i;
      }
    } else {
      assert s'.disk[i].id == id && Carries(s'.disk[i], c);
    }
  }

  lemma BlankStaysBlank(s: Store, id: string, entropy: Entropy)
    requires BlankInMemory(s, id)
    ensures Suffers(Saved(s, entropy), id, Credential("", None), Gone)
  {
    var s' := Saved(s, entropy);
    forall j | 0 <= j < |s'.disk| && s'.disk[j].id == id ensures s'.disk[j].password == "" && s'.disk[j].enc == Absent {
      assert s.tasks[j] in s.tasks;
    }
  }

  lemma {:induction false} BlankNotRetained(key: Option<Key>, disk: seq<DiskTask>, id: string)
    requires BlankOnDisk(disk, id)
    ensures id !in LoadedRetained(key, disk)
  {
    if disk != [] {
      BlankNotRetained(key, disk[..|disk| - 1], id);
    }
  }

  lemma BlankLoads(disk: seq<DiskTask>, id: string, key: Option<Key>, entropy: Entropy)
    requires BlankOnDisk(disk, id)
    ensures Suffers(Loaded(disk, key, entropy), id, Credential("", None), Gone)
  {
    var s1 := Store(key, LoadedTasks(key, disk), LoadedRetained(key, disk), disk);
    BlankNotRetained(key, disk, id);
    assert BlankInMemory(s1, id);
    if Rewrites(disk, key) {
      BlankStaysBlank(s1, id, entropy);
    }
  }

  lemma RestartDecides(s: Store, id: string, c: Credential, key: Option<Key>, entropy: Entropy)
    requires c.password != "" && UniqueDiskIds(s.disk) && OnDisk(s.disk, id, c)
    ensures Suffers(Loaded(s.disk, key, entropy), id, Resealed(c, key),
                    FateAfter(Kept, s, Restart(key, entropy), id, c))
    ensures InMemory(Loaded(s.disk, key, entropy), id, Resealed(c, key))
  {
    var disk := s.disk;
    var i :| 0 <= i < |disk| && disk[i].id == id && Carries(disk[i], c);
    OpenHolds(key, disk, i, c);
    var s1 := Store(key, LoadedTasks(key, disk), LoadedRetained(key, disk), disk);
    assert s1.tasks[i].id == id && Holds(key, s1.retained, s1.tasks[i], Resealed(c, key));
    if Rewrites(disk, key) {
      SaveDecides(s1, id, Resealed(c, key), entropy);
    }
  }

  lemma {:induction false} WithoutKeeps(tasks: seq<MemTask>, id: string)
    requires UniqueIds(tasks)
    ensures UniqueIds(Without(tasks, id))
    ensures forall t :: t in Without(tasks, id) <==> t in tasks && t.id != id
  {
    if tasks != [] {
      WithoutKeeps(tasks[1..], id);
      assert forall t :: t in tasks <==> t == tasks[0] || t in tasks[1..];
    }
  }

  /** Events that leave a task alone: it is not removed, and a task added gets an
      identifier that is neither listed nor retained, nor the one in question. */
  ghost predicate Leaves(s: Store, e: Event, id: string) {
    match e
    case Add(t) => t.id != id && t.id !in Listed(s.tasks) && t.id !in s.retained
    case Remove(removed) => removed != id
    case _ => true
  }

  function CredentialAfter(c: Credential, e: Event): Credential {
    if e.Restart? then Resealed(c, e.key) else c
  }

  lemma ListChangeKeeps(s: Store, tasks': seq<MemTask>, id: string, c: Credential, fate: Fate)
    requires Suffers(s, id, c, fate)
    requires UniqueIds(s.tasks) ==> UniqueIds(tasks')
    requires forall t: MemTask :: t.id == id ==> (t in tasks' <==> t in s.tasks)
    ensures Suffers(s.(tasks := tasks'), id, c, fate)
  {
    if fate != Gone {
      var i :| 0 <= i < |s.tasks| && s.tasks[i].id == id && Holds(s.key, s.retained, s.tasks[i], c);
      assert s.tasks[i] in tasks';
      var j :| 0 <= j < |tasks'| && tasks'[j] == s.tasks[i];
    }
  }

  lemma AddKeepsUnique(tasks: seq<MemTask>, t: MemTask)
    requires UniqueIds(tasks) && t.id !in Listed(tasks)
    ensures UniqueIds(tasks + [t])
  {
    forall j | 0 <= j < |tasks| ensures tasks[j].id != t.id {
      assert tasks[j].id in Listed(tasks);
    }
  }

  lemma {:induction false} WithoutOthers(tasks: seq<MemTask>, id: string, t: MemTask)
    requires t.id != id
    ensures t in Without(tasks, id) <==> t in tasks
  {
    if tasks != [] {
      assert t in tasks <==> t == tasks[0] || t in tasks[1..];
      if tasks[0].id != id {
        WithoutOthers(tasks[1..], id, t);
      }
    }
  }

  /** One event decides the fate of a credential as FateAfter says. */
  lemma EventDecidesFate(s: Store, e: Event, id: string, c: Credential, fate: Fate)
    requires c.password != "" && Suffers(s, id, c, fate) && Leaves(s, e, id)
    ensures Suffers(After(s, e), id, CredentialAfter(c, e), FateAfter(fate, s, e, id, c))
  {
    match e
    case Restart(key, entropy) =>
      if fate == Kept {
        RestartDecides(s, id, c, key, entropy);
      } else {
        BlankLoads(s.disk, id, key, entropy);
      }
    case Save(entropy) =>
      if fate == Gone {
        BlankStaysBlank(s, id, entropy);
      } else {
        SaveDecides(s, id, c, entropy);
      }
    case Add(t) =>
      if UniqueIds(s.tasks) {
        AddKeepsUnique(s.tasks, t);
      }
      ListChangeKeeps(s, s.tasks + [t], id, c, fate);
    case Remove(removed) =>
      if UniqueIds(s.tasks) {
        WithoutKeeps(s.tasks, removed);
      }
      forall t: MemTask | t.id == id ensures t in Without(s.tasks, removed) <==> t in s.tasks {
        WithoutOthers(s.tasks, removed, t);
      }
      ListChangeKeeps(s, Without(s.tasks, removed), id, c, fate);
  }

  function AfterAll(s: Store, events: seq<Event>): Store
    decreases |events|
  {
    if events == [] then s else AfterAll(After(s, events[0]), events[1..])
  }

  function CredentialAfterAll(c: Credential, events: seq<Event>): Credential
    decreases |events|
  {
    if events == [] then c else CredentialAfterAll(CredentialAfter(c, events[0]), events[1..])
  }

  ghost predicate AllLeave(s: Store, events: seq<Event>, id: string)
    decreases |events|
  {
    events != [] ==> Leaves(s, events[0], id) && AllLeave(After(s, events[0]), events[1..], id)
  }

  function FateAfterAll(fate: Fate, s: Store, events: seq<Event>, id: string, c: Credential): Fate
    decreases |events|
  {
    if events == [] then fate
    else
      FateAfterAll(FateAfter(fate, s, events[0], id, c), After(s, events[0]), events[1..], id,
                   CredentialAfter(c, events[0]))
  }

  lemma {:induction false} HistoryDecidesFate(s: Store, events: seq<Event>, id: string, c: Credential, fate: Fate)
    requires c.password != "" && Suffers(s, id, c, fate) && AllLeave(s, events, id)
    ensures CredentialAfterAll(c, events).password == c.password
    ensures Suffers(AfterAll(s, events), id, CredentialAfterAll(c, events), FateAfterAll(fate, s, events, id, c))
    decreases |events|
  {
    if events != [] {
      EventDecidesFate(s, events[0], id, c, fate);
      HistoryDecidesFate(After(s, events[0]), events[1..], id, CredentialAfter(c, events[0]),
                         FateAfter(fate, s, events[0], id, c));
    }
  }

  /** A stored password survives a history of restarts, with any keys or none,
      saves, additions and removals of other tasks, exactly if it is Kept at its
      end: no process ended before it could seal the password again. */
  lemma CredentialSurvivesIff(s: Store, events: seq<Event>, id: string, c: Credential)
    requires c.password != "" && Suffers(s, id, c, Kept) && AllLeave(s, events, id)
    ensures OnDisk(AfterAll(s, events).disk, id, CredentialAfterAll(c, events)) <==>
              FateAfterAll(Kept, s, events, id, c) == Kept
  {
    HistoryDecidesFate(s, events, id, c, Kept);
  }

  /** Random bytes for this identifier in every save and load. */
  ghost predicate AlwaysRandom(events: seq<Event>, id: string) {
    forall i :: 0 <= i < |events| ==>
      (events[i].Save? ==> events[i].entropy(id).Some?) && (events[i].Restart? ==> events[i].entropy(id).Some?)
  }

  /** So it survives every history in which random bytes can be had. */
  lemma {:induction false} RandomnessKeeps(s: Store, events: seq<Event>, id: string, c: Credential)
    requires AlwaysRandom(events, id)
    ensures FateAfterAll(Kept, s, events, id, c) == Kept
    decreases |events|
  {
    if events != [] {
      assert FateAfter(Kept, s, events[0], id, c) == Kept;
      RandomnessKeeps(After(s, events[0]), events[1..], id, CredentialAfter(c, events[0]));
    }
  }

  /** What becomes of it: the password never changes, and the lock is the first
      key that any process of the history had, for ever. */
  lemma {:induction false} LockIsFirstKey(c: Credential, events: seq<Event>)
    ensures var c' := CredentialAfterAll(c, events);
            && c'.password == c.password
            && (c.lock.Some? ==> c'.lock == c.lock)
            && (c.lock.None? ==>
                  || (c'.lock.None? && forall i :: 0 <= i < |events| && events[i].Restart? ==> events[i].key.None?)
                  || (exists i :: 0 <= i < |events| && FirstKeyAt(events, i) && events[i].key == c'.lock))
    decreases |events|
  {
    if events != [] {
      var c1 := CredentialAfter(c, events[0]);
      LockIsFirstKey(c1, events[1..]);
      if c.lock.None? {
        if c1.lock.Some? {
          assert FirstKeyAt(events, 0);
        } else if CredentialAfterAll(c1, events[1..]).lock.Some? {
          var i :| 0 <= i < |events[1..]| && FirstKeyAt(events[1..], i)
                   && events[1..][i].key == CredentialAfterAll(c1, events[1..]).lock;
          FirstKeyShift(events, i);
        }
      }
    }
  }

  predicate FirstKeyAt(events: seq<Event>, i: nat)
    requires i < |events|
  {
    events[i].Restart? && events[i].key.Some? && forall j :: 0 <= j < i && events[j].Restart? ==> events[j].key.None?
  }

  lemma FirstKeyShift(events: seq<Event>, i: nat)
    requires i + 1 < |events| && FirstKeyAt(events[1..], i) && (events[0].Restart? ==> events[0].key.None?)
    ensures FirstKeyAt(events, i + 1)
  {
    assert events[i + 1] == events[1..][i];
    forall j | 0 <= j < i + 1 && events[j].Restart? ensures events[j].key.None? {
      if j > 0 {
        assert events[j] == events[1..][j - 1];
      }
    }
  }

  /** A credential sealed under a key is recovered by a later process that has the
      key, whatever keys the processes in between had, exactly if it was Kept. */
  lemma SealedIsRecoveredIff(s: Store, events: seq<Event>, id: string, password: string, k: Key, entropy: Entropy)
    requires password != "" && Suffers(s, id, Credential(password, Some(k)), Kept) && AllLeave(s, events, id)
    ensures MemTask(id, password) in Loaded(AfterAll(s, events).disk, Some(k), entropy).tasks
            <==> FateAfterAll(Kept, s, events, id, Credential(password, Some(k))) == Kept
  {
    var c := Credential(password, Some(k));
    var s' := AfterAll(s, events);
    HistoryDecidesFate(s, events, id, c, Kept);
    LockIsFirstKey(c, events);
    assert CredentialAfterAll(c, events) == c;
    if FateAfterAll(Kept, s, events, id, c) == Kept {
      RecoveredFrom(s', id, password, k, entropy);
    } else {
      BlankLoads(s'.disk, id, Some(k), entropy);
    }
  }

  lemma RecoveredFrom(s: Store, id: string, password: string, k: Key, entropy: Entropy)
    requires password != "" && Suffers(s, id, Credential(password, Some(k)), Kept)
    ensures MemTask(id, password) in Loaded(s.disk, Some(k), entropy).tasks
  {
    var c := Credential(password, Some(k));
    RestartDecides(s, id, c, Some(k), entropy);
    var s1 := Loaded(s.disk, Some(k), entropy);
    var i :| 0 <= i < |s1.tasks| && s1.tasks[i].id == id && Holds(s1.key, s1.retained, s1.tasks[i], c);
    assert s1.tasks[i] == MemTask(id, password);
  }

  /* ---------- What is on disk ---------- */

  predicate OneForm(d: DiskTask) { d.enc == Absent || d.password == "" }

  ghost predicate RetainedOneForm(retained: map<string, Retained>) {
    forall id :: id in retained ==> retained[id].enc == Absent || retained[id].plain == ""
  }

  lemma {:induction false} LoadedRetainedOneForm(key: Option<Key>, disk: seq<DiskTask>)
    ensures RetainedOneForm(LoadedRetained(key, disk))
  {
    if disk != [] {
      LoadedRetainedOneForm(key, disk[..|disk| - 1]);
    }
  }

  /** No save ever writes a password in both forms, even if the loaded file had. */
  lemma NoSaveWritesBothForms(disk: seq<DiskTask>, key: Option<Key>, entropy: Entropy, events: seq<Event>,
                              last: Entropy)
    requires forall i :: 0 <= i < |events| ==> !events[i].Restart?
    ensures var s := AfterAll(Loaded(disk, key, entropy), events);
            forall i :: 0 <= i < |s.tasks| ==> OneForm(Saved(s, last).disk[i])
  {
    LoadedRetainedOneForm(key, disk);
    RetainedFixed(Loaded(disk, key, entropy), events);
  }

  lemma {:induction false} RetainedFixed(s: Store, events: seq<Event>)
    requires forall i :: 0 <= i < |events| ==> !events[i].Restart?
    ensures AfterAll(s, events).retained == s.retained && AfterAll(s, events).key == s.key
    decreases |events|
  {
    if events != [] {
      assert !events[0].Restart?;
      RetainedFixed(After(s, events[0]), events[1..]);
    }
  }

  lemma {:induction false} WithKeyNothingPlainRetained(k: Key, disk: seq<DiskTask>)
    ensures forall id :: id in LoadedRetained(Some(k), disk) ==> LoadedRetained(Some(k), disk)[id].plain == ""
  {
    if disk != [] {
      WithKeyNothingPlainRetained(k, disk[..|disk| - 1]);
    }
  }

  /** After a load with a key, no plaintext password remains on disk, provided
      the loaded file did not hold any password in both forms. */
  lemma LoadWithKeyLeavesNoPlaintext(disk: seq<DiskTask>, k: Key, entropy: Entropy)
    requires forall i :: 0 <= i < |disk| ==> OneForm(disk[i])
    ensures var stored := Loaded(disk, Some(k), entropy).disk;
            forall i :: 0 <= i < |stored| ==> stored[i].password == ""
  {
    WithKeyNothingPlainRetained(k, disk);
    var s := Loaded(disk, Some(k), entropy);
    if !exists i :: 0 <= i < |disk| && LegacyPlaintext(disk[i]) {
      forall i | 0 <= i < |disk| ensures disk[i].password == "" {
        assert !LegacyPlaintext(disk[i]);
      }
    }
  }

  /** Exactly when plaintext remains: the file has an entry in both forms and no
      entry in plaintext alone, so that nothing triggers the rewrite. */
  lemma PlaintextRemainsIff(disk: seq<DiskTask>, k: Key, entropy: Entropy)
    ensures var stored := Loaded(disk, Some(k), entropy).disk;
            (exists i :: 0 <= i < |stored| && stored[i].password != "") <==>
              ((exists i :: 0 <= i < |disk| && !OneForm(disk[i])) && !SomeLegacy(disk))
  {
    WithKeyNothingPlainRetained(k, disk);
    if exists i :: 0 <= i < |disk| && LegacyPlaintext(disk[i]) {
    } else {
      var s := Loaded(disk, Some(k), entropy);
      assert s.disk == disk;
      if exists i :: 0 <= i < |disk| && disk[i].password != "" {
        var i :| 0 <= i < |disk| && disk[i].password != "";
        assert !LegacyPlaintext(disk[i]);
        assert !OneForm(disk[i]);
      }
    }
  }

  /** An entry that no key opens is written back as it is, by every process. */
  lemma UnreadableIsKept(disk: seq<DiskTask>, i: nat, key: Option<Key>, entropy: Entropy, last: Entropy)
    requires UniqueDiskIds(disk) && i < |disk| && disk[i].password == "" && disk[i].enc != Absent
    requires key.Some? ==> Decrypt(key.value, disk[i].enc).None?
    ensures Saved(Loaded(disk, key, entropy), last).disk[i] == disk[i]
  {
    RetainedLookup(key, disk, i);
  }
}
