/** What a save may put into the state file, over any history: no password that was
    not already there in plaintext ever gets there in plaintext, and a password added
    to a process is sealed under its key or not stored at all. */
module CredentialSecrecy {
  import opened Tasks
  import opened Secrets
  import opened Credentials

  /* ---------- What one save writes ---------- */

  /** Every entry a save writes is one of three: the retained credential as it was
      stored, where the process cannot write a better one; the password sealed, so that
      it opens under the key of the process; or nothing. */
  lemma SaveWrites(s: Store, entropy: Entropy, i: nat)
    requires i < |s.tasks|
    ensures var t, d := s.tasks[i], Saved(s, entropy).disk[i];
            && d.id == t.id
            && (if t.id in s.retained && (t.password == "" || s.key.None?) then
                  d.password == s.retained[t.id].plain && d.enc == s.retained[t.id].enc
                else
                  && d.password == ""
                  && (d.enc != Absent <==> t.password != "" && s.key.Some? && entropy(t.id).Some?)
                  && (d.enc != Absent ==> Decrypt(s.key.value, d.enc) == Some(t.password)))
  {
    var t := s.tasks[i];
    if s.key.Some? && entropy(t.id).Some? {
      RoundTrip(s.key.value, entropy(t.id).value, t.password);
    }
  }

  /** What a load takes from an entry: the password it can read, and the entry itself
      where it could not write it again. */
  lemma LoadReads(key: Option<Key>, disk: seq<DiskTask>, entropy: Entropy, i: nat)
    requires UniqueDiskIds(disk) && i < |disk|
    ensures var s, d := Loaded(disk, key, entropy), disk[i];
            var opens := d.enc != Absent && key.Some? && Decrypt(key.value, d.enc).Some?;
            && s.key == key && |s.tasks| == |disk| && s.tasks[i].id == d.id
            && s.tasks[i].password == (if opens then Decrypt(key.value, d.enc).value else d.password)
            && (d.id in s.retained <==> !opens && (d.enc != Absent || (d.password != "" && key.None?)))
            && (d.id in s.retained && d.enc == Absent ==> s.retained[d.id] == Retained(Absent, d.password))
            && (d.id in s.retained && d.enc != Absent ==> s.retained[d.id] == Retained(d.enc, ""))
  {
    RetainedLookup(key, disk, i);
  }

  /* ---------- No new plaintext ---------- */

  /** The password is in plaintext under this identifier. */
  ghost predicate InPlaintext(disk: seq<DiskTask>, id: string, password: string) {
    exists i :: 0 <= i < |disk| && disk[i].id == id && disk[i].password == password
  }

  /** All plaintext of the store, on disk or retained, is that of an earlier file. */
  ghost predicate PlaintextStems(s: Store, disk0: seq<DiskTask>) {
    && (forall i :: 0 <= i < |s.disk| && s.disk[i].password != "" ==>
          InPlaintext(disk0, s.disk[i].id, s.disk[i].password))
    && (forall id :: id in s.retained && s.retained[id].plain != "" ==> InPlaintext(disk0, id, s.retained[id].plain))
  }

  lemma {:induction false} RetainedWasInPlaintext(key: Option<Key>, disk: seq<DiskTask>, id: string)
    requires id in LoadedRetained(key, disk) && LoadedRetained(key, disk)[id].plain != ""
    ensures key.None? && InPlaintext(disk, id, LoadedRetained(key, disk)[id].plain)
  {
    var n := |disk| - 1;
    var before := LoadedRetained(key, disk[..n]);
    if OpenConfig(key, disk[n]).keep.Some? && disk[n].id == id {
      assert disk[n].password == LoadedRetained(key, disk)[id].plain;
    } else {
      RetainedWasInPlaintext(key, disk[..n], id);
      var i :| 0 <= i < n && disk[..n][i].id == id && disk[..n][i].password == before[id].plain;
      assert disk[i].id == id && disk[i].password == before[id].plain;
    }
  }

  lemma StemsAfterSave(s: Store, entropy: Entropy, disk0: seq<DiskTask>)
    requires PlaintextStems(s, disk0)
    ensures PlaintextStems(Saved(s, entropy), disk0)
  {
    var s' := Saved(s, entropy);
    forall i | 0 <= i < |s'.disk| && s'.disk[i].password != ""
      ensures InPlaintext(disk0, s'.disk[i].id, s'.disk[i].password)
    {
      SaveWrites(s, entropy, i);
    }
  }

  lemma StemsAfterLoad(disk: seq<DiskTask>, key: Option<Key>, entropy: Entropy, disk0: seq<DiskTask>)
    requires forall i :: 0 <= i < |disk| && disk[i].password != "" ==> InPlaintext(disk0, disk[i].id, disk[i].password)
    ensures PlaintextStems(Loaded(disk, key, entropy), disk0)
  {
    var s := Store(key, LoadedTasks(key, disk), LoadedRetained(key, disk), disk);
    forall id | id in s.retained && s.retained[id].plain != "" ensures InPlaintext(disk0, id, s.retained[id].plain) {
      RetainedWasInPlaintext(key, disk, id);
      var i :| 0 <= i < |disk| && disk[i].id == id && disk[i].password == s.retained[id].plain;
      assert InPlaintext(disk0, disk[i].id, disk[i].password);
    }
    if Rewrites(disk, key) {
      StemsAfterSave(s, entropy, disk0);
    }
  }

  /** Over any history, with any keys and tasks added, removed and restarted: a
      password that is in plaintext in the state file was in plaintext there from the
      beginning, under the same identifier. */
  lemma {:induction false} NoNewPlaintext(s: Store, events: seq<Event>, disk0: seq<DiskTask>)
    requires PlaintextStems(s, disk0)
    ensures PlaintextStems(AfterAll(s, events), disk0)
    decreases |events|
  {
    if events != [] {
      match events[0] {
        case Restart(key, entropy) => StemsAfterLoad(s.disk, key, entropy, disk0);
        case Save(entropy) => StemsAfterSave(s, entropy, disk0);
        case Add(_) =>
        case Remove(_) =>
      }
      NoNewPlaintext(After(s, events[0]), events[1..], disk0);
    }
  }

  /** In particular from the file that the first process loads. */
  lemma PlaintextIsAsOldAsTheFile(disk0: seq<DiskTask>, key: Option<Key>, entropy: Entropy, events: seq<Event>, i: nat)
    requires var disk := AfterAll(Loaded(disk0, key, entropy), events).disk; i < |disk| && disk[i].password != ""
    ensures var disk := AfterAll(Loaded(disk0, key, entropy), events).disk;
            exists j :: 0 <= j < |disk0| && disk0[j].id == disk[i].id && disk0[j].password == disk[i].password
  {
    forall j | 0 <= j < |disk0| && disk0[j].password != "" ensures InPlaintext(disk0, disk0[j].id, disk0[j].password) {
    }
    StemsAfterLoad(disk0, key, entropy, disk0);
    NoNewPlaintext(Loaded(disk0, key, entropy), events, disk0);
  }

  /* ---------- Passwords added to a process ---------- */

  ghost predicate NoRestarts(events: seq<Event>) {
    forall i :: 0 <= i < |events| ==> !events[i].Restart?
  }

  /** A task with a password joins a process that has a key: in memory, not stored
      yet. */
  lemma AddedIsUnsaved(s: Store, t: MemTask)
    requires s.key.Some? && t.password != "" && UniqueIds(s.tasks) && UniqueDiskIds(s.disk)
    requires t.id !in Listed(s.tasks) && t.id !in s.retained && BlankOnDisk(s.disk, t.id)
    ensures Suffers(After(s, Add(t)), t.id, Credential(t.password, s.key), Unsaved)
  {
    var s' := After(s, Add(t));
    AddKeepsUnique(s.tasks, t);
    assert s'.tasks[|s.tasks|] == t && Holds(s'.key, s'.retained, t, Credential(t.password, s.key));
  }

  lemma {:induction false} NotGoneWithoutRestart(fate: Fate, s: Store, events: seq<Event>, id: string, c: Credential)
    requires NoRestarts(events) && fate != Gone
    ensures FateAfterAll(fate, s, events, id, c) != Gone && CredentialAfterAll(c, events) == c
    decreases |events|
  {
    if events != [] {
      assert !events[0].Restart?;
      NotGoneWithoutRestart(FateAfter(fate, s, events[0], id, c), After(s, events[0]), events[1..], id, c);
    }
  }

  lemma HeldIsSealed(s: Store, id: string, c: Credential, entropy: Entropy)
    requires c.password != "" && c.lock.Some? && s.key == c.lock && entropy(id).Some?
    requires UniqueIds(s.tasks) && InMemory(s, id, c)
    ensures var disk := Saved(s, entropy).disk;
            exists i :: 0 <= i < |disk| && disk[i].id == id && disk[i].password == ""
                        && Decrypt(c.lock.value, disk[i].enc) == Some(c.password)
  {
    SaveDecides(s, id, c, entropy);
    var disk := Saved(s, entropy).disk;
    var i :| 0 <= i < |disk| && disk[i].id == id && Carries(disk[i], c);
  }

  /** Whatever else the process does meanwhile, the next save that has random bytes
      for it seals the password, so that it opens under the key. */
  lemma AddedIsSealed(s: Store, t: MemTask, events: seq<Event>, entropy: Entropy)
    requires s.key.Some? && t.password != "" && UniqueIds(s.tasks) && UniqueDiskIds(s.disk)
    requires t.id !in Listed(s.tasks) && t.id !in s.retained && BlankOnDisk(s.disk, t.id)
    requires NoRestarts(events) && AllLeave(After(s, Add(t)), events, t.id) && entropy(t.id).Some?
    ensures var disk := Saved(AfterAll(After(s, Add(t)), events), entropy).disk;
            exists i :: 0 <= i < |disk| && disk[i].id == t.id && disk[i].password == ""
                        && Decrypt(s.key.value, disk[i].enc) == Some(t.password)
  {
    var s1, c := After(s, Add(t)), Credential(t.password, s.key);
    AddedIsUnsaved(s, t);
    NotGoneWithoutRestart(Unsaved, s1, events, t.id, c);
    HistoryDecidesFate(s1, events, t.id, c, Unsaved);
    RetainedFixed(s1, events);
    HeldIsSealed(AfterAll(s1, events), t.id, c, entropy);
  }

  /** And a process without a key stores nothing of it in any form, whatever is added
      or removed: it is lost with the process. */
  lemma {:induction false} WithoutKeyNothingIsStored(s: Store, events: seq<Event>, id: string)
    requires s.key.None? && id !in s.retained && BlankOnDisk(s.disk, id) && NoRestarts(events)
    ensures BlankOnDisk(AfterAll(s, events).disk, id)
    decreases |events|
  {
    if events != [] {
      var s' := After(s, events[0]);
      assert !events[0].Restart?;
      if events[0].Save? {
        forall i | 0 <= i < |s'.disk| && s'.disk[i].id == id
          ensures s'.disk[i].password == "" && s'.disk[i].enc == Absent
        {
          SaveWrites(s, events[0].entropy, i);
        }
      }
      WithoutKeyNothingIsStored(s', events[1..], id);
    }
  }

  /** A removed task takes its credential along: the next save has no entry of it. */
  lemma RemovedIsForgotten(s: Store, id: string, entropy: Entropy)
    requires UniqueIds(s.tasks)
    ensures var disk := Saved(After(s, Event.Remove(id)), entropy).disk;
            forall i :: 0 <= i < |disk| ==> disk[i].id != id
    ensures forall t :: t in s.tasks && t.id != id ==> t in After(s, Event.Remove(id)).tasks
  {
    WithoutKeeps(s.tasks, id);
    var s' := After(s, Event.Remove(id));
    forall i | 0 <= i < |s'.tasks| ensures s'.tasks[i].id != id {
      assert s'.tasks[i] in s'.tasks;
    }
  }
}
