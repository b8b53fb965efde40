/** Nothing is lost and nothing unverified is published, at any point of any
    attempt; and what whole runs of retries do to the temp file. */
module UploadSafety {
  import opened Upload

  /* ---------- Every state of an attempt ---------- */

  ghost predicate OthersUntouched(w0: World, w: World, path: string) {
    forall p :: p != path && p != TempPath(path) ==>
      (p in w.remote <==> p in w0.remote) && (p in w.remote ==> w.remote[p] == w0.remote[p])
  }

  predicate TargetUntouched(w0: World, w: World, path: string) {
    (path in w.remote <==> path in w0.remote) && (path in w.remote ==> w.remote[path] == w0.remote[path])
  }

  predicate TargetIs(w: World, path: string, content: Bytes) { path in w.remote && w.remote[path] == content }

  /** The final path holds what it held, or nothing where overwriting is allowed,
      or the assembled file; and the local file is gone only in the last case. */
  ghost predicate Unharmed(w0: World, w: World, path: string, cfg: Config, content: Bytes) {
    && OthersUntouched(w0, w, path)
    && (TargetUntouched(w0, w, path) || (cfg.overwrite && path !in w.remote) || TargetIs(w, path, content))
    && (!cfg.overwrite && path in w0.remote ==> TargetUntouched(w0, w, path))
    && (w.localPresent || !w0.localPresent || TargetIs(w, path, content))
    && (w.localPresent ==> w0.localPresent)
  }

  ghost predicate AllUnharmed(w0: World, trace: seq<World>, path: string, cfg: Config, content: Bytes) {
    forall i :: 0 <= i < |trace| ==> Unharmed(w0, trace[i], path, cfg, content)
  }

  /** Nothing but the temp file has changed. */
  ghost predicate Untouched(w0: World, w: World, path: string) {
    OthersUntouched(w0, w, path) && TargetUntouched(w0, w, path) && w.localPresent == w0.localPresent
  }

  lemma TempWritten(w0: World, w: World, path: string, data: Bytes)
    requires Untouched(w0, w, path)
    ensures Untouched(w0, w.(remote := w.remote[TempPath(path) := data]), path)
  {
    TempPathDiffers(path);
  }

  lemma UnharmedAppend(w0: World, trace: seq<World>, w: World, path: string, cfg: Config, content: Bytes)
    requires AllUnharmed(w0, trace, path, cfg, content) && Unharmed(w0, w, path, cfg, content)
    ensures AllUnharmed(w0, trace + [w], path, cfg, content)
  {
  }

  /** Removing the target and renaming over it, in the two cases that matter. */
  lemma PublishedStates(w0: World, w: World, path: string, cfg: Config, f: Faults)
    requires Untouched(w0, w, path) && TempPath(path) in w.remote
    requires !cfg.overwrite ==> path !in w.remote
    ensures var content := w.remote[TempPath(path)];
            var w1 := if cfg.overwrite && f.remove.TookEffect() then w.(remote := w.remote - {path}) else w;
            var w2 := w1.(remote := (w1.remote - {TempPath(path)})[path := content]);
            && Unharmed(w0, w1, path, cfg, content)
            && TempPath(path) in w1.remote && w1.remote[TempPath(path)] == content
            && Unharmed(w0, w2, path, cfg, content)
            && Unharmed(w0, w2.(localPresent := false), path, cfg, content)
  {
    TempPathDiffers(path);
  }

  lemma PublishUnharmed(w0: World, before: seq<World>, path: string, cfg: Config, f: Faults)
    requires before != [] && Untouched(w0, before[|before| - 1], path)
    requires TempPath(path) in before[|before| - 1].remote
    requires !cfg.overwrite ==> path !in before[|before| - 1].remote
    requires AllUnharmed(w0, before, path, cfg, before[|before| - 1].remote[TempPath(path)])
    ensures var a, content := Publish(before, path, cfg, f), before[|before| - 1].remote[TempPath(path)];
            && a.trace != []
            && AllUnharmed(w0, a.trace, path, cfg, content)
            && (a.result == Success ==> TargetIs(a.Last(), path, content))
  {
    PublishedStates(w0, before[|before| - 1], path, cfg, f);
  }

  lemma TransmitUnharmed(w0: World, before: seq<World>, path: string, local: Bytes, cfg: Config, start: Start,
                         f: Faults)
    requires before != [] && Untouched(w0, before[|before| - 1], path)
    requires !cfg.overwrite ==> path !in before[|before| - 1].remote
    requires AllUnharmed(w0, before, path, cfg, Base(before[|before| - 1].remote, path, start) + Source(local, start))
    ensures var a := Transmit(before, path, local, cfg, start, f);
            var content := Base(before[|before| - 1].remote, path, start) + Source(local, start);
            && a.trace != []
            && AllUnharmed(w0, a.trace, path, cfg, content)
            && (a.result == Success ==> TargetIs(a.Last(), path, content))
  {
    var w := before[|before| - 1];
    var base, source := Base(w.remote, path, start), Source(local, start);
    var sent := Sent(base, source, f);
    var w1 := w.(remote := w.remote[TempPath(path) := sent]);
    TempWritten(w0, w, path, sent);
    TempPathDiffers(path);
    UnharmedAppend(w0, before, w1, path, cfg, base + source);
    if f.transfer.Complete? {
      PublishUnharmed(w0, before + [w1], path, cfg, f);
    } else if Trims(f) {
      var kept := sent[..SafeLength(base, source, f)];
      TempWritten(w0, w, path, kept);
      UnharmedAppend(w0, before + [w1], w.(remote := w.remote[TempPath(path) := kept]), path, cfg, base + source);
    }
  }

  lemma AssembledIs(w: World, path: string, local: Bytes, f: Faults)
    ensures var start := Plan(w.remote, path, local, f);
            && (start.Resume? ==> Assembled(w, path, local, f) == Base(w.remote, path, start) + Source(local, start))
            && (start.Fresh? ==> Assembled(w, path, local, f) == [] + Source(local, start))
  {
  }

  lemma ProceedUnharmed(w: World, path: string, local: Bytes, cfg: Config, f: Faults)
    requires cfg.overwrite || path !in w.remote
    ensures var a, content := Proceed(w, path, local, cfg, f), Assembled(w, path, local, f);
            && a.trace != []
            && AllUnharmed(w, a.trace, path, cfg, content)
            && (a.result == Success ==> TargetIs(a.Last(), path, content))
  {
    var start := Plan(w.remote, path, local, f);
    AssembledIs(w, path, local, f);
    if start.Resume? {
      TransmitUnharmed(w, [w], path, local, cfg, start, f);
    } else {
      var w1 := w.(remote := w.remote[TempPath(path) := []]);
      TempWritten(w, w, path, []);
      TempPathDiffers(path);
      TransmitUnharmed(w, [w, w1], path, local, cfg, start, f);
    }
  }

  /** An attempt starts where it starts. */
  lemma TraceStarts(w: World, path: string, local: Bytes, cfg: Config, f: Faults)
    ensures UploadAttempt(w, path, local, cfg, f).trace != [] && UploadAttempt(w, path, local, cfg, f).trace[0] == w
  {
  }

  /** At every point of every attempt the final path holds its earlier content,
      nothing (only with overwriting), or the assembled file; no other file is
      touched; without overwriting an existing target is never replaced; and the
      local file is deleted only once the assembled file is in place. Success
      means it is in place. */
  lemma AttemptUnharmed(w: World, path: string, local: Bytes, cfg: Config, f: Faults)
    ensures var a, content := UploadAttempt(w, path, local, cfg, f), Assembled(w, path, local, f);
            && a.trace != [] && a.trace[0] == w
            && AllUnharmed(w, a.trace, path, cfg, content)
            && (a.result == Success ==> TargetIs(a.Last(), path, content))
  {
    TraceStarts(w, path, local, cfg, f);
    if cfg.overwrite || path !in w.remote {
      ProceedUnharmed(w, path, local, cfg, f);
    }
  }

  ghost predicate AllUntouched(w0: World, trace: seq<World>, path: string) {
    forall i :: 0 <= i < |trace| ==> Untouched(w0, trace[i], path)
  }

  lemma TransmitUnrenamed(w0: World, before: seq<World>, path: string, local: Bytes, cfg: Config, start: Start,
                          f: Faults)
    requires before != [] && AllUntouched(w0, before, path)
    requires !ReachedRename(Transmit(before, path, local, cfg, start, f).result)
    ensures AllUntouched(w0, Transmit(before, path, local, cfg, start, f).trace, path)
  {
    var w := before[|before| - 1];
    var base, source := Base(w.remote, path, start), Source(local, start);
    var sent := Sent(base, source, f);
    TempWritten(w0, w, path, sent);
    if Trims(f) && f.transfer.Broken? {
      TempWritten(w0, w, path, sent[..SafeLength(base, source, f)]);
    }
  }

  /** Short of the rename, an attempt touches nothing but the temp file. */
  lemma UnrenamedLeavesTarget(w: World, path: string, local: Bytes, cfg: Config, f: Faults)
    requires !ReachedRename(UploadAttempt(w, path, local, cfg, f).result)
    ensures AllUntouched(w, UploadAttempt(w, path, local, cfg, f).trace, path)
  {
    var start := Plan(w.remote, path, local, f);
    TempWritten(w, w, path, []);
    var before := if start.Resume? then [w] else [w, w.(remote := w.remote[TempPath(path) := []])];
    if !ReachedRename(Transmit(before, path, local, cfg, start, f).result) {
      TransmitUnrenamed(w, before, path, local, cfg, start, f);
    }
  }

  /** Nothing but a file that passed the size check is ever published: a target
      that has changed to something agrees with the local file as far as a
      verified upload does. */
  lemma ChangedTargetWasVerified(w: World, path: string, local: Bytes, cfg: Config, f: Faults, i: nat)
    requires var a := UploadAttempt(w, path, local, cfg, f);
             i < |a.trace| && path in a.trace[i].remote && !TargetUntouched(w, a.trace[i], path)
    ensures AgreesAround(UploadAttempt(w, path, local, cfg, f).trace[i].remote[path], local,
                         ResumeOffset(Plan(w.remote, path, local, f)))
  {
    var a := UploadAttempt(w, path, local, cfg, f);
    if !ReachedRename(a.result) {
      UnrenamedLeavesTarget(w, path, local, cfg, f);
      assert false;
    }
    assert Unharmed(w, a.trace[i], path, cfg, Assembled(w, path, local, f)) by {
      AttemptUnharmed(w, path, local, cfg, f);
    }
    RenameReached(w, path, local, cfg, f);
  }

  /* ---------- What each attempt does ---------- */

  /** What a broken transfer leaves in the temp file: what was there and the bytes
      written in a row, followed by the stray bytes of requests under way unless
      they are trimmed away. */
  lemma BrokenLeaves(w: World, path: string, local: Bytes, cfg: Config, f: Faults)
    requires UploadAttempt(w, path, local, cfg, f).result == CopyFailed
    ensures f.transfer.Broken?
    ensures var a, start := UploadAttempt(w, path, local, cfg, f), Plan(w.remote, path, local, f);
            && (start.Resume? ==> TempPath(path) in w.remote && start.offset <= |local|)
            && (start.Fresh? ==> start.cursor <= |local|)
            && var kept := if start.Resume? then w.remote[TempPath(path)] else [];
               var toSend := if start.Resume? then local[start.offset..] else local[start.cursor..];
               var good := if f.transfer.good < |toSend| then f.transfer.good else |toSend|;
               && a.trace != [] && TempPath(path) in a.Last().remote
               && a.Last().remote[TempPath(path)]
                  == (if !f.pipelined || (f.seekTempCurrent && f.truncate != Refused) then kept + toSend[..good]
                      else kept + toSend[..good] + f.transfer.junk)
  {
    TempPathDiffers(path);
    PlanBounds(w.remote, path, local, f);
    var start := Plan(w.remote, path, local, f);
    var before := if start.Resume? then [w] else [w, w.(remote := w.remote[TempPath(path) := []])];
    BrokenTransmit(before, path, local, cfg, start, f);
  }

  lemma BrokenTransmit(before: seq<World>, path: string, local: Bytes, cfg: Config, start: Start, f: Faults)
    requires before != [] && f.transfer.Broken?
    ensures var w := before[|before| - 1];
            var kept, toSend := Base(w.remote, path, start), Source(local, start);
            var good := if f.transfer.good < |toSend| then f.transfer.good else |toSend|;
            var a := Transmit(before, path, local, cfg, start, f);
            && a.trace != [] && TempPath(path) in a.Last().remote
            && a.Last().remote[TempPath(path)]
               == (if !f.pipelined || (f.seekTempCurrent && f.truncate != Refused) then kept + toSend[..good]
                   else kept + toSend[..good] + f.transfer.junk)
  {
    var w := before[|before| - 1];
    var kept, toSend := Base(w.remote, path, start), Source(local, start);
    var sound := kept + toSend[..MinNat(f.transfer.good, |toSend|)];
    assert (sound + f.transfer.junk)[..|sound|] == sound && (sound + [])[..|sound|] == sound;
  }

  /** Exactly when an attempt succeeds: what each operation has to answer. */
  lemma AttemptSucceedsIff(w: World, path: string, local: Bytes, cfg: Config, f: Faults)
    ensures var start := Plan(w.remote, path, local, f);
            UploadAttempt(w, path, local, cfg, f).result == Success <==>
              (&& (cfg.overwrite || (f.statFinal && path !in w.remote))
               && w.localPresent && f.openLocal && f.statLocal
               && (start.Resume? || (start.cursor == 0 && f.create == Done))
               && f.transfer.Complete? && f.close && f.statAgain
               && (path !in w.remote || f.remove != Refused) && f.rename == Done)
  {
    TempPathDiffers(path);
    PlanBounds(w.remote, path, local, f);
  }

  /** Why it stops before it begins. */
  lemma AttemptRefusedIff(w: World, path: string, local: Bytes, cfg: Config, f: Faults)
    ensures var a := UploadAttempt(w, path, local, cfg, f);
            && (a.result == TargetUnknown <==> !cfg.overwrite && !f.statFinal)
            && (a.result == TargetExists <==> !cfg.overwrite && f.statFinal && path in w.remote)
            && (a.result == LocalUnreadable <==> (cfg.overwrite || (f.statFinal && path !in w.remote))
                                                 && !(w.localPresent && f.openLocal && f.statLocal))
            && (a.result in {TargetUnknown, TargetExists, LocalUnreadable} ==> a.trace == [w])
  {
  }

  /** What success leaves: the temp file has become the target, and the local file
      is deleted exactly if that was asked for and worked. */
  lemma SuccessLeaves(w: World, path: string, local: Bytes, cfg: Config, f: Faults)
    requires UploadAttempt(w, path, local, cfg, f).result == Success
    ensures var a := UploadAttempt(w, path, local, cfg, f);
            && a.trace != [] && TempPath(path) !in a.Last().remote
            && TargetIs(a.Last(), path, Assembled(w, path, local, f))
            && (a.Last().localPresent <==> !(cfg.deleteAfterVerify && f.removeLocal))
  {
    TempPathDiffers(path);
    AttemptUnharmed(w, path, local, cfg, f);
  }

  /** An attempt that abandons its resume, and in which nothing fails from then on up
      to the verification, sends the rest of the local file only and fails its size check. */
  lemma AbandonedLeavesTail(w: World, path: string, local: Bytes, cfg: Config, f: Faults)
    requires Abandoned(w.remote, path, local, f) && f.create == Done && f.transfer.Complete? && f.close && f.statAgain
    requires (cfg.overwrite || (f.statFinal && path !in w.remote)) && w.localPresent && f.openLocal && f.statLocal
    ensures var a := UploadAttempt(w, path, local, cfg, f);
            var checkSize := MinNat(|w.remote[TempPath(path)]|, MAX_PREFIX);
            var cursor := if f.readLocal then checkSize else MinNat(f.readLocalAt, checkSize);
            && 0 < cursor <= |local| && a.result == SizeMismatch && a.trace != []
            && TempPath(path) in a.Last().remote && a.Last().remote[TempPath(path)] == local[cursor..]
  {
    TempPathDiffers(path);
    PlanDecides(w.remote, path, local, f);
    var start := Plan(w.remote, path, local, f);
    var w1 := w.(remote := w.remote[TempPath(path) := []]);
    assert Sent(Base(w1.remote, path, start), Source(local, start), f) == local[start.cursor..];
  }

  /* ---------- Runs of retries ---------- */

  /** A run of attempts, each starting where the one before ended, that stops at
      the first success. */
  function Runs(w: World, path: string, local: Bytes, cfg: Config, faults: seq<Faults>): (worlds: seq<World>)
    ensures 1 <= |worlds| <= |faults| + 1 && worlds[0] == w
    decreases |faults|
  {
    if faults == [] then [w]
    else
      var a := UploadAttempt(w, path, local, cfg, faults[0]);
      TraceStarts(w, path, local, cfg, faults[0]);
      if a.result == Success then [w, a.Last()]
      else [w] + Runs(a.Last(), path, local, cfg, faults[1..])
  }

  predicate Succeeds(w: World, path: string, local: Bytes, cfg: Config, faults: seq<Faults>)
    decreases |faults|
  {
    faults != []
    && (var a := UploadAttempt(w, path, local, cfg, faults[0]);
        TraceStarts(w, path, local, cfg, faults[0]);
        a.result == Success || Succeeds(a.Last(), path, local, cfg, faults[1..]))
  }

  /** The temp file is absent or a prefix of the local file. */
  predicate TempIsPrefix(w: World, path: string, local: Bytes) {
    TempPath(path) in w.remote ==> w.remote[TempPath(path)] <= local
  }

  /** A resume is given up after the reading of its prefix has moved the local cursor. */
  predicate Abandoned(remote: map<string, Bytes>, path: string, local: Bytes, f: Faults) {
    && f.statTemp && TempPath(path) in remote
    && var partial := remote[TempPath(path)];
       var checkSize := MinNat(|partial|, MAX_PREFIX);
       && 0 < |partial| < |local| && f.openTemp && f.readTemp && f.seekLocalStart
       && (if f.readLocal then partial[..checkSize] != local[..checkSize] || !f.seekTempEnd || !f.seekLocal
           else f.readLocalAt > 0)
  }

  /** A broken transfer that leaves no stray bytes: it is trimmed, or cannot have any. */
  predicate Trimmed(f: Faults)
    requires f.transfer.Broken?
  {
    !f.pipelined || f.transfer.junk == [] || (f.seekTempCurrent && f.truncate != Refused)
  }

  /** No resume is abandoned, and a failed transfer is trimmed or left no bytes after
      its gap. */
  predicate Tidy(remote: map<string, Bytes>, path: string, local: Bytes, f: Faults) {
    !Abandoned(remote, path, local, f) && (f.transfer.Broken? ==> Trimmed(f))
  }

  lemma SentIsPrefix(base: Bytes, source: Bytes, f: Faults)
    ensures SafeLength(base, source, f) <= |Sent(base, source, f)|
    ensures Sent(base, source, f)[..SafeLength(base, source, f)] <= base + source
    ensures f.transfer.Broken? && (!f.pipelined || f.transfer.junk == []) ==> Sent(base, source, f) <= base + source
  {
    if f.transfer.Broken? {
      var good := MinNat(f.transfer.good, |source|);
      var sound := base + source[..good];
      assert base + source == sound + source[good..];
      assert Sent(base, source, f)[..|sound|] == sound;
    }
  }

  lemma Joins(part: Bytes, local: Bytes)
    requires part <= local
    ensures part + local[|part|..] == local
  {
  }

  lemma TidySource(remote: map<string, Bytes>, path: string, local: Bytes, f: Faults)
    requires TempPath(path) in remote ==> remote[TempPath(path)] <= local
    requires Tidy(remote, path, local, f)
    ensures var start := Plan(remote, path, local, f); Base(remote, path, start) + Source(local, start) == local
  {
    PlanBounds(remote, path, local, f);
    PlanDecides(remote, path, local, f);
    var start := Plan(remote, path, local, f);
    if start.Resume? {
      Joins(remote[TempPath(path)], local);
    } else {
      Joins([], local);
    }
  }

  /** What a tidy attempt assembles is the local file. */
  lemma TidyAssembles(w: World, path: string, local: Bytes, f: Faults)
    requires TempIsPrefix(w, path, local) && Tidy(w.remote, path, local, f)
    ensures Assembled(w, path, local, f) == local
    ensures var start := Plan(w.remote, path, local, f);
            Base(w.remote, path, start) + Source(local, start) == local
  {
    TidySource(w.remote, path, local, f);
    AssembledIs(w, path, local, f);
  }

  lemma CheckKeepsTemp(before: seq<World>, path: string, local: Bytes, cfg: Config, f: Faults)
    requires before != [] && TempIsPrefix(before[|before| - 1], path, local)
    ensures var a := Check(before, path, local, cfg, f); a.trace != [] && TempIsPrefix(a.Last(), path, local)
  {
    TempPathDiffers(path);
  }

  lemma TidyTransmit(before: seq<World>, path: string, local: Bytes, cfg: Config, start: Start, f: Faults)
    requires before != [] && Base(before[|before| - 1].remote, path, start) + Source(local, start) == local
    requires f.transfer.Broken? ==> Trimmed(f)
    ensures var a := Transmit(before, path, local, cfg, start, f); a.trace != [] && TempIsPrefix(a.Last(), path, local)
  {
    var w := before[|before| - 1];
    var base, source := Base(w.remote, path, start), Source(local, start);
    if f.transfer.Complete? {
      CheckKeepsTemp(before + [w.(remote := w.remote[TempPath(path) := Sent(base, source, f)])], path, local, cfg, f);
    } else {
      SentIsPrefix(base, source, f);
    }
  }

  /** One tidy attempt leaves the temp file absent or a prefix. */
  lemma TidyAttempt(w: World, path: string, local: Bytes, cfg: Config, f: Faults)
    requires TempIsPrefix(w, path, local) && Tidy(w.remote, path, local, f)
    ensures var a := UploadAttempt(w, path, local, cfg, f); a.trace != [] && TempIsPrefix(a.Last(), path, local)
  {
    var start := Plan(w.remote, path, local, f);
    TidyAssembles(w, path, local, f);
    var w1 := w.(remote := w.remote[TempPath(path) := []]);
    TidyTransmit(if start.Resume? then [w] else [w, w1], path, local, cfg, start, f);
  }

  ghost predicate AllTidy(w: World, path: string, local: Bytes, cfg: Config, faults: seq<Faults>)
    decreases |faults|
  {
    faults != [] ==>
      && Tidy(w.remote, path, local, faults[0])
      && (TraceStarts(w, path, local, cfg, faults[0]);
          AllTidy(UploadAttempt(w, path, local, cfg, faults[0]).Last(), path, local, cfg, faults[1..]))
  }

  /** Upload integrity over a whole retry run: from a temp file that is absent or
      a prefix, through any tidy failures, the temp file is a prefix after every
      attempt, and success leaves the local file, byte for byte, at the target. */
  lemma {:induction false} TidyRunIsExact(w: World, path: string, local: Bytes, cfg: Config, faults: seq<Faults>)
    requires TempIsPrefix(w, path, local) && AllTidy(w, path, local, cfg, faults)
    ensures var worlds := Runs(w, path, local, cfg, faults);
            && (forall i :: 0 <= i < |worlds| ==> TempIsPrefix(worlds[i], path, local))
            && (Succeeds(w, path, local, cfg, faults) ==> TargetIs(worlds[|worlds| - 1], path, local))
    decreases |faults|
  {
    if faults != [] {
      var a := UploadAttempt(w, path, local, cfg, faults[0]);
      TidyAttempt(w, path, local, cfg, faults[0]);
      assert a.result == Success ==> TargetIs(a.Last(), path, local) by {
        AttemptUnharmed(w, path, local, cfg, faults[0]);
        TidyAssembles(w, path, local, faults[0]);
      }
      if a.result != Success {
        TidyRunIsExact(a.Last(), path, local, cfg, faults[1..]);
      }
    }
  }
}
