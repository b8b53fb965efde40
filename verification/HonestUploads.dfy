/** Attempts and runs of retries in which nothing fails: when they succeed, and
    what they publish, from any partial file; in particular from one that fails
    its prefix check, and from one that a broken transfer left untrimmed. */
module HonestUploads {
  import opened Upload
  import opened UploadSafety

  /** Every operation succeeds. */
  const HONEST: Faults :=
    Faults(true, true, true, true, true, true, true, true, 0, true, true, Done, Complete,
           true, true, Done, true, true, Done, Done, true)

  /** The partial file will be tried for resume and fail its prefix check. */
  predicate Mismatched(w: World, path: string, local: Bytes) {
    TempPath(path) in w.remote
    && var partial := w.remote[TempPath(path)];
       0 < |partial| < |local| && partial[..MinNat(|partial|, MAX_PREFIX)] != local[..MinNat(|partial|, MAX_PREFIX)]
  }

  /** The partial file will be tried for resume. */
  predicate Tried(w: World, path: string, local: Bytes) {
    TempPath(path) in w.remote && 0 < |w.remote[TempPath(path)]| < |local|
  }

  predicate Writable(w: World, path: string, cfg: Config) { cfg.overwrite || path !in w.remote }

  /** When nothing fails, an attempt succeeds exactly when the target may be
      written and the partial file, if tried for resume, passes its check. */
  lemma HonestAttemptSucceedsIff(w: World, path: string, local: Bytes, cfg: Config)
    requires w.localPresent
    ensures UploadAttempt(w, path, local, cfg, HONEST).result == Success
            <==> (cfg.overwrite || path !in w.remote) && !Mismatched(w, path, local)
  {
    TempPathDiffers(path);
    PlanBounds(w.remote, path, local, HONEST);
  }

  lemma HonestPlan(w: World, path: string, local: Bytes)
    ensures Plan(w.remote, path, local, HONEST).Resume? <==> Tried(w, path, local) && !Mismatched(w, path, local)
  {
  }

  /** What an attempt in which nothing fails publishes. It is the local file exactly
      if the partial file, if tried for resume, is a prefix of it; it is something
      else exactly if that file passes the prefix check without being a prefix. */
  lemma HonestAttemptPublishesIff(w: World, path: string, local: Bytes, cfg: Config)
    requires w.localPresent && Writable(w, path, cfg)
    ensures var a := UploadAttempt(w, path, local, cfg, HONEST);
            && a.trace != []
            && (a.result == Success && TargetIs(a.Last(), path, local)
                <==> (Tried(w, path, local) ==> w.remote[TempPath(path)] <= local))
            && (a.result == Success && !TargetIs(a.Last(), path, local)
                <==> Tried(w, path, local) && !Mismatched(w, path, local) && !(w.remote[TempPath(path)] <= local))
  {
    HonestAttemptSucceedsIff(w, path, local, cfg);
    HonestPlan(w, path, local);
    var a := UploadAttempt(w, path, local, cfg, HONEST);
    assert a.trace != [] && (a.result == Success ==> TargetIs(a.Last(), path, Assembled(w, path, local, HONEST))) by {
      AttemptUnharmed(w, path, local, cfg, HONEST);
    }
    if a.result == Success {
      AssembledExactlyIff(w, path, local, cfg, HONEST);
    }
  }

  /** With DeleteAfterVerify, whatever was published, the local file is gone. */
  lemma HonestSuccessDeletes(w: World, path: string, local: Bytes, cfg: Config)
    requires UploadAttempt(w, path, local, cfg, HONEST).result == Success && cfg.deleteAfterVerify
    ensures var a := UploadAttempt(w, path, local, cfg, HONEST); a.trace != [] && !a.Last().localPresent
  {
  }

  /* ---------- After a mismatch ---------- */

  /** A mismatch is not repaired: the attempt reads on from where its check left
      the local cursor, and leaves a temp file that lacks the start. */
  lemma HonestMismatchLeavesTail(w: World, path: string, local: Bytes, cfg: Config)
    requires w.localPresent && Mismatched(w, path, local) && (cfg.overwrite || path !in w.remote)
    ensures var a := UploadAttempt(w, path, local, cfg, HONEST);
            var checkSize := MinNat(|w.remote[TempPath(path)]|, MAX_PREFIX);
            && a.result == SizeMismatch && a.trace != []
            && a.Last() == w.(remote := w.remote[TempPath(path) := local[checkSize..]])
  {
    var checkSize := MinNat(|w.remote[TempPath(path)]|, MAX_PREFIX);
    var w1, start := w.(remote := w.remote[TempPath(path) := []]), Fresh(checkSize);
    assert Plan(w.remote, path, local, HONEST) == start;
    assert Sent(Base(w1.remote, path, start), Source(local, start), HONEST) == local[checkSize..];
    assert w1.remote[TempPath(path) := local[checkSize..]] == w.remote[TempPath(path) := local[checkSize..]];
  }

  function HonestRun(n: nat): (faults: seq<Faults>)
    ensures |faults| == n && forall i :: 0 <= i < n ==> faults[i] == HONEST
  {
    seq(n, i => HONEST)
  }

  /** Where the check of the partial file leaves the local cursor. */
  function Cursor(w: World, path: string): nat
    requires TempPath(path) in w.remote
  {
    MinNat(|w.remote[TempPath(path)]|, MAX_PREFIX)
  }

  /** Where the check of the file left by a mismatch at c will leave it. */
  function NextCursor(local: Bytes, c: nat): nat
    requires c <= |local|
  {
    MinNat(|local| - c, MAX_PREFIX)
  }

  predicate InFile(local: Bytes, c: nat) { 0 < c < |local| && c <= MAX_PREFIX }

  /** The local file without its first c bytes passes the check against itself. */
  predicate Passes(local: Bytes, c: nat)
    requires InFile(local, c)
  {
    local[c..][..NextCursor(local, c)] == local[..NextCursor(local, c)]
  }

  /** From the second mismatch on, at most two cursors alternate. */
  lemma CursorsAlternate(local: Bytes, c: nat)
    requires InFile(local, c)
    ensures var c1 := NextCursor(local, c);
            InFile(local, c1) && InFile(local, NextCursor(local, c1))
            && NextCursor(local, NextCursor(local, c1)) == c1
  {
  }

  /** n attempts get past a mismatch at c: the second if the file passes at c, or
      the third or the fourth if it passes at the cursors that come next. */
  predicate Heals(local: Bytes, c: nat, n: nat)
    requires InFile(local, c)
  {
    CursorsAlternate(local, c);
    var c1 := NextCursor(local, c);
    (n >= 2 && Passes(local, c)) || (n >= 3 && Passes(local, c1)) || (n >= 4 && Passes(local, NextCursor(local, c1)))
  }

  lemma HealsUnfold(local: Bytes, c: nat, n: nat)
    requires InFile(local, c) && n > 0
    ensures InFile(local, NextCursor(local, c))
    ensures Heals(local, c, n) <==> n >= 2 && (Passes(local, c) || Heals(local, NextCursor(local, c), n - 1))
  {
    CursorsAlternate(local, c);
    CursorsAlternate(local, NextCursor(local, c));
  }

  /** The first of the cursors at which the file passes. */
  function HealingCursor(local: Bytes, c: nat): (h: nat)
    requires InFile(local, c)
    ensures InFile(local, h)
  {
    CursorsAlternate(local, c);
    var c1 := NextCursor(local, c);
    if Passes(local, c) then c else if Passes(local, c1) then c1 else NextCursor(local, c1)
  }

  lemma HealingUnfold(local: Bytes, c: nat, n: nat)
    requires InFile(local, c) && InFile(local, NextCursor(local, c))
    requires !Passes(local, c) && Heals(local, NextCursor(local, c), n)
    ensures HealingCursor(local, c) == HealingCursor(local, NextCursor(local, c))
  {
    CursorsAlternate(local, c);
    CursorsAlternate(local, NextCursor(local, c));
  }

  /** What is published then: the local file without its first c bytes, and its
      last c bytes again. */
  function Spliced(local: Bytes, c: nat): Bytes
    requires c <= |local|
  {
    local[c..] + local[|local| - c..]
  }

  /** That is the local file exactly if its tail is a prefix of it, as it must be
      when the check covers the whole of the tail. */
  lemma SplicedIsLocalIff(local: Bytes, c: nat)
    requires InFile(local, c) && Passes(local, c)
    ensures Spliced(local, c) == local <==> local[c..] <= local
    ensures |local| - c <= MAX_PREFIX ==> Spliced(local, c) == local
  {
    var tail := local[c..];
    if tail <= local {
      assert local == local[..|tail|] + local[|tail|..];
    }
    if Spliced(local, c) == local {
      assert Spliced(local, c)[..|tail|] == tail;
    }
    if |local| - c <= MAX_PREFIX {
      assert tail[..|tail|] == tail;
    }
  }

  /** The state a mismatch leaves. */
  function Tailed(w: World, path: string, local: Bytes, c: nat): World
    requires c <= |local|
  {
    w.(remote := w.remote[TempPath(path) := local[c..]])
  }

  lemma TailedMismatchIff(w: World, path: string, local: Bytes, c: nat)
    requires InFile(local, c)
    ensures var w1 := Tailed(w, path, local, c);
            && Cursor(w1, path) == NextCursor(local, c)
            && Tried(w1, path, local)
            && (Mismatched(w1, path, local) <==> !Passes(local, c))
  {
  }

  lemma TailedKeeps(w: World, path: string, local: Bytes, c: nat, cfg: Config)
    requires c <= |local|
    ensures var w1 := Tailed(w, path, local, c);
            w1.localPresent == w.localPresent && (Writable(w1, path, cfg) <==> Writable(w, path, cfg))
  {
    TempPathDiffers(path);
  }

  /** The attempt that gets past the check. */
  lemma HealingAttempt(w: World, path: string, local: Bytes, c: nat, cfg: Config)
    requires w.localPresent && Writable(w, path, cfg) && InFile(local, c) && Passes(local, c)
    ensures var a := UploadAttempt(Tailed(w, path, local, c), path, local, cfg, HONEST);
            a.trace != [] && a.result == Success && TargetIs(a.Last(), path, Spliced(local, c))
  {
    var w1 := Tailed(w, path, local, c);
    TailedMismatchIff(w, path, local, c);
    TailedKeeps(w, path, local, c, cfg);
    HonestAttemptSucceedsIff(w1, path, local, cfg);
    HonestPlan(w1, path, local);
    PlanBounds(w1.remote, path, local, HONEST);
    assert Assembled(w1, path, local, HONEST) == Spliced(local, c);
    AttemptUnharmed(w1, path, local, cfg, HONEST);
  }

  lemma HonestMismatchTails(w: World, path: string, local: Bytes, cfg: Config)
    requires w.localPresent && Mismatched(w, path, local) && Writable(w, path, cfg)
    ensures InFile(local, Cursor(w, path))
    ensures var a := UploadAttempt(w, path, local, cfg, HONEST);
            a.trace != [] && a.result != Success && a.Last() == Tailed(w, path, local, Cursor(w, path))
  {
    HonestMismatchLeavesTail(w, path, local, cfg);
  }

  lemma HonestRunSteps(w: World, path: string, local: Bytes, cfg: Config, n: nat)
    requires n > 0
    ensures var a := UploadAttempt(w, path, local, cfg, HONEST);
            && a.trace != []
            && (Succeeds(w, path, local, cfg, HonestRun(n))
                <==> a.result == Success || Succeeds(a.Last(), path, local, cfg, HonestRun(n - 1)))
            && Outcome(w, path, local, cfg, n)
               == (if a.result == Success then a.Last() else Outcome(a.Last(), path, local, cfg, n - 1))
  {
    TraceStarts(w, path, local, cfg, HONEST);
    assert HonestRun(n)[1..] == HonestRun(n - 1) && HonestRun(n)[0] == HONEST;
  }

  /** The state that n such attempts end in. */
  function Outcome(w: World, path: string, local: Bytes, cfg: Config, n: nat): World {
    var worlds := Runs(w, path, local, cfg, HonestRun(n));
    worlds[|worlds| - 1]
  }

  lemma {:induction false} StuckRun(w: World, path: string, local: Bytes, cfg: Config, n: nat)
    requires !(w.localPresent && Writable(w, path, cfg))
    ensures !Succeeds(w, path, local, cfg, HonestRun(n))
    decreases n
  {
    if n > 0 {
      HonestRunSteps(w, path, local, cfg, n);
      assert UploadAttempt(w, path, local, cfg, HONEST).trace == [w];
      StuckRun(w, path, local, cfg, n - 1);
    }
  }

  lemma RunAfterMismatch(w: World, path: string, local: Bytes, cfg: Config, n: nat)
    requires Mismatched(w, path, local) && w.localPresent && Writable(w, path, cfg) && n > 0
    ensures InFile(local, Cursor(w, path))
    ensures var w1 := Tailed(w, path, local, Cursor(w, path));
            && (Succeeds(w, path, local, cfg, HonestRun(n)) <==> Succeeds(w1, path, local, cfg, HonestRun(n - 1)))
            && Outcome(w, path, local, cfg, n) == Outcome(w1, path, local, cfg, n - 1)
  {
    HonestMismatchTails(w, path, local, cfg);
    HonestRunSteps(w, path, local, cfg, n);
  }

  lemma HealedRun(w: World, path: string, local: Bytes, c: nat, cfg: Config, n: nat)
    requires w.localPresent && Writable(w, path, cfg) && InFile(local, c) && Passes(local, c) && n > 0
    ensures var w1 := Tailed(w, path, local, c);
            && Succeeds(w1, path, local, cfg, HonestRun(n))
            && TargetIs(Outcome(w1, path, local, cfg, n), path, Spliced(local, c))
  {
    HonestRunSteps(Tailed(w, path, local, c), path, local, cfg, n);
    HealingAttempt(w, path, local, c, cfg);
  }

  /** After a mismatch, over any number of attempts in which nothing fails: the run
      succeeds exactly if the local file passes the check against itself at one of
      the cursors it meets by then, at most three in all; and what it publishes
      is spliced at the first of them. */
  lemma {:induction false} HonestRunHealsIff(w: World, path: string, local: Bytes, cfg: Config, n: nat)
    requires Mismatched(w, path, local) && w.localPresent && Writable(w, path, cfg)
    ensures InFile(local, Cursor(w, path))
    ensures Succeeds(w, path, local, cfg, HonestRun(n)) <==> Heals(local, Cursor(w, path), n)
    ensures Succeeds(w, path, local, cfg, HonestRun(n)) ==>
              TargetIs(Outcome(w, path, local, cfg, n), path, Spliced(local, HealingCursor(local, Cursor(w, path))))
    decreases n
  {
    var c := Cursor(w, path);
    assert InFile(local, c);
    if n > 0 {
      RunAfterMismatch(w, path, local, cfg, n);
      HealsUnfold(local, c, n);
      if n > 1 {
        if Passes(local, c) {
          HealedRun(w, path, local, c, cfg, n - 1);
        } else {
          var w1 := Tailed(w, path, local, c);
          TailedMismatchIff(w, path, local, c);
          TailedKeeps(w, path, local, c, cfg);
          HonestRunHealsIff(w1, path, local, cfg, n - 1);
          if Heals(local, NextCursor(local, c), n - 1) {
            HealingUnfold(local, c, n - 1);
          }
        }
      }
    }
  }

  /** The whole of it: when any number of attempts in which nothing fails succeeds,
      from any state whatever. */
  lemma HonestRunSucceedsIff(w: World, path: string, local: Bytes, cfg: Config, n: nat)
    ensures Mismatched(w, path, local) ==> InFile(local, Cursor(w, path))
    ensures Succeeds(w, path, local, cfg, HonestRun(n))
            <==> (&& n > 0 && w.localPresent && Writable(w, path, cfg)
                  && (Mismatched(w, path, local) ==> Heals(local, Cursor(w, path), n)))
  {
    if !(w.localPresent && Writable(w, path, cfg)) {
      StuckRun(w, path, local, cfg, n);
    } else if Mismatched(w, path, local) {
      HonestRunHealsIff(w, path, local, cfg, n);
    } else if n > 0 {
      HonestRunSteps(w, path, local, cfg, n);
      HonestAttemptSucceedsIff(w, path, local, cfg);
    }
  }

  /** Retrying can lose the file: from any mismatching partial file of 1 MiB or
      more, a local file of 2 MiB or more whose second MiB repeats its first, but
      whose whole tail does not, is reported as uploaded after two attempts in
      which nothing fails. The target holds another file, and with
      DeleteAfterVerify the local one is gone. */
  lemma RetryPublishesWrongFile(w: World, path: string, local: Bytes, cfg: Config)
    requires Mismatched(w, path, local) && w.localPresent && Writable(w, path, cfg)
    requires |w.remote[TempPath(path)]| >= MAX_PREFIX && |local| >= 2 * MAX_PREFIX
    requires local[MAX_PREFIX..2 * MAX_PREFIX] == local[..MAX_PREFIX] && !(local[MAX_PREFIX..] <= local)
    ensures Succeeds(w, path, local, cfg, HonestRun(2))
    ensures var end := Outcome(w, path, local, cfg, 2);
            && path in end.remote && end.remote[path] != local
            && (cfg.deleteAfterVerify ==> !end.localPresent)
  {
    var c := MAX_PREFIX;
    HonestRunHealsIff(w, path, local, cfg, 2);
    assert local[c..][..c] == local[c..2 * c];
    SplicedIsLocalIff(local, c);
    if cfg.deleteAfterVerify {
      HonestMismatchTails(w, path, local, cfg);
      HonestRunSteps(w, path, local, cfg, 2);
      HonestRunSteps(Tailed(w, path, local, c), path, local, cfg, 1);
      HealingAttempt(w, path, local, c, cfg);
      HonestSuccessDeletes(Tailed(w, path, local, c), path, local, cfg);
    }
  }

  /** Such files exist: 2 MiB of zeros followed by a one, with a partial file of
      1 MiB of ones. */
  lemma WrongFileExists() returns (local: Bytes, partial: Bytes)
    ensures var w := World(map[TempPath("f") := partial], true);
            && Mismatched(w, "f", local) && |partial| >= MAX_PREFIX && |local| >= 2 * MAX_PREFIX
            && local[MAX_PREFIX..2 * MAX_PREFIX] == local[..MAX_PREFIX] && !(local[MAX_PREFIX..] <= local)
  {
    local := seq(2 * MAX_PREFIX, i => 0) + [1];
    partial := seq(MAX_PREFIX, i => 1);
    assert partial[..MAX_PREFIX][0] != local[..MAX_PREFIX][0];
    assert local[MAX_PREFIX..][MAX_PREFIX] == 1 && local[MAX_PREFIX] == 0;
  }

  /* ---------- After an untrimmed transfer ---------- */

  /** What a broken transfer that is not trimmed leaves in the temp file. */
  function Gapped(w: World, path: string, local: Bytes, f: Faults): Bytes {
    var start := Plan(w.remote, path, local, f);
    Sent(if start.Resume? then Base(w.remote, path, start) else [], Source(local, start), f)
  }

  lemma UntrimmedLeaves(w: World, path: string, local: Bytes, cfg: Config, f: Faults)
    requires UploadAttempt(w, path, local, cfg, f).result == CopyFailed
    requires !(f.pipelined && f.seekTempCurrent && f.truncate != Refused)
    ensures var a := UploadAttempt(w, path, local, cfg, f);
            && a.trace != [] && TempPath(path) in a.Last().remote
            && a.Last().remote[TempPath(path)] == Gapped(w, path, local, f)
            && a.Last().localPresent && Writable(a.Last(), path, cfg)
  {
    TempPathDiffers(path);
    var start := Plan(w.remote, path, local, f);
    if start.Fresh? {
      var w1 := w.(remote := w.remote[TempPath(path) := []]);
      assert Base(w1.remote, path, start) == [];
    }
  }

  /** "A later resume will restart it": after any broken transfer that was not
      trimmed, over any partial file, an attempt in which nothing fails publishes
      the local file exactly if the gapped file is too long, empty, or a prefix
      after all; and another file exactly if the gap lies beyond the check. */
  lemma UntrimmedOutcomeIff(w: World, path: string, local: Bytes, cfg: Config, f: Faults)
    requires UploadAttempt(w, path, local, cfg, f).result == CopyFailed
    requires !(f.pipelined && f.seekTempCurrent && f.truncate != Refused)
    ensures var a, gapped := UploadAttempt(w, path, local, cfg, f), Gapped(w, path, local, f);
            var m := MinNat(|gapped|, MAX_PREFIX);
            && a.trace != []
            && var b := UploadAttempt(a.Last(), path, local, cfg, HONEST);
               && b.trace != []
               && (b.result == Success && TargetIs(b.Last(), path, local) <==>
                   (0 < |gapped| < |local| ==> gapped <= local))
               && (b.result == Success && !TargetIs(b.Last(), path, local)
                   <==> 0 < |gapped| < |local| && gapped[..m] == local[..m] && !(gapped <= local))
  {
    UntrimmedLeaves(w, path, local, cfg, f);
    HonestAttemptPublishesIff(UploadAttempt(w, path, local, cfg, f).Last(), path, local, cfg);
  }

  /** Over a sound partial file the gapped one is a prefix exactly if the stray
      bytes happen to be those that belong there. */
  lemma GapIsPrefixIff(base: Bytes, source: Bytes, f: Faults)
    requires f.transfer.Broken?
    ensures SafeLength(base, source, f) <= |base + source|
    ensures Sent(base, source, f) <= base + source
            <==> (f.pipelined ==> f.transfer.junk <= (base + source)[SafeLength(base, source, f)..])
  {
    var good := MinNat(f.transfer.good, |source|);
    var sound := base + source[..good];
    assert base + source == sound + source[good..];
    assert (base + source)[|sound|..] == source[good..];
    if f.pipelined {
      PrefixJoin(sound, f.transfer.junk, source[good..]);
    }
  }

  lemma PrefixJoin(sound: Bytes, junk: Bytes, rest: Bytes)
    ensures sound + junk <= sound + rest <==> junk <= rest
  {
    if sound + junk <= sound + rest {
      assert (sound + junk)[|sound|..] == junk && (sound + rest)[|sound|..] == rest;
    }
  }

  /** And an untrimmed gap is not detected: for every file longer than the
      verified prefix by two bytes or more, a broken transfer whose trim is
      refused, then an attempt in which nothing fails, succeeds with a file that
      differs from the local one. */
  lemma UntrimmedGapSurvives(w: World, path: string, local: Bytes, cfg: Config, wrong: byte)
    requires w.localPresent && path !in w.remote && TempPath(path) !in w.remote
    requires |local| >= MAX_PREFIX + 2 && wrong != local[MAX_PREFIX]
    ensures var broken := HONEST.(transfer := Broken(MAX_PREFIX, [wrong]), truncate := Refused);
            var a := UploadAttempt(w, path, local, cfg, broken);
            && a.trace != [] && a.result == CopyFailed
            && var b := UploadAttempt(a.Last(), path, local, cfg, HONEST);
               b.trace != [] && b.result == Success && path in b.Last().remote && b.Last().remote[path] != local
  {
    TempPathDiffers(path);
    var broken := HONEST.(transfer := Broken(MAX_PREFIX, [wrong]), truncate := Refused);
    var a := UploadAttempt(w, path, local, cfg, broken);
    var partial := local[..MAX_PREFIX] + [wrong];
    assert [] + local[0..][..MAX_PREFIX] + [wrong] == partial;
    assert a.Last().remote[TempPath(path)] == partial;
    assert partial[..MAX_PREFIX] == local[..MAX_PREFIX];
    HonestAttemptSucceedsIff(a.Last(), path, local, cfg);
    AttemptUnharmed(a.Last(), path, local, cfg, HONEST);
    var b := UploadAttempt(a.Last(), path, local, cfg, HONEST);
    assert b.Last().remote[path] == partial + local[MAX_PREFIX + 1..];
    assert b.Last().remote[path][MAX_PREFIX] == wrong;
  }
}
