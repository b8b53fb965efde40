/** One resumable upload against a failing SFTP server, as a function of what
    each operation answers, with the trace of every state it passes through. */
module Upload {

  newtype byte = x: int | 0 <= x < 256
  type Bytes = seq<byte>

  /** Resume verifies at most this many bytes of the partial file. */
  const MAX_PREFIX: nat := 1048576

  /** A mutating request may be carried out and acknowledged, carried out with
      its acknowledgement lost, or refused. */
  datatype Answer = Done | Lost | Refused {
    predicate TookEffect() { this != Refused }
  }

  /** The transfer either writes everything, or fails having written `good` bytes
      in a row and, through requests that were already under way, arbitrary bytes
      after them. */
  datatype Transfer = Complete | Broken(good: nat, junk: Bytes)

  /** What every operation of one attempt answers; a Boolean is success.
      `readLocalAt` is where a failed read of the local prefix stops, and
      `pipelined` says that the remote file offers ReadFrom and Truncate. */
  datatype Faults = Faults(
    statFinal: bool,
    openLocal: bool,
    statLocal: bool,
    statTemp: bool,
    openTemp: bool,
    readTemp: bool,
    seekLocalStart: bool,
    readLocal: bool,
    readLocalAt: nat,
    seekTempEnd: bool,
    seekLocal: bool,
    create: Answer,
    transfer: Transfer,
    pipelined: bool,
    seekTempCurrent: bool,
    truncate: Answer,
    close: bool,
    statAgain: bool,
    remove: Answer,
    rename: Answer,
    removeLocal: bool)

  datatype Config = Config(overwrite: bool, deleteAfterVerify: bool)

  /** The remote file system and whether the local file is still there. */
  datatype World = World(remote: map<string, Bytes>, localPresent: bool)

  datatype Result =
    | Success
    | TargetExists
    | TargetUnknown
    | LocalUnreadable
    | CreateFailed
    | CopyFailed
    | CloseFailed
    | StatFailed
    | SizeMismatch
    | RenameFailed

  /** An attempt: the states it passes through, the first being the one it starts
      from, and its result. */
  datatype Attempt = Attempt(trace: seq<World>, result: Result) {
    function Last(): World
      requires trace != []
    {
      trace[|trace| - 1]
    }
  }

  function TempPath(path: string): string { path + ".tmp" }

  lemma TempPathDiffers(path: string)
    ensures TempPath(path) != path
  {
    assert |TempPath(path)| == |path| + 4;
  }

  function MinNat(a: nat, b: nat): nat { if a < b then a else b }

  /** How the transfer starts: continuing the partial file from its end, or
      creating the file anew; and where the local file is read from. */
  datatype Start = Resume(offset: nat) | Fresh(cursor: nat)

  /** The resume decision. Every abandoned resume leaves the local cursor where
      its last read or seek put it. */
  function Plan(remote: map<string, Bytes>, path: string, local: Bytes, f: Faults): Start {
    var temp := TempPath(path);
    if !f.statTemp || temp !in remote then Fresh(0)
    else
      var partial := remote[temp];
      if !(0 < |partial| < |local|) then Fresh(0)
      else if !f.openTemp then Fresh(0)
      else
        var checkSize := MinNat(|partial|, MAX_PREFIX);
        if !f.readTemp || !f.seekLocalStart then Fresh(0)
        else if !f.readLocal then Fresh(MinNat(f.readLocalAt, checkSize))
        else if partial[..checkSize] != local[..checkSize] then Fresh(checkSize)
        else if !f.seekTempEnd || !f.seekLocal then Fresh(checkSize)
        else Resume(|partial|)
  }

  /** What the temp file holds when the transfer begins, and what is sent. */
  function Base(remote: map<string, Bytes>, path: string, start: Start): Bytes {
    if start.Resume? && TempPath(path) in remote then remote[TempPath(path)] else []
  }

  function Source(local: Bytes, start: Start): Bytes {
    var from := if start.Resume? then start.offset else start.cursor;
    if from <= |local| then local[from..] else []
  }

  /** The contents a transfer leaves, and the length up to which they are sound. */
  function Sent(base: Bytes, source: Bytes, f: Faults): Bytes {
    match f.transfer
    case Complete => base + source
    case Broken(good, junk) => base + source[..MinNat(good, |source|)] + (if f.pipelined then junk else [])
  }

  function SafeLength(base: Bytes, source: Bytes, f: Faults): nat {
    match f.transfer
    case Complete => |base| + |source|
    case Broken(good, _) => |base| + MinNat(good, |source|)
  }

  /** trimPartialUpload takes effect. */
  predicate Trims(f: Faults) { f.pipelined && f.seekTempCurrent && f.truncate.TookEffect() }

  /** Publishing a verified temp file. Rename is refused while the target exists
      (section 6.5 of draft-ietf-secsh-filexfer-02). */
  function Publish(before: seq<World>, path: string, cfg: Config, f: Faults): Attempt
    requires before != []
  {
    var w := before[|before| - 1];
    var temp := TempPath(path);
    var w1 := if cfg.overwrite && f.remove.TookEffect() then w.(remote := w.remote - {path}) else w;
    var trace1 := before + [w1];
    if temp !in w1.remote || path in w1.remote || f.rename == Refused then Attempt(trace1, RenameFailed)
    else
      var w2 := w1.(remote := (w1.remote - {temp})[path := w1.remote[temp]]);
      var trace2 := trace1 + [w2];
      if f.rename == Lost then Attempt(trace2, RenameFailed)
      else if cfg.deleteAfterVerify && f.removeLocal then Attempt(trace2 + [w2.(localPresent := false)], Success)
      else Attempt(trace2, Success)
  }

  /** Verifying the temp file after a complete transfer. */
  function Check(before: seq<World>, path: string, local: Bytes, cfg: Config, f: Faults): Attempt
    requires before != []
  {
    var w := before[|before| - 1];
    if !f.close then Attempt(before, CloseFailed)
    else if !f.statAgain || TempPath(path) !in w.remote then Attempt(before, StatFailed)
    else if |w.remote[TempPath(path)]| != |local| then Attempt(before, SizeMismatch)
    else Publish(before, path, cfg, f)
  }

  /** From the open temp file to the result. */
  function Transmit(before: seq<World>, path: string, local: Bytes, cfg: Config, start: Start, f: Faults): Attempt
    requires before != []
  {
    var w := before[|before| - 1];
    var temp := TempPath(path);
    var base, source := Base(w.remote, path, start), Source(local, start);
    var sent := Sent(base, source, f);
    var trace1 := before + [w.(remote := w.remote[temp := sent])];
    if f.transfer.Broken? then
      if Trims(f) then
        Attempt(trace1 + [w.(remote := w.remote[temp := sent[..SafeLength(base, source, f)]])], CopyFailed)
      else Attempt(trace1, CopyFailed)
    else Check(trace1, path, local, cfg, f)
  }

  /** From the resume decision on. */
  function Proceed(w: World, path: string, local: Bytes, cfg: Config, f: Faults): Attempt {
    var start := Plan(w.remote, path, local, f);
    if start.Resume? then Transmit([w], path, local, cfg, start, f)
    else
      var w1 := if f.create.TookEffect() then w.(remote := w.remote[TempPath(path) := []]) else w;
      if f.create != Done then Attempt([w, w1], CreateFailed)
      else Transmit([w, w1], path, local, cfg, start, f)
  }

  /** UploadFile. */
  function UploadAttempt(w: World, path: string, local: Bytes, cfg: Config, f: Faults): Attempt {
    if !cfg.overwrite && !f.statFinal then Attempt([w], TargetUnknown)
    else if !cfg.overwrite && path in w.remote then Attempt([w], TargetExists)
    else if !w.localPresent || !f.openLocal || !f.statLocal then Attempt([w], LocalUnreadable)
    else Proceed(w, path, local, cfg, f)
  }

  /* ---------- What verification really establishes ---------- */

  function ResumeOffset(start: Start): nat { if start.Resume? then start.offset else 0 }

  /** Equal length, and agreement on the verified prefix of the resumed part and
      on everything sent after it. */
  ghost predicate AgreesAround(content: Bytes, local: Bytes, offset: nat) {
    && |content| == |local| && offset <= |local|
    && content[..MinNat(offset, MAX_PREFIX)] == local[..MinNat(offset, MAX_PREFIX)]
    && content[offset..] == local[offset..]
  }

  /** The rename was asked for. */
  predicate ReachedRename(r: Result) { r == Success || r == RenameFailed }

  /** What the attempt puts into the temp file by a complete transfer. */
  function Assembled(w: World, path: string, local: Bytes, f: Faults): Bytes {
    var start := Plan(w.remote, path, local, f);
    var prepared := if start.Resume? then w.remote else w.remote[TempPath(path) := []];
    Base(prepared, path, start) + Source(local, start)
  }

  /** The resume decision, by what each operation answers. */
  lemma PlanDecides(remote: map<string, Bytes>, path: string, local: Bytes, f: Faults)
    ensures var start, temp := Plan(remote, path, local, f), TempPath(path);
            var partial := if temp in remote then remote[temp] else [];
            var checkSize := if |partial| < MAX_PREFIX then |partial| else MAX_PREFIX;
            var read := f.statTemp && 0 < |partial| < |local| && f.openTemp && f.readTemp && f.seekLocalStart;
            var matches := read && f.readLocal && partial[..checkSize] == local[..checkSize];
            && (start.Resume? <==> matches && f.seekTempEnd && f.seekLocal)
            && (start.Resume? ==> start.offset == |partial|)
            && (start.Fresh? && !read ==> start.cursor == 0)
            && (start.Fresh? && read && f.readLocal ==> start.cursor == checkSize)
            && (start.Fresh? && read && !f.readLocal ==>
                  start.cursor == (if f.readLocalAt < checkSize then f.readLocalAt else checkSize))
  {
  }

  lemma PlanBounds(remote: map<string, Bytes>, path: string, local: Bytes, f: Faults)
    ensures var start := Plan(remote, path, local, f);
            && (start.Fresh? ==> start.cursor <= |local|)
            && (start.Resume? ==>
                  && TempPath(path) in remote
                  && var partial := remote[TempPath(path)];
                     && start.offset == |partial| && 0 < |partial| < |local|
                     && partial[..MinNat(|partial|, MAX_PREFIX)] == local[..MinNat(|partial|, MAX_PREFIX)])
  {
  }

  /** Whatever the temp file held and whichever operations failed: when the
      rename is reached, the assembled file has the local length and agrees with
      the local file before byte min(s, 1 MiB) and from the resume offset s on.
      An abandoned resume that moved the local cursor never gets that far. */
  lemma RenameReached(w: World, path: string, local: Bytes, cfg: Config, f: Faults)
    requires ReachedRename(UploadAttempt(w, path, local, cfg, f).result)
    ensures f.transfer == Complete
    ensures AgreesAround(Assembled(w, path, local, f), local, ResumeOffset(Plan(w.remote, path, local, f)))
    ensures Plan(w.remote, path, local, f).Fresh? ==> Plan(w.remote, path, local, f).cursor == 0
  {
    PlanBounds(w.remote, path, local, f);
    var start := Plan(w.remote, path, local, f);
    if start.Resume? {
      var partial := w.remote[TempPath(path)];
      var content := partial + local[start.offset..];
      assert content[..MinNat(start.offset, MAX_PREFIX)] == partial[..MinNat(start.offset, MAX_PREFIX)];
      assert content[start.offset..] == local[start.offset..];
    } else {
      assert [] + local[start.cursor..] == local[start.cursor..];
    }
  }

  /** Exactly when the assembled file is the local file: nothing was resumed, or
      the resumed part is a prefix of it. Resuming at or below 1 MiB is exact. */
  lemma AssembledExactlyIff(w: World, path: string, local: Bytes, cfg: Config, f: Faults)
    requires ReachedRename(UploadAttempt(w, path, local, cfg, f).result)
    ensures var start := Plan(w.remote, path, local, f);
            && (Assembled(w, path, local, f) == local <==> (start.Resume? ==> w.remote[TempPath(path)] <= local))
            && (ResumeOffset(start) <= MAX_PREFIX ==> Assembled(w, path, local, f) == local)
  {
    RenameReached(w, path, local, cfg, f);
    PlanBounds(w.remote, path, local, f);
    var start := Plan(w.remote, path, local, f);
    if start.Resume? {
      var partial := w.remote[TempPath(path)];
      var content := partial + local[start.offset..];
      assert content[..start.offset] == partial;
      assert local == local[..start.offset] + local[start.offset..];
      if start.offset <= MAX_PREFIX {
        assert partial[..start.offset] == partial;
      }
    }
  }
}
