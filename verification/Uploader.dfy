/** The SFTP client at work: UploadFile and UploadFileWithRetry as methods that
    change the remote files step by step, proved against module Upload. */
module Uploading {
  import opened Upload
  import opened UploadSafety
  import Backoff

  class SFTPClient {
    var remote: map<string, Bytes>
    var localPresent: bool
    ghost var history: seq<World>   // every state so far, the last being the current one

    ghost function Now(): World
      reads this
    {
      World(remote, localPresent)
    }

    ghost predicate Valid()
      reads this
    {
      history != [] && history[|history| - 1] == Now()
    }

    constructor (remote: map<string, Bytes>, localPresent: bool)
      ensures Valid() && Now() == World(remote, localPresent) && history == [Now()]
    {
      this.remote, this.localPresent := remote, localPresent;
      history := [World(remote, localPresent)];
    }

    /** A request that sets the remote files to `files`, if it takes effect. */
    method Request(files: map<string, Bytes>, answer: Answer) returns (ok: bool)
      requires Valid()
      modifies `remote, `history
      ensures Valid()
      ensures ok == (answer == Done)
      ensures remote == (if answer.TookEffect() then files else old(remote))
      ensures history == old(history) + [Now()]
    {
      if answer.TookEffect() {
        remote := files;
      }
      history := history + [World(remote, localPresent)];
      ok := answer == Done;
    }

    /** The resume decision of UploadFile. */
    method ChooseStart(path: string, local: Bytes, f: Faults) returns (start: Start)
      ensures start == Plan(remote, path, local, f)
    {
      var temp := TempPath(path);
      var cursor := 0;
      if f.statTemp && temp in remote {
        var partial := remote[temp];
        if |partial| > 0 && |partial| < |local| {
          if f.openTemp {
            var matching := false;
            var checkSize := |partial|;
            if checkSize > MAX_PREFIX {
              checkSize := MAX_PREFIX;
            }
            if f.readTemp {
              if f.seekLocalStart {
                cursor := 0;
                if f.readLocal {
                  cursor := checkSize;
                  matching := partial[..checkSize] == local[..checkSize];
                } else {
                  cursor := MinNat(f.readLocalAt, checkSize);
                }
              }
            }
            if matching {
              if f.seekTempEnd {
                var offset := |partial|;
                if f.seekLocal {
                  return Resume(offset);
                }
              }
            }
          }
        }
      }
      return Fresh(cursor);
    }

    /** trimPartialUpload: cuts the temp file back to `safeLength`. */
    method TrimPartialUpload(temp: string, safeLength: nat, f: Faults)
      requires Valid() && temp in remote && safeLength <= |remote[temp]|
      modifies `remote, `history
      ensures Valid()
      ensures f.pipelined && f.seekTempCurrent && f.truncate != Refused ==>
                && remote == old(remote)[temp := old(remote)[temp][..safeLength]]
                && history == old(history) + [Now()]
      ensures !(f.pipelined && f.seekTempCurrent && f.truncate != Refused) ==>
                remote == old(remote) && history == old(history)
    {
      if !f.pipelined {
        return;
      }
      if !f.seekTempCurrent {
        return;
      }
      if f.truncate.TookEffect() {
        var _ := Request(remote[temp := remote[temp][..safeLength]], f.truncate);
      }
    }

    /** The end of UploadFile: remove, rename, delete the local file. */
    method PublishTemp(path: string, cfg: Config, f: Faults) returns (result: Result)
      requires Valid() && TempPath(path) in remote
      modifies this
      ensures Valid()
      ensures var a := Publish([old(Now())], path, cfg, f);
              result == a.result && a.trace != [] && Now() == a.Last() && history == old(history) + a.trace[1..]
    {
      PublishTrace(Now(), path, cfg, f, history);
      var temp := TempPath(path);
      var _ := Request(remote - {path}, if cfg.overwrite then f.remove else Refused);
      if path in remote {
        return RenameFailed;
      }
      if f.rename == Refused {
        return RenameFailed;
      }
      var renamed := Request((remote - {temp})[path := remote[temp]], f.rename);
      if !renamed {
        return RenameFailed;
      }
      if cfg.deleteAfterVerify {
        if f.removeLocal {
          localPresent := false;
          history := history + [World(remote, localPresent)];
        }
      }
      return Success;
    }

    /** The verification of UploadFile after a complete transfer. */
    method CheckTemp(path: string, local: Bytes, cfg: Config, f: Faults) returns (result: Result)
      requires Valid()
      modifies this
      ensures Valid()
      ensures var a := Check([old(Now())], path, local, cfg, f);
              result == a.result && a.trace != [] && Now() == a.Last() && history == old(history) + a.trace[1..]
    {
      if !f.close {
        return CloseFailed;
      }
      if !f.statAgain || TempPath(path) !in remote {
        return StatFailed;
      }
      if |remote[TempPath(path)]| != |local| {
        return SizeMismatch;
      }
      result := PublishTemp(path, cfg, f);
    }

    /** From the open temp file to the result. */
    method Send(path: string, local: Bytes, cfg: Config, start: Start, f: Faults) returns (result: Result)
      requires Valid()
      modifies this
      ensures Valid()
      ensures var a := Transmit([old(Now())], path, local, cfg, start, f);
              result == a.result && a.trace != [] && Now() == a.Last() && history == old(history) + a.trace[1..]
    {
      var temp := TempPath(path);
      var base, source := Base(remote, path, start), Source(local, start);
      ghost var w0, h0 := Now(), history;
      var _ := Request(remote[temp := Sent(base, source, f)], Done);
      ghost var w1 := Now();
      if f.transfer.Broken? {
        BrokenTrace(w0, path, local, cfg, start, f, h0);
        TrimPartialUpload(temp, SafeLength(base, source, f), f);
        return CopyFailed;
      }
      result := CheckTemp(path, local, cfg, f);
      CompleteTrace(w0, path, local, cfg, start, f);
      HistoryJoins(h0, w0, w1, Check([w1], path, local, cfg, f).trace);
    }

    /** UploadFile from the resume decision on. */
    method StartAndSend(path: string, local: Bytes, cfg: Config, f: Faults) returns (result: Result)
      requires Valid()
      modifies this
      ensures Valid()
      ensures var a := Proceed(old(Now()), path, local, cfg, f);
              result == a.result && a.trace != [] && Now() == a.Last() && history == old(history) + a.trace[1..]
    {
      ghost var w0, h0 := Now(), history;
      var start := ChooseStart(path, local, f);
      if start.Resume? {
        result := Send(path, local, cfg, start, f);
        return;
      }
      FreshTrace(w0, path, local, cfg, f);
      var created := Request(remote[TempPath(path) := []], f.create);
      ghost var w1 := Now();
      if !created {
        return CreateFailed;
      }
      result := Send(path, local, cfg, start, f);
      HistoryJoins(h0, w0, w1, Transmit([w1], path, local, cfg, start, f).trace);
    }

    /** UploadFile: the result, the state it leaves and every state it passes
        through are those of UploadAttempt. */
    method UploadFile(path: string, local: Bytes, cfg: Config, f: Faults) returns (result: Result)
      requires Valid()
      modifies this
      ensures Valid()
      ensures var a := UploadAttempt(old(Now()), path, local, cfg, f);
              result == a.result && a.trace != [] && Now() == a.Last() && history == old(history) + a.trace[1..]
    {
      if !cfg.overwrite {
        if !f.statFinal {
          return TargetUnknown;
        }
        if path in remote {
          return TargetExists;
        }
      }
      if !localPresent || !f.openLocal {
        return LocalUnreadable;
      }
      if !f.statLocal {
        return LocalUnreadable;
      }
      result := StartAndSend(path, local, cfg, f);
    }

    /** One more attempt of a run that has not succeeded yet. */
    method UploadAgain(ghost w0: World, path: string, local: Bytes, cfg: Config, ghost earlier: seq<Faults>,
                       f: Faults) returns (result: Result)
      requires Valid() && !Succeeds(w0, path, local, cfg, earlier) && Now() == Final(w0, path, local, cfg, earlier)
      modifies this
      ensures Valid() && Now() == Final(w0, path, local, cfg, earlier + [f])
      ensures Succeeds(w0, path, local, cfg, earlier + [f]) <==> result == Success
    {
      RunsSnoc(w0, path, local, cfg, earlier, f);
      result := UploadFile(path, local, cfg, f);
    }

    /** UploadFileWithRetry. `faults` says how each attempt would go, `draws` what
        the jitter draws, and the context is done while waiting after attempt
        `cancelAfter`, if that is reached. The run is a run of Runs: it stops at
        the first success, at the cancellation, or when the budget is spent. */
    method UploadFileWithRetry(path: string, local: Bytes, cfg: Config, maxRetries: int, faults: seq<Faults>,
                               draws: seq<int>,
                               cancelAfter: nat)
      returns (ok: bool, attempts: nat, waits: seq<int>)
      requires Valid()
      requires |faults| == (if maxRetries <= 0 then 1 else maxRetries) && |draws| == |faults|
      requires forall i :: 0 <= i < |draws| ==> 0 <= draws[i] < Backoff.Delay(i + 1) / 2
      modifies this
      ensures Valid()
      ensures 1 <= attempts <= |faults|
      ensures ok == Succeeds(old(Now()), path, local, cfg, faults[..attempts])
      ensures Now() == Final(old(Now()), path, local, cfg, faults[..attempts])
      ensures !ok ==> attempts == |faults| || attempts == cancelAfter
      ensures attempts > 1 ==> !Succeeds(old(Now()), path, local, cfg, faults[..attempts - 1])
      ensures |waits| == attempts - 1 && Backoff.JitteredWaits(waits)
    {
      var limit := maxRetries;
      if limit <= 0 {
        limit := 1;
      }
      attempts, waits, ok := 0, [], false;
      ghost var w0 := Now();
      while attempts < limit
        invariant Valid() && 0 <= attempts <= limit == |faults|
        invariant !Succeeds(w0, path, local, cfg, faults[..attempts])
        invariant attempts > 1 ==> !Succeeds(w0, path, local, cfg, faults[..attempts - 1])
        invariant Now() == Final(w0, path, local, cfg, faults[..attempts])
        invariant |waits| == (if attempts == limit then attempts - 1 else attempts) && Backoff.JitteredWaits(waits)
        decreases limit - attempts
      {
        assert faults[..attempts + 1] == faults[..attempts] + [faults[attempts]];
        var result := UploadAgain(w0, path, local, cfg, faults[..attempts], faults[attempts]);
        attempts := attempts + 1;
        if result == Success {
          ok := true;
          return;
        }
        if attempts < limit {
          if attempts == cancelAfter {
            return;
          }
          var wait := Backoff.RetryDelay(attempts, draws[attempts - 1]);
          JitterAppends(waits, wait);
          waits := waits + [wait];
        }
      }
    }

    /** The upload of a task, with the retries its configuration asks for: at most
        100 attempts, 3 when unset, and less than 6.25 s of waiting for each gap. */
    method UploadTask(path: string, local: Bytes, cfg: Config, maxRetries: int, faults: seq<Faults>, draws: seq<int>,
                      cancelAfter: nat)
      returns (ok: bool, attempts: nat, waits: seq<int>)
      requires Valid()
      requires |faults| == Backoff.Attempts(maxRetries) == |draws|
      requires forall i :: 0 <= i < |draws| ==> 0 <= draws[i] < Backoff.Delay(i + 1) / 2
      modifies this
      ensures Valid() && attempts <= |faults|
      ensures ok == Succeeds(old(Now()), path, local, cfg, faults[..attempts])
      ensures Now() == Final(old(Now()), path, local, cfg, faults[..attempts])
      ensures WithinBudget(maxRetries, attempts, waits)
    {
      ok, attempts, waits := UploadFileWithRetry(path, local, cfg, Backoff.Attempts(maxRetries), faults, draws,
                                                   cancelAfter);
      Backoff.WaitingIsBounded(waits);
    }
  }

  /** The budget processTask gives a task's upload, with the waits it may cost. */
  ghost predicate WithinBudget(maxRetries: int, attempts: nat, waits: seq<int>) {
    && 1 <= attempts <= 100 && (maxRetries <= 0 ==> attempts <= 3) && (maxRetries > 0 ==> attempts <= maxRetries)
    && |waits| == attempts - 1
    && 0 <= Backoff.Sum(waits) && (waits != [] ==> 4 * Backoff.Sum(waits) < 25_000_000_000 * |waits|)
  }

  /** The state a run of attempts ends in. */
  function Final(w: World, path: string, local: Bytes, cfg: Config, faults: seq<Faults>): World {
    var worlds := Runs(w, path, local, cfg, faults);
    worlds[|worlds| - 1]
  }

  lemma JitterAppends(waits: seq<int>, wait: int)
    requires Backoff.JitteredWaits(waits)
    requires 3 * Backoff.Delay(|waits| + 1) <= 4 * wait < 5 * Backoff.Delay(|waits| + 1)
    ensures Backoff.JitteredWaits(waits + [wait])
  {
  }

  /** One more attempt after a run of failures. */
  lemma {:induction false} RunsSnoc(w: World, path: string, local: Bytes, cfg: Config, faults: seq<Faults>, f: Faults)
    requires !Succeeds(w, path, local, cfg, faults)
    ensures var a := UploadAttempt(Final(w, path, local, cfg, faults), path, local, cfg, f);
            && a.trace != []
            && Final(w, path, local, cfg, faults + [f]) == a.Last()
            && (Succeeds(w, path, local, cfg, faults + [f]) <==> a.result == Success)
    decreases |faults|
  {
    if faults == [] {
      assert ([] + [f])[1..] == [] && ([] + [f])[0] == f;
      TraceStarts(w, path, local, cfg, f);
    } else {
      var a := UploadAttempt(w, path, local, cfg, faults[0]);
      TraceStarts(w, path, local, cfg, faults[0]);
      RunsSnoc(a.Last(), path, local, cfg, faults[1..], f);
      FinalUnfold(w, path, local, cfg, faults);
      FinalUnfold(w, path, local, cfg, faults + [f]);
      assert (faults + [f])[1..] == faults[1..] + [f] && (faults + [f])[0] == faults[0];
    }
  }

  lemma FinalUnfold(w: World, path: string, local: Bytes, cfg: Config, faults: seq<Faults>)
    requires faults != []
    ensures var a := UploadAttempt(w, path, local, cfg, faults[0]);
            a.trace != [] && (a.result != Success ==>
                Final(w, path, local, cfg, faults) == Final(a.Last(), path, local, cfg, faults[1..]))
  {
    TraceStarts(w, path, local, cfg, faults[0]);
  }

  /** The states of a publication, as far as it gets. */
  lemma PublishTrace(w: World, path: string, cfg: Config, f: Faults, history: seq<World>)
    requires TempPath(path) in w.remote
    ensures var temp := TempPath(path);
            var w1 := if cfg.overwrite && f.remove.TookEffect() then w.(remote := w.remote - {path}) else w;
            var a := Publish([w], path, cfg, f);
            && temp in w1.remote && a.trace != []
            && var w2 := w1.(remote := (w1.remote - {temp})[path := w1.remote[temp]]);
               var h1, h2 := history + [w1], history + [w1] + [w2];
               if path in w1.remote || f.rename == Refused then
                 a.result == RenameFailed && history + a.trace[1..] == h1 && a.Last() == w1
               else if f.rename == Lost then
                 a.result == RenameFailed && history + a.trace[1..] == h2 && a.Last() == w2
               else if cfg.deleteAfterVerify && f.removeLocal then
                 a.result == Success && history + a.trace[1..] == h2 + [w2.(localPresent := false)]
                   && a.Last() == w2.(localPresent := false)
               else
                 a.result == Success && history + a.trace[1..] == h2 && a.Last() == w2
  {
    TempPathDiffers(path);
    var w1 := if cfg.overwrite && f.remove.TookEffect() then w.(remote := w.remote - {path}) else w;
    var w2 := w1.(remote := (w1.remote - {TempPath(path)})[path := w1.remote[TempPath(path)]]);
    var before := [w];
    assert before[|before| - 1] == w;
    var trace := Publish(before, path, cfg, f).trace;
    assert TempPath(path) in w1.remote;
    if path in w1.remote || f.rename == Refused {
      assert trace == [w] + [w1] && trace[1..] == [w1];
    } else if f.rename == Lost || !(cfg.deleteAfterVerify && f.removeLocal) {
      assert trace == [w] + [w1] + [w2] && trace[1..] == [w1] + [w2];
      assert history + ([w1] + [w2]) == history + [w1] + [w2];
    } else {
      var w3 := w2.(localPresent := false);
      assert trace == [w] + [w1] + [w2] + [w3] && trace[1..] == [w1] + [w2] + [w3];
      assert history + ([w1] + [w2] + [w3]) == history + [w1] + [w2] + [w3];
    }
  }

  /** The states of a broken transfer, trimmed or not. */
  lemma BrokenTrace(w: World, path: string, local: Bytes, cfg: Config, start: Start, f: Faults, history: seq<World>)
    requires f.transfer.Broken?
    ensures var base, source := Base(w.remote, path, start), Source(local, start);
            var sent := Sent(base, source, f);
            var w1 := w.(remote := w.remote[TempPath(path) := sent]);
            var a := Transmit([w], path, local, cfg, start, f);
            && SafeLength(base, source, f) <= |sent|
            && var w2 := w.(remote := w.remote[TempPath(path) := sent[..SafeLength(base, source, f)]]);
            && a.result == CopyFailed && a.trace != []
            && history + a.trace[1..] == (if Trims(f) then history + [w1] + [w2] else history + [w1])
            && a.Last() == (if Trims(f) then w2 else w1)
            && w1.remote[TempPath(path) := w1.remote[TempPath(path)][..SafeLength(base, source, f)]] == w2.remote
  {
    SentIsPrefix(Base(w.remote, path, start), Source(local, start), f);
  }

  lemma HistoryJoins(history: seq<World>, w0: World, w1: World, trace: seq<World>)
    requires trace != [] && trace[0] == w1
    ensures history + [w1] + trace[1..] == history + ([w0] + trace)[1..]
  {
    assert ([w0] + trace)[1..] == trace == [w1] + trace[1..];
  }

  /** The states before the last one do not matter to what follows. */
  lemma PublishPrefix(before: seq<World>, w: World, path: string, cfg: Config, f: Faults)
    ensures var a, b := Publish(before + [w], path, cfg, f), Publish([w], path, cfg, f);
            a.result == b.result && a.trace == before + b.trace
  {
  }

  lemma CheckPrefix(before: seq<World>, w: World, path: string, local: Bytes, cfg: Config, f: Faults)
    ensures var a, b := Check(before + [w], path, local, cfg, f), Check([w], path, local, cfg, f);
            a.result == b.result && a.trace == before + b.trace
  {
    if TempPath(path) in w.remote {
      PublishPrefix(before, w, path, cfg, f);
    }
  }

  /** The states of a complete transfer. */
  lemma CompleteTrace(w: World, path: string, local: Bytes, cfg: Config, start: Start, f: Faults)
    requires f.transfer.Complete?
    ensures var sent := Sent(Base(w.remote, path, start), Source(local, start), f);
            var w1 := w.(remote := w.remote[TempPath(path) := sent]);
            var a, b := Transmit([w], path, local, cfg, start, f), Check([w1], path, local, cfg, f);
            a.result == b.result && a.trace == [w] + b.trace && b.trace != [] && b.trace[0] == w1
  {
    var w1 := w.(remote := w.remote[TempPath(path) := Sent(Base(w.remote, path, start), Source(local, start), f)]);
    CheckPrefix([w], w1, path, local, cfg, f);
  }

  lemma TransmitPrefixComplete(before: seq<World>, w: World, path: string, local: Bytes, cfg: Config, start: Start,
                               f: Faults)
    requires f.transfer.Complete?
    ensures var a, b := Transmit(before + [w], path, local, cfg, start, f), Transmit([w], path, local, cfg, start, f);
            a.result == b.result && a.trace == before + b.trace && b.trace != [] && b.trace[0] == w
  {
    var w1 := w.(remote := w.remote[TempPath(path) := Sent(Base(w.remote, path, start), Source(local, start), f)]);
    CheckPrefix(before + [w], w1, path, local, cfg, f);
    CheckPrefix([w], w1, path, local, cfg, f);
    var c := Check([w1], path, local, cfg, f);
    assert before + [w] + c.trace == before + ([w] + c.trace);
  }

  lemma TransmitPrefixBroken(before: seq<World>, w: World, path: string, local: Bytes, cfg: Config, start: Start,
                             f: Faults)
    requires f.transfer.Broken?
    ensures var a, b := Transmit(before + [w], path, local, cfg, start, f), Transmit([w], path, local, cfg, start, f);
            a.result == b.result && a.trace == before + b.trace && b.trace != [] && b.trace[0] == w
  {
  }

  lemma TransmitPrefix(before: seq<World>, w: World, path: string, local: Bytes, cfg: Config, start: Start, f: Faults)
    ensures var a, b := Transmit(before + [w], path, local, cfg, start, f), Transmit([w], path, local, cfg, start, f);
            a.result == b.result && a.trace == before + b.trace && b.trace != [] && b.trace[0] == w
  {
    if f.transfer.Complete? {
      TransmitPrefixComplete(before, w, path, local, cfg, start, f);
    } else {
      TransmitPrefixBroken(before, w, path, local, cfg, start, f);
    }
  }

  /** The states of an attempt that creates its temp file. */
  lemma FreshTrace(w: World, path: string, local: Bytes, cfg: Config, f: Faults)
    requires Plan(w.remote, path, local, f).Fresh?
    ensures var start := Plan(w.remote, path, local, f);
            var w1 := if f.create.TookEffect() then w.(remote := w.remote[TempPath(path) := []]) else w;
            var a, b := Proceed(w, path, local, cfg, f), Transmit([w1], path, local, cfg, start, f);
            && b.trace != [] && b.trace[0] == w1
            && (f.create != Done ==> a.result == CreateFailed && a.trace[1..] == [w1] && a.Last() == w1)
            && (f.create == Done ==> a.result == b.result && a.trace == [w] + b.trace)
  {
    var start := Plan(w.remote, path, local, f);
    var w1 := if f.create.TookEffect() then w.(remote := w.remote[TempPath(path) := []]) else w;
    TransmitPrefix([w], w1, path, local, cfg, start, f);
    assert [w] + [w1] == [w, w1];
  }
}
