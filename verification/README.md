# Verification of the Uplarr upload queue

Uplarr is a web service that uploads local files to SFTP servers. This project
models its stateful core in Dafny and proves what it promises: a queue served by
one dispatcher and many workers, a resumable upload against a failing remote file
system, stored passwords that outlive restarts with changing keys, an adaptive
rate limiter, and two bounded tables that guard the login page.

Run `dafny verify dfyconfig.toml` in this directory to check it.

## How it is organised

The queue is modelled twice over one definition of its operations.

- `Tasks.dfy` defines the dispatcher pass (`Picked`, `MarkStarted`) and the control
  actions (`Control`) on an ordered list of references into a heap of task records,
  for any type of reference. `TaskIds.dfy` has the 64-bit identifiers.
- `Scheduler.dfy` is the queue manager as a concurrent step system, one step for each
  lock-held section, channel operation, save and thread phase: `Append` (AddTasks),
  `ControlNext` (ControlTask), `CallerNext` (what an API call still owes after its
  lock-held section), `LoopNext` and `Fill` (processLoop), `WorkerNext` (runTask and
  processTask), `ShutdownNext` (Shutdown), `Load` (loadState), and `Restart`, a crash at
  any point followed by a load of whatever the state file holds.
  `SchedulerSafety.dfy` and `SchedulerRuns.dfy` prove an invariant kept by every step,
  `SchedulerPromises.dfy` what it means for reachable states, `SchedulerOutcomes.dfy` what
  becomes of tasks, and `SchedulerDrain.dfy` that the system makes progress. `SchedulerClosers.dfy` and `SchedulerCancels.dfy` treat
  the two maps of the source that are keyed by identifiers, and what Shutdown and removal
  owe to them. None of this depends on what the identifiers are. `SchedulerIdentity.dfy`
  says when a batch keeps them distinct, `SchedulerFreshness.dfy` what holds in runs of
  such batches. `SchedulerOverwrite.dfy` and `SchedulerQuickRetry.dfy` have two runs in
  which those maps go wrong.
- `QueueManager.dfy` is the object: its fields, its loops and shared task objects. Its
  methods are proved to have exactly the effect of the operations that the step system
  takes as steps. `HostAggregates.dfy` has the direct definition behind GetHostStats.
- `Upload.dfy` is one upload attempt as a function of what each remote and local
  operation answers, with the trace of all states it passes through.
  `UploadSafety.dfy` proves what holds at every point and over runs of retries,
  `HonestUploads.dfy` what attempts in which nothing fails publish, from any partial file;
  `Uploader.dfy` is the client object that performs the attempt step by step, proved to
  pass through exactly those states; `Backoff.dfy` has the waits.
- `Secrets.dfy` and `Credentials.dfy` follow a stored password through any history of
  restarts, each with its own key or none; `CredentialSecrecy.dfy` says what a save may put
  into the state file.
- `Limiter.dfy` and `Sessions.dfy` have the rate limiter and the session table.
  `LoginLimiter.dfy` is the login limiter, and `LoginSafety.dfy` what it guarantees over any
  run of its locked sections.

## Where the code does not do what it says

Each of these is stated with the exact condition under which the code does meet the
expectation, and some with an input on which it does not.

- A partial file that fails its prefix check is logged as "restarting from zero", but
  the local read cursor stays behind the checked prefix. The attempt fails its size check
  and leaves the local file without its start (`HonestMismatchLeavesTail`). Any number of
  retries in which nothing else fails then succeeds exactly if the local file, from one of
  at most three cursors on, passes the prefix check against its own beginning
  (`HonestRunSucceedsIff`). What is published then is the file without its first bytes and
  with its last ones twice (`HonestRunHealsIff`), which is the local file exactly if that
  tail is a prefix of it, as it must be if it fits the checked MiB (`SplicedIsLocalIff`).
  For longer tails a wrong file can be reported as uploaded, and the local one deleted
  (`RetryPublishesWrongFile`, `WrongFileExists`).
- When a broken transfer cannot be trimmed, the log says that a later resume will restart
  it. Whatever the transfer left, the next faultless attempt publishes the local file
  exactly if the gapped file is empty, too long for a resume, or a prefix after all, and a
  wrong file exactly if it passes the check without being a prefix (`UntrimmedOutcomeIff`);
  it can do so for every file longer than 1 MiB by two bytes (`UntrimmedGapSurvives`).
  Resumes at or below 1 MiB are exact (`AssembledExactlyIff`).
- After loading a state file with a Running entry, memory says Pending and the file goes
  on saying Running with nobody about to save (`RunningEntryStaysOnDisk`). File and memory
  agree up to Pending/Paused exactly when the process has saved or loaded no such entry
  (`AgreementUpToPauseIff`). A restart restores the queue in both cases.
- Identifiers come from a 64-bit counter that wraps, and that a state file can set to any
  value. A batch keeps the listed identifiers distinct exactly if it is no longer than the
  counter's range and meets none of them (`ListingStaysDistinctIff`); a file that lists
  "0" and a number at or beyond the largest counter value leads to a second "0"
  (`WrapMakesDuplicate`). No batch that does not wrap repeats one (`NoWrapIsFresh`).
- A worker that registers its client's closer can overwrite another's, if the two tasks share
  an identifier. Throughout a run activeClosers is exact exactly if that never happens
  (`ExactThroughoutIff`), and then Shutdown misses no client (`ShutdownMissesNoClient`), as
  always where no identifier comes twice (`FreshIsCareful`). The overwritten worker is listed
  no more (`OverwrittenIsUnlisted`), and from every reachable state a client that is not
  listed can escape a shutdown (`UnlistedEscapes`; `RepeatedIdHidesClient` is an instance).
- A worker deletes its entry of activeCancels after it has recorded its outcome, when the task
  may have been retried and have a new worker. Throughout a run the map reaches every
  registered active worker exactly if no worker registers over or deletes the entry of one
  that is still active (`ReachThroughoutIff`). Then removing a Running task cancels its upload
  exactly if the worker has registered (`RemoveReachesIff`); after such a loss it does not
  (`LostIsUnreached`), and a quick retry with distinct identifiers brings one about
  (`QuickRetryLosesCancel`).
- A password that cannot be sealed for want of random bytes is dropped from the state file
  (`SealKeepsIff`), and is lost if the process ends before it can be saved again
  (`CredentialSurvivesIff`).
- Loading with a key rewrites a file that holds plaintext passwords, unless its only
  plaintext sits beside an encrypted form (`PlaintextRemainsIff`).
- A limiter floor configured above the cap lifts the rate over the cap
  (`HighSampleKeepsCapIff`).

## Model

| member | source | states |
|---|---|---|
| SchedulerPromises.WakeupNeverLost | internal/queue/manager.go:434-487 | no lost wake-up: in every reachable state with a listed Pending task, a free slot and no shutdown, the channel holds a token, the dispatcher has taken one and not yet filled, or some thread owes a trigger |
| SchedulerPromises.RunningMeansOneActiveWorker | internal/queue/manager.go:450-474 | a task, listed or removed, is Running exactly when some worker for it has not recorded its outcome, and there are never two |
| SchedulerOutcomes.CompletedMeansUploaded | internal/queue/manager.go:602-623 | over any run of one process a task becomes Completed only through a worker of its own that records a success on the way, and that worker's upload returned success; a success recorded before does not count again, however the task was paused, removed or retried |
| SchedulerOutcomes.OutcomeIsRecorded | internal/queue/manager.go:610-623 | the step that records an outcome leaves its task Completed with full progress exactly if the worker's upload succeeded, and otherwise Failed with the error; no other record changes |
| SchedulerOutcomes.ResultIsTheUploads | internal/queue/manager.go:602-609 | a worker's result is what its upload returned, and a worker that never came to upload has failed |
| SchedulerOutcomes.FailedMeansReported | internal/queue/manager.go:610-614 | a task becomes Failed only through a worker of its own that records a failure on the way |
| SchedulerOutcomes.EndedStaysIff | internal/queue/manager.go:731-769 | a Completed or Failed task keeps its record under every step of every thread but the control action that requeues it, and that makes it Pending |
| SchedulerOutcomes.EndedStays | internal/queue/manager.go:731-769 | so over any run of one process it stays as it ended until it is requeued |
| SchedulerDrain.DrainDecidesTasks | internal/queue/manager.go:441-491 | at the end of every maximal internal run from a reachable state, every task that was Running, and every listed Pending one unless the system was shut down, is Completed or Failed as an upload of its own on the way did, and the state file says the same of it if it is listed |
| SchedulerOutcomes.WorkerTurns | internal/queue/manager.go:579-594 | a worker comes to its check exactly if it could connect, and from there to its upload exactly if nobody has cancelled it or begun to shut down |
| SchedulerOutcomes.CancelledNeverUploads | internal/queue/manager.go:585-593 | over any run of one process: a worker cancelled before its check, or not past it when Shutdown begins, never uploads, and if it has a result it is failure |
| SchedulerOutcomes.CancelledOnlyByRemove | internal/queue/manager.go:719-729 | a worker is cancelled only by the removal of a Running task, and only the one registered for its identifier |
| SchedulerOutcomes.AddOwes | internal/queue/manager.go:422-428 | AddTasks owes one save and a trigger for each name, and nothing for an empty batch; it touches nothing that runs |
| SchedulerOutcomes.LimitTakesEffect | internal/queue/manager.go:391-399 | a new concurrency limit holds at once and owes a trigger, but no save |
| SchedulerOutcomes.LoadStartsIdle | internal/queue/manager.go:85-116 | a new process runs nothing, has the limit of the file or 1, and owes one trigger if it has tasks |
| SchedulerOutcomes.ControlStepFollows | internal/queue/manager.go:700-790 | the step of a control action leaves list, records, wake-up and state file as the operation has them |
| SchedulerOutcomes.RemoveUnlists | internal/queue/manager.go:719-729 | a removed task is off the list, in memory and on disk, and the others stay as they were |
| SchedulerPromises.SlotsAccounted | internal/queue/manager.go:481-491 | runningTasks is the number of spawned workers that have not decremented it, is never negative, and never exceeds the largest limit of the process; the limit is at least 1 |
| SchedulerPromises.RestartRestoresQueue | internal/queue/manager.go:217-258 | a crash when nobody owes a save loses nothing: the next process lists the same tasks in the same order, each with its identifier, file name and host; what was Running is Pending, Completed and Failed stay, and Pending and Paused stay up to an unsaved switch between them |
| SchedulerPromises.LoadReadsEntries | internal/queue/manager.go:236-252 | a load lists every entry of the file in order, a Running one as Pending and any other unchanged |
| SchedulerPromises.RestartKeepsLimit | internal/queue/manager.go:253-255 | the concurrency limit survives a restart in every reachable state in which the wake-up that came with it has been acted on and saved |
| SchedulerPromises.AgreementUpToPauseIff | internal/queue/manager.go:183-215 | when nobody owes a save, file and memory list the same tasks with statuses equal up to Pending/Paused, exactly if the process has saved since it started or loaded no Running entry |
| SchedulerPromises.RunningEntryStaysOnDisk | internal/queue/manager.go:242-258 | that exception is reachable: a concrete file after whose load nobody owes a save and file and memory disagree |
| SchedulerFreshness.ListedIdsDistinct | internal/queue/manager.go:403-421 | in every state reached from a file without repeated identifiers by fresh batches, no two listed tasks share one, in memory or on disk |
| SchedulerFreshness.IdsStayFreshIff | internal/queue/manager.go:403-421 | over any run of one process, wraps included, identifiers stay distinct and new ones avoid the retained credentials, exactly if every batch met none of them where it was added |
| SchedulerFreshness.IdsNeverReused | internal/queue/manager.go:403-421 | in such a run a removed identifier is never listed again, and a task added later has an identifier that no earlier task and no retained credential has |
| SchedulerFreshness.NoWrapIsFresh | internal/queue/manager.go:245-249 | from any load, over any number of restarts, every batch is such a one as long as the 64-bit counter does not wrap |
| SchedulerFreshness.LoadedRunsAreFresh | internal/queue/manager.go:403-421 | so every run that starts at the load of a file without repeated identifiers and in which the counter does not wrap is a run of fresh batches |
| SchedulerFreshness.LoadedCounter | internal/queue/manager.go:245-249 | the counter after a load is the largest identifier of the file, or 0 |
| SchedulerIdentity.ListingStaysDistinctIff | internal/queue/manager.go:403-421 | AddTasks keeps distinct listed identifiers distinct exactly if its batch is no longer than the counter's range and meets none of them, to be told from the counter, the length and the identifiers |
| SchedulerIdentity.AppendStaysUniqueIff | internal/queue/manager.go:403-421 | the same for all records of the process, listed or removed |
| SchedulerIdentity.WrapMakesDuplicate | internal/queue/manager.go:245-249 | a reachable state that lists "0" twice, from any file that lists "0" and a number at or beyond the largest counter value |
| SchedulerPromises.GrowsAlongRun | internal/queue/manager.go:700-790 | over any run of one process records and identities stay, a task once off the list does not return, and the retained credentials do not change |
| SchedulerClosers.ShutdownMissesNoClient | internal/queue/manager.go:287-303 | in every run that overwrites no closer, whatever the identifiers: once Shutdown has closed its snapshot, a client still open belongs to a worker that has not passed its context check and whose next steps close it |
| SchedulerFreshness.FreshIsCareful | internal/queue/manager.go:287-303 | so in every run of fresh batches from a file without repeated identifiers |
| SchedulerPromises.EveryClientClosedOnce | internal/queue/manager.go:586-600 | when Shutdown returns every worker has finished and every client that was opened has been closed, and none more than once |
| SchedulerPromises.NoWorkerAfterLoopExit | internal/queue/manager.go:441-446 | once the dispatcher has exited, so whenever Shutdown is past wg.Wait, no step adds a worker to taskWG |
| SchedulerPromises.ReachableInv | internal/queue/manager.go:441-627 | the invariant holds in every state reachable by any interleaving of calls, workers, shutdown, crashes and restarts |
| SchedulerRuns.InvKept | internal/queue/manager.go:441-627 | every step of every thread keeps the invariant |
| SchedulerRuns.InvAfterAdd | internal/queue/manager.go:403-428 | AddTasks keeps it, for any batch, whether or not the counter wraps |
| SchedulerRuns.InvAfterControl | internal/queue/manager.go:700-790 | so does every action of ControlTask, on listed tasks whose older workers may still run |
| SchedulerRuns.InvAfterConcurrency | internal/queue/manager.go:391-399 | so does a new concurrency limit, lower or higher |
| SchedulerRuns.InvAfterCaller | internal/queue/manager.go:422-427 | so do the saves and triggers that an API call makes after releasing the lock |
| SchedulerRuns.InvAfterLoop | internal/queue/manager.go:441-479 | so do the dispatcher's receive, pass, save and exit |
| SchedulerRuns.InvAfterWorker | internal/queue/manager.go:481-627 | so does every phase of a worker, including those after its outcome is recorded |
| SchedulerRuns.InvAfterShutdown | internal/queue/manager.go:287-303 | so does every phase of Shutdown |
| SchedulerRuns.InvAfterLoad | internal/queue/manager.go:217-285 | loading any file establishes it |
| SchedulerSafety.OneWorkerAfterWorker | internal/queue/manager.go:610-623 | every phase of a worker keeps one unrecorded worker for each Running task and none for any other; recording the outcome ends both together |
| SchedulerSafety.OneWorkerAfterFill | internal/queue/manager.go:450-474 | a dispatcher pass gives each task it starts its only worker |
| SchedulerClosers.ExactThroughoutIff | internal/queue/manager.go:586-600 | over any run, across restarts, activeClosers maps the identifiers of just those workers that are between registering and deleting their closer, in every state, exactly if no worker passes its context check while its identifier has an entry |
| SchedulerClosers.StepExactIff | internal/queue/manager.go:593-599 | one step keeps it so just when it is not such a registration |
| SchedulerClosers.OverwrittenIsUnlisted | internal/queue/manager.go:593-594 | such a registration takes another worker out of the map for good, and changes nothing else of it |
| SchedulerClosers.UnlistedEscapes | internal/queue/manager.go:287-303 | from every reachable state without a shutdown, a worker past its check whose open client is not listed has a run of the same process in which Shutdown closes its whole snapshot and that client stays open |
| SchedulerOverwrite.RepeatedIdHidesClient | internal/queue/manager.go:586-600 | an instance, reached from a file that lists an identifier twice |
| SchedulerClosers.CoveredAfterShutdown | internal/queue/manager.go:291-300 | the snapshot of an exact map covers every registered open client, and closing one by one leaves none |
| SchedulerCancels.ReachThroughoutIff | internal/queue/manager.go:497-506 | over any run, across restarts, activeCancels reaches every registered worker that has not recorded its outcome, in every state, exactly if no worker registers over or deletes the entry of such a one |
| SchedulerCancels.StepReachIff | internal/queue/manager.go:497-506 | one step keeps it so just when it does neither |
| SchedulerCancels.RemoveReachesIff | internal/queue/manager.go:719-729 | as long as it does, removing a Running task cancels its upload exactly if the worker has registered its cancel function or was cancelled before |
| SchedulerCancels.RemoveCancelsEntry | internal/queue/manager.go:719-729 | in every state removal cancels just the worker of the entry |
| SchedulerCancels.LostIsUnreached | internal/queue/manager.go:502-506 | a worker whose entry has been lost is not cancelled by the removal of its task |
| SchedulerQuickRetry.QuickRetryLosesCancel | internal/queue/manager.go:502-506 | a reachable state with distinct identifiers in which a listed task is Running under a registered worker and removing it does not cancel the upload |
| SchedulerSafety.WakeupAfterControl | internal/queue/manager.go:700-790 | if no wake-up was lost before a control action, none is lost after it |
| SchedulerSafety.WakeupAfterWorker | internal/queue/manager.go:481-487 | nor by any phase of a worker, in particular by the one that frees its slot |
| SchedulerSafety.CrashAfterControl | internal/queue/manager.go:700-790 | a control action keeps the state file, unless a save is owed, in agreement with the list up to Pending/Paused |
| SchedulerSafety.ShutdownAfterShutdown | internal/queue/manager.go:291-300 | Shutdown closes only clients of workers past their context check, and leaves every client accounted for |
| SchedulerDrain.MaximalRunDrains | internal/queue/manager.go:441-491 | with no calls from outside, every maximal run from a reachable state is bounded by the measure and ends with no listed Pending task, or with Shutdown complete and all workers finished |
| SchedulerDrain.InternalStepFalls | internal/queue/manager.go:441-491 | every internal step, of any thread, lowers the measure over Pending tasks, worker phases, owed calls, token, dispatcher and shutdown |
| SchedulerDrain.InternalRunsAreBounded | internal/queue/manager.go:441-491 | a run of internal steps is never longer than the measure |
| SchedulerDrain.QuiescentMeansDrained | internal/queue/manager.go:441-491 | where no thread can move, nobody owes a save, no client is open, and no listed task is Pending or Shutdown is complete |
| SchedulerDrain.SomeRunDrains | internal/queue/manager.go:441-491 | from every state of the invariant there is a run of internal steps to such a state |
| Tasks.PassFillsSlotsInOrder | internal/queue/manager.go:450-475 | a dispatcher pass starts exactly the first min(#Pending, max(0, limit - running)) Pending tasks in list order and ends with no Pending task or no free slot |
| Tasks.PendingAfterStart | internal/queue/manager.go:450-475 | starting the first k Pending tasks leaves exactly the others Pending, in order |
| Tasks.PassStarts | internal/queue/manager.go:459-470 | a pass leaves each task it starts Running, started now and with nothing uploaded, and every other record unchanged |
| Tasks.ControlIsDisciplined | internal/queue/manager.go:700-790 | every control action keeps order and identities, changes statuses only as a user may, never to or from Running, makes nothing Pending without a wake-up, leaves only Pending/Paused unsaved, cancels only a Running task, and changes nothing when it refuses |
| Tasks.ControlActsOn | internal/queue/manager.go:703-752 | field by field what each action does to the first listed task with the identifier: its answer, list, record, save, wake-up and cancellation, refusals included |
| Tasks.ControlActsOnAll | internal/queue/manager.go:754-790 | where no listed task has the identifier: retry_all_failed requeues exactly the listed Failed tasks whose file is there, clear_finished unlists exactly the Completed and Failed ones, anything else is refused |
| Tasks.ResumeUndoesPause | internal/queue/manager.go:706-718 | a successful pause followed by a resume restores list and records |
| Manager.QueueManager.AddTasks | internal/queue/manager.go:403-421 | appends one fresh Pending task for each name under consecutive identifiers and changes nothing before them |
| SchedulerIdentity.AppendIsBatch | internal/queue/manager.go:407-420 | the same of the step: the k-th task of a batch enters the list in order, Pending, under the k-th identifier after the counter |
| SchedulerIdentity.AppendAdvances | internal/queue/manager.go:407-409 | and the counter ends as many steps on as the batch has names |
| Manager.QueueManager.Fill | internal/queue/manager.go:450-475 | the loop starts exactly the first Pending tasks that fill the free slots, marks them Running as of now, changes no other record, and counts them |
| Manager.QueueManager.FindPending | internal/queue/manager.go:452-457 | the inner loop finds the first Pending task, or that there is none |
| Manager.QueueManager.Finish | internal/queue/manager.go:610-626 | a success leaves the task Completed with full progress, a failure leaves it Failed with the error; the current list is in the state file, the dispatcher is woken, and no other task is touched |
| Manager.QueueManager.ControlTask | internal/queue/manager.go:700-790 | list, records, answer, state file, wake-up and cancelled contexts are those of Control |
| Manager.QueueManager.RemoveTask | internal/queue/manager.go:719-729 | removal takes the task off the list, saves, wakes the dispatcher and cancels only the registered context of a Running task |
| Manager.QueueManager.RetryAll | internal/queue/manager.go:754-775 | exactly the Failed tasks whose file is present become Pending; save and wake-up happen exactly if there is one |
| Manager.QueueManager.Clear | internal/queue/manager.go:777-788 | the list keeps exactly the unfinished tasks in order |
| Manager.QueueManager.GetOrCreateLimiter | internal/queue/manager.go:305-367 | no limiter without throttling; otherwise the host's, reconfigured or new, with the requested rate, floor and latency bound or their defaults; at most 100 entries, no other limiter changes, at most one host is evicted, and an active one only if every host in the full table is active |
| Manager.QueueManager.EvictOne | internal/queue/manager.go:329-350 | the eviction removes one host, an active one only if all are active |
| Manager.QueueManager.UpdateHostLimiter | internal/queue/manager.go:369-400 | reconfigures the host's limiter, to the full default rate or no limit at all where none is requested, and no other; a positive concurrency becomes the limit and wakes the dispatcher |
| Manager.QueueManager.GetHostStats | internal/queue/manager.go:652-698 | a host is reported once, exactly if it has a limiter and a Running or Pending task, with the rate, cap and last latency of the limiter and the count and total speed of its Running tasks |
| Manager.QueueManager.Aggregates | internal/queue/manager.go:656-680 | the one-pass table agrees with the direct per-host scan for every host |
| HostAggregates.FoldAgrees | internal/queue/manager.go:663-680 | folding one more task into the table keeps that agreement |
| HostAggregates.SpeedIsBytesOverTime | internal/queue/manager.go:669-676 | the speed of an upload times the time since its start is what it has sent; it is zero before its start, at it, and while nothing is sent |
| HostAggregates.FiguresOfOneMore | internal/queue/manager.go:663-680 | a Running task of the host adds one to its count and its own speed, and no other task adds anything |
| Manager.RetryStep | internal/queue/manager.go:754-769 | one round of the retry loop extends the effect on the tasks before it by its own task |
| TaskIds.ParseFormat | internal/queue/manager.go:245-249 | the counter restored from a file inverts the formatting of identifiers over all 64-bit values |
| TaskIds.ParseOverflow | internal/queue/manager.go:245-249 | an identifier beyond 64 bits sets the counter to its maximum |
| TaskIds.CollidesIff | internal/queue/manager.go:407-413 | which strings are among the next n identifiers, however often the counter wraps |
| TaskIds.BatchAboveCounterIff | internal/queue/manager.go:407-413 | the identifiers of a batch all lie above the counter exactly if the counter does not wrap within it |
| TaskIds.StayDistinctIff | internal/queue/manager.go:407-413 | strings without repetition stay so under the next n identifiers exactly if n is at most 2^64 and none of them is among those |
| Upload.RenameReached | internal/sftpclient/client.go:657-717 | whatever the temp file held and whichever operations failed: if the rename is reached, the assembled file has the local length and agrees with the local file before min(s, 1 MiB) and from the resume offset s on, and no stale cursor was used |
| Upload.AssembledExactlyIff | internal/sftpclient/client.go:657-717 | it is the local file exactly if nothing was resumed or the resumed part is a prefix; a resume at or below 1 MiB is always exact |
| Upload.PlanBounds | internal/sftpclient/client.go:654-708 | a resume continues at the end of a nonempty shorter partial file whose verified prefix matches; otherwise the cursor lies within the local file |
| Upload.PlanDecides | internal/sftpclient/client.go:654-708 | an upload is resumed exactly if a nonempty shorter partial file can be read, its prefix matches and both seeks work; otherwise it starts afresh, from the cursor that the comparison has left |
| UploadSafety.AttemptUnharmed | internal/sftpclient/client.go:609-864 | at every point of every attempt the final path holds its earlier content, nothing (only with overwriting) or the assembled file; no other file is touched; without overwriting a target is never replaced; the local file is gone only once the assembled file is in place; success means it is |
| UploadSafety.UnrenamedLeavesTarget | internal/sftpclient/client.go:609-836 | short of the rename an attempt touches nothing but the temp file |
| UploadSafety.ChangedTargetWasVerified | internal/sftpclient/client.go:823-846 | a target that has changed to a file agrees with the local file as far as a verified upload does |
| UploadSafety.TidyRunIsExact | internal/sftpclient/client.go:491-512 | over a whole retry run from an absent or prefix temp file, in which a broken transfer is trimmed where the seek and the truncation work and no resume is abandoned after its prefix read, the temp file is a prefix after every attempt and success leaves the local file at the target, byte for byte |
| UploadSafety.TidyAttempt | internal/sftpclient/client.go:803-814 | one such attempt leaves the temp file absent or a prefix, for any pattern of chunk failures |
| UploadSafety.BrokenLeaves | internal/sftpclient/client.go:874-890 | a broken transfer leaves what was there and the bytes written in a row, and exactly if it is pipelined and the seek or the truncation fails, the stray bytes after them |
| UploadSafety.AttemptSucceedsIff | internal/sftpclient/client.go:609-864 | an attempt succeeds exactly if each operation it depends on does, nothing bars the target, and no stale cursor is left |
| UploadSafety.AttemptRefusedIff | internal/sftpclient/client.go:609-653 | when it stops before it begins, and why; then nothing is touched |
| UploadSafety.SuccessLeaves | internal/sftpclient/client.go:842-861 | success has moved the temp file to the target and deletes the local file exactly if that was asked for and works |
| UploadSafety.AbandonedLeavesTail | internal/sftpclient/client.go:695-714 | an attempt that abandons its resume after the prefix read, and in which nothing fails from then on, leaves the rest of the local file only and ends in a size mismatch |
| UploadSafety.SentIsPrefix | internal/sftpclient/client.go:866-890 | cutting a broken transfer at its safe length leaves a prefix of what was to be sent |
| HonestUploads.HonestAttemptSucceedsIff | internal/sftpclient/client.go:609-864 | when nothing fails, an attempt succeeds exactly if the target may be written and the partial file, if tried, passes its check |
| HonestUploads.HonestAttemptPublishesIff | internal/sftpclient/client.go:609-864 | and it publishes the local file exactly if the partial file, if tried, is a prefix of it; another file exactly if that passes the check without being a prefix |
| HonestUploads.HonestMismatchLeavesTail | internal/sftpclient/client.go:695-714 | after a mismatch the temp file is the local file without the checked prefix, and the attempt ends in a size mismatch |
| HonestUploads.HonestRunSucceedsIff | internal/sftpclient/client.go:491-512 | from any state, n attempts in which nothing fails succeed exactly if the target may be written and, after a mismatch, the local file passes the check against its own beginning at one of the cursors met by then |
| HonestUploads.HonestRunHealsIff | internal/sftpclient/client.go:664-714 | the same after a mismatch, with what is published: the local file from the first such cursor on, followed by its last bytes again |
| HonestUploads.SplicedIsLocalIff | internal/sftpclient/client.go:664-714 | that is the local file exactly if the tail is a prefix of it, always so if the tail fits the checked MiB |
| HonestUploads.RetryPublishesWrongFile | internal/sftpclient/client.go:823-856 | after a mismatch of 1 MiB or more, a file whose second MiB repeats its first, and whose whole tail does not, is published wrong by the second faultless attempt, which also deletes the local file if so configured |
| HonestUploads.WrongFileExists | internal/sftpclient/client.go:664-714 | concrete contents of such a local and partial file |
| HonestUploads.UntrimmedOutcomeIff | internal/sftpclient/client.go:882-889 | after any untrimmed broken transfer over any partial file: when the next faultless attempt publishes the local file, and when another one |
| HonestUploads.GapIsPrefixIff | internal/sftpclient/client.go:866-890 | what such a transfer leaves is a prefix of what was to be sent exactly if the stray bytes are those that belong there |
| HonestUploads.UntrimmedGapSurvives | internal/sftpclient/client.go:882-889 | for every file longer than 1 MiB by two bytes or more there is such a transfer after which a wrong file is published |
| Uploading.SFTPClient.UploadFile | internal/sftpclient/client.go:609-864 | performing the attempt step by step gives the result and passes through exactly the states of UploadAttempt |
| Uploading.SFTPClient.ChooseStart | internal/sftpclient/client.go:654-708 | the nested resume decision, with its moving cursor, is Plan |
| Uploading.SFTPClient.TrimPartialUpload | internal/sftpclient/client.go:874-890 | cuts the temp file to the safe length exactly if the transfer was pipelined and the seek and the truncation work, and changes nothing otherwise |
| Uploading.SFTPClient.PublishTemp | internal/sftpclient/client.go:842-861 | remove, rename and local deletion pass through the states of Publish |
| Uploading.SFTPClient.Send | internal/sftpclient/client.go:803-846 | transfer, trim, close, verification and publication pass through the states of Transmit |
| Uploading.SFTPClient.UploadFileWithRetry | internal/sftpclient/client.go:491-512 | the retry loop is a run of attempts that stops at the first success, at a cancellation or when the budget is spent, with jittered waits in between |
| Uploading.RunsSnoc | internal/sftpclient/client.go:491-512 | one more attempt after a run of failures starts where the run ended and decides its success |
| Uploading.SFTPClient.UploadTask | internal/queue/manager.go:602-607 | the upload of a task takes at most min(MaxRetries, 100) attempts, 3 when unset, with less than 6.25 s of waiting for each gap, and ends as that run of attempts does |
| Backoff.BaseDelay | internal/sftpclient/client.go:477-486 | the doubling loop computes min(5 s, 100 ms * 2^(attempt-1)) for every attempt number and stays within 64 bits |
| Backoff.RetryDelay | internal/sftpclient/client.go:477-489 | the jittered wait lies in [3/4, 5/4) of that delay |
| Backoff.DelayGrows | internal/sftpclient/client.go:477-486 | the delay before jitter never falls as attempts fail |
| Backoff.Attempts | internal/queue/manager.go:602-605 | the attempts allowed are between 1 and 100: the configured number if that is in range, three if none is configured |
| Backoff.WaitingIsBounded | internal/sftpclient/client.go:477-512 | the total wait of a run stays below 6.25 s for each gap |
| Secrets.DecryptsExactlyEncryptions | internal/queue/secrets.go:59-98 | decryption finds a text exactly in what encryption under the same key produced for it, with some nonce |
| Secrets.RoundTrip | internal/queue/secrets.go:59-98 | decryption inverts encryption across the nonce framing, and no encryption is the empty string |
| Credentials.CredentialSurvivesIff | internal/queue/manager.go:133-188 | a stored password survives a history of restarts, each with any key or none, saves, additions and removals of other tasks, exactly if no process ended while it could not be sealed again |
| Credentials.RandomnessKeeps | internal/queue/manager.go:133-188 | so it survives every history in which random bytes can be had |
| Credentials.SealedIsRecoveredIff | internal/queue/manager.go:158-181 | a password sealed under a key is recovered by a later load with that key, whatever keys came in between, under just that condition |
| Credentials.LockIsFirstKey | internal/queue/manager.go:133-188 | the password never changes, and the key it ends up sealed under is the first any process of the history had |
| Credentials.EventDecidesFate | internal/queue/manager.go:133-188 | one restart, save, addition or removal leaves a password on disk and in memory, in memory only, or nowhere, as the branch taken and the randomness decide |
| Credentials.SealKeepsIff | internal/queue/manager.go:133-153 | sealing a held credential, usable or only retained, writes the same credential exactly if random bytes can be had where it is sealed afresh, and nothing of it otherwise |
| Credentials.OpenHolds | internal/queue/manager.go:158-181 | opening a stored credential makes it usable or retains it as stored; plaintext met with a key is about to be sealed |
| Credentials.NoSaveWritesBothForms | internal/queue/manager.go:183-188 | no save of any process writes a password in both forms, whatever file it loaded |
| Credentials.LoadWithKeyLeavesNoPlaintext | internal/queue/manager.go:224-258 | after a load with a key no plaintext remains on disk, if no entry of the file had both forms |
| Credentials.PlaintextRemainsIff | internal/queue/manager.go:224-258 | without that proviso plaintext remains exactly if some entry has both forms and none is plaintext alone |
| Credentials.UnreadableIsKept | internal/queue/manager.go:168-177 | an entry no key opens is written back unchanged |
| Credentials.CredentialStore.LoadState | internal/queue/manager.go:217-285 | the loading loop, with its rewrite of plaintext files, leaves the state of Loaded |
| Credentials.CredentialStore.OpenOne | internal/queue/manager.go:158-181 | opening one entry yields the password and the retained entry of OpenConfig |
| Credentials.CredentialStore.SaveState | internal/queue/manager.go:183-209 | a save writes one entry for every task in order and changes nothing in memory; what the entries are is SaveWrites |
| CredentialSecrecy.SaveWrites | internal/queue/manager.go:133-153 | each entry is the retained credential where the process can write no better one, or else never plaintext: the password sealed so that it opens under the key, exactly if there is a password, a key and randomness |
| CredentialSecrecy.LoadReads | internal/queue/manager.go:158-181 | what a load takes from each entry: the password it can read, and the credential as stored exactly where it could not write it again |
| CredentialSecrecy.NoNewPlaintext | internal/queue/manager.go:133-188 | over any history of restarts with any keys, saves, additions and removals, every plaintext password in the state file was in plaintext under the same identifier in the file at its beginning |
| CredentialSecrecy.PlaintextIsAsOldAsTheFile | internal/queue/manager.go:133-188 | in particular in the file the first process loaded |
| CredentialSecrecy.AddedIsSealed | internal/queue/manager.go:142-153 | a password added to a process with a key is sealed, so that it opens under the key, by the next save that has random bytes, whatever else the process does meanwhile |
| CredentialSecrecy.WithoutKeyNothingIsStored | internal/queue/manager.go:142-147 | a process without a key writes nothing of an added password in any form |
| CredentialSecrecy.RemovedIsForgotten | internal/queue/manager.go:183-188 | the next save after a removal has no entry of the task |
| RateLimiting.RateStaysInBand | internal/sftpclient/client.go:77-169 | from a fresh limiter the rate stays between floor and cap over any mix of samples and updates with floor at most cap |
| RateLimiting.HighSamplesDecay | internal/sftpclient/client.go:142-152 | n high samples in a row leave exactly max(floor, cur * 0.8^n) |
| RateLimiting.GoodSamplesRestoreCap | internal/sftpclient/client.go:153-168 | 5n good samples in a row restore the cap whenever cur * 1.2^n reaches it |
| RateLimiting.GoodSamplesClimb | internal/sftpclient/client.go:153-168 | k good samples, with c accumulated before, raise the rate exactly (c + k) / 5 times, by a half below a tenth of the cap and by a fifth above, and never past the cap |
| RateLimiting.HighSampleKeepsCapIff | internal/sftpclient/client.go:142-150 | a high sample respects the cap exactly if the floor is not above it |
| RateLimiting.Limiter.RecordLatency | internal/sftpclient/client.go:128-169 | where a latency bound is set, a sample above it lowers the rate by a fifth, to the floors at least, and the fifth good one in a row below the cap raises it by a half or a fifth, to the cap at most; otherwise only the last latency and the patience change |
| RateLimiting.Limiter.UpdateConfig | internal/sftpclient/client.go:86-110 | an update resets rate, cap, floor, bound and patience, 0 meaning unlimited, and keeps the last latency |
| RateLimiting.Limiter.Chunks | internal/sftpclient/client.go:303-323 | the waits of a throttled read each fit the bucket; it succeeds exactly if the context grants enough of them, and then they add up to the bytes read and are as few as possible |
| LoginSafety.AtMostTwiceTheBudget | internal/api/server.go:114-128 | over any run of the locked sections, from whatever addresses, any span of one window length holds at most 2·(budget + c - 1) wrong passwords, c being the most requests served at once; twice the budget if they are served one at a time |
| LoginSafety.SectionKeepsInv | internal/api/server.go:122-128 | through every locked section, window starts lie more than a window apart, and a spent window has room only for requests already admitted |
| LoginSafety.SpanBound | internal/api/server.go:122-128 | a span of one window length meets at most two windows |
| LoginSafety.GuessesAreSlow | internal/api/server.go:316-356 | over any run of the locked sections, n wrong passwords of an address that stays listed and whose requests do not overlap take at least floor((n-1)/5) blocking times, whatever other requests come in between |
| LoginSafety.RunIsCompared | internal/api/server.go:316-356 | in such a run each of them was admitted while the address was not blocked, and its entry is that of all its wrong passwords |
| LoginSafety.BlockComesAtTheFifth | internal/api/server.go:340-353 | no block comes early: fewer than five wrong passwords after the entry is made leave the address unblocked, and the fifth blocks it for the blocking time |
| LoginSafety.SixGuessesTakeABlock | internal/api/server.go:340-353 | any six wrong passwords so compared take at least one blocking time, however the counter stood |
| LoginLimiting.LoginLimiter.Admit | internal/api/server.go:316-326 | the first locked section admits exactly if the address's entry is not blocked now and the budget of the window at this time is not spent; the address has its entry with this time, the table stays at 1000 entries, and no other address is touched except by eviction |
| LoginLimiting.LoginLimiter.RecordFailure | internal/api/server.go:334-356 | the second after a wrong password: it is charged to the address, whose entry may have gone, starting again after a past block and blocking at the fifth, and to the budget of the current window |
| LoginLimiting.LoginLimiter.RecordSuccess | internal/api/server.go:362-364 | the second after the right one forgets the address and charges nothing |
| LoginLimiting.LoginLimiter.Evict | internal/api/server.go:155-173 | in a full table forgets the idle addresses; one that is not idle is forgotten only if all are busy, and then alone |
| LoginLimiting.LoginLimiter.GlobalBlocked | internal/api/server.go:122-128 | opens a new window when the last is over and tells whether the budget is spent |
| Sessions.AcceptedIffIssued | internal/api/server.go:44-92 | over any run the table is bounded; a token is accepted only if issued less than its lifetime ago and not logged out since, and such a token is refused only if an event in between evicted it from a full table of live tokens expiring no earlier |
| Sessions.AlwaysAccounted | internal/api/server.go:44-92 | at every point of a run an entry is its token's latest issue, not logged out since, and a token so issued is missing only because it was evicted or its lifetime is over |
| Sessions.IssueLoses | internal/api/server.go:68-92 | an addSession loses only expired tokens and a victim, and that only from a full table of live tokens, none expiring earlier |
| Sessions.ReissueSurvivesDrop | internal/api/server.go:44-63 | whatever happens between the two locks of validSession, a token issued again in between and not logged out since is not deleted while its new lifetime lasts |
| Sessions.DropDeletesIff | internal/api/server.go:55-61 | the deletion takes a token exactly if its latest issue is a lifetime old |
| Sessions.LoggedOutIsRefused | internal/api/server.go:394-411 | a token logged out is refused until it is issued again |
| Sessions.SessionTable.AddSession | internal/api/server.go:68-92 | prunes expired entries and evicts an oldest one only when full, then enters the token for its lifetime |
| Sessions.SessionTable.Prune | internal/api/server.go:73-79 | the pruning loop keeps exactly the live entries |
| Sessions.SessionTable.FindOldest | internal/api/server.go:80-87 | the search loop finds an entry closest to expiring |
| Sessions.SessionTable.DropExpired | internal/api/server.go:55-61 | the second half of validSession deletes the token only if it is still expired |

## Left out

What the model assumes:

- A save replaces the whole state file in one step and does not fail.
- One Shutdown call; a crash may come at any step.
- One upload at a time writes a given remote temp path, and the local file does not change during a run.
- pkg/sftp leaves the offset of a failed ReadFrom at the earliest failed write, and the remote file offers ReadFrom and Truncate together or neither.
- Rename fails while its target exists, as section 6.5 of draft-ietf-secsh-filexfer-02 has it.
- AES-GCM (section 7 of NIST SP 800-38D) is an ideal box that opens only under its own key and nonce; base64 is only told apart from text that is none.
- Clocks do not go back; a dispatcher pass and a locked section of a login request read the time once.
- Rates are real numbers, and the host statistics are not rounded to whole KB/s and milliseconds.

What it does not contain:

- SSH and SFTP transport, dialing, known hosts, key parsing, and path confinement: library code.
- Reading and creating the key file, HTTP routing, headers, JSON, server-sent events, the browser code, logging and `main`.
- The token bucket and the sampler's timer: the limiter's rate is modelled, its pacing is not.
- Progress callbacks, progressReader and contextReader, and the fields CreatedAt, RemoteDir and LocalFileExists: nothing but display depends on them.
- GetTasks, Limiter.SetLimit and the file manager's remote operations: one-step reads and writes.
- runTask, processTask (but for its last part, `Finish`) and Shutdown as methods of the object: their phases interleave, so they are steps of the step system only.
- Credentials.EventDecidesFate: a task added has an identifier that is neither listed nor retained, which SchedulerFreshness.IdsNeverReused and ListedIdsDistinct prove of the queue.
- LoginSafety.GuessesAreSlow: comparisons from one address that overlap each other are bounded by the global budget only.
- SchedulerSafety.CrashAfterControl: the agreement covers identifiers, order and statuses, not progress figures.
