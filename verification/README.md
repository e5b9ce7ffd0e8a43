# The durable operation lane, modelled and proved

A model in Dafny 4.11 of the durable operation lane in `internal/health`: two crash-safe
stores, the worker that spans them, the scheduler that drives it, and the two
producer/consumer pairs beside it. `dafny verify dfyconfig.toml` checks everything.

## What is modelled

**History store** (`HistoryModel`, `HistoryReplay`, `HistoryInvariant`, `HistoryPublication`,
`HistoryAccounting`, `HistoryRecovery`, `HistorySteps`, `HistoryBatch`, `HistoryStore`,
`HistoryResults`, `HistoryOrder`, `HistoryVerdicts`). A directory is a value: maps for the records,
the sequence indices, the reservations and the operation index, and optional files for descriptor,
checkpoint, transaction, marker and usage. Every atomic write or removal is one assignment to `disk`
that may fail before or after it took effect, so every error return of a method is also a crash
point. Two ghosts go with a directory: `base`, the complete directory a recovery leads to, and
`log`, every reference ever accepted, in order. `Inv` ties the three together; every method keeps it
whatever fails, and says what it did to `base` and `log`. The records of a sequence, the descriptor
and the published indices are all read off the log, so "exactly once", "contiguous" and "identical
until acknowledged" are facts about one sequence. The full scan (`Scan`, `Recover`) is the
reference; the incremental usage file has to equal it.

**Attempt store** (`AttemptModel`, `AttemptHistory`, `AttemptStore`, `AttemptRuns`). The state file
is the ring of at most 24 attempts. The ghost history is the unbounded sequence of all attempts;
`AttemptInv` says what the two have in common. Each operation is a decision (refuse, or write this
state and answer that), and the class carries decisions out under faults. `AttemptRuns` puts the
decisions together to runs: every sequence of calls with any parameters at any times; what a run may
hand out and acknowledge is read off its calls (`Writes`, `Grants`, `LastGrant`).

**Worker and scheduler** (`Probe`, `Worker`, `Scheduler`). `Coupled` is the cross-store invariant;
the worker keeps it on every return, and every outside result is a parameter. `ExecuteOne`, its
steps and `DeliverOne` also say that they touch nothing of another operation (`OnlyOf`), what the
attempt then records of the receipt (`Records`), and, when no write failed, the one cause each way
of ending early has (`Excused`, `NotDelivered`). The scheduler computes the evidence of its sweep
from the attempts it reads, and keeps ghost copies of these readings, of all errors ever latched, of
the last complete sweep, and of whether a slot is being kept for the reserved delivery.

**Correlation to snapshot** (`Text`, `CorrelationModel`, `Correlation`, `DiagnosisModel`,
`DiagnosisProjection`, `DiagnosisResults`). Maps are walked in an arbitrary order (`:|`), and the
loops are proved equal to functions of the inputs in which no walking order occurs.

**Gatus map to targets** (`GatusModel`, `GatusConfig`, `GatusTargets`, `GatusResults`). The
generator's loops are proved against what the canaries, the plan and the activation determine,
including exactly when it succeeds; the worker's reader is proved against what it demands; then the
two are compared, and what is generated is said entry by entry.

SHA-256 is an injective constructor, JSON encodings are a record of size functions (`Codec`), and
times are integers of nanoseconds with zero for the unset time.

## Where the code does less than its design suggests

- A directory with a frozen batch can be inside the store's own byte bound and still be refused by
  a rebuild: `HistoryRecovery.FitsUnlessFrozen` is the exact condition, and
  `HistoryResults.FrozenRebuildMayBeRefused` a concrete directory.
- The store takes the records of one operation in any order (`AppendValidated`, `Taken`), and a
  directory stays complete whatever the order (`HistorySteps.AnyAppendKeeps`). The transaction of a
  frozen batch is written if and only if every record of the batch is newer than what its operation
  has published (`HistoryOrder.WrittenIff`), and can be applied if and only if besides the
  generations of each operation increase within the batch (`AppliedIff`). What is written and cannot
  be applied blocks every later operation of the store (`StuckIff`, `StuckStays`).
  `BothAreReserved`, `BothAreStored`, `DisorderIsWritten` and `DisorderIsStuck` follow a store there,
  from the empty directory and with a confirmation it accepts. The worker proves that it appends in
  order.
- Reference verification takes no lock. Between any two writes of a publication, the reference of an
  accepted record verifies if and only if its record file is still there or its operation's index
  names it (`HistoryResults.ReferenceBetweenWrites`); so there is a time at which no reference of the
  batch does (`ReferenceLostDuringPublication`).
- A result outside the claim's window is refused by the state's own validity check and leaves the
  claim open (`AttemptHistory.CompleteKeeps`: written if and only if the report fits).
- From a file of attempts some run of calls leads to a new claim if and only if the file is not a
  full ring that begins with an unknown outcome (`AttemptRuns.ClaimableIff`);
  `AttemptRuns.WedgedIsReachable` is a run from no file to such a ring.
- A receipt may be up to one second early; the attempt store does not take it
  (`Probe.ReceiptFits`, `SkewedReceiptIsRefused`).
- The tie error of a correlation depends on the order of its observations
  (`Correlation.ScanSucceedsIff`, `TieDependsOnOrder`).

## Model

| member | source | states |
|---|---|---|
| HistoryReplay.ReplayConverges | internal/health/operation_history_publication.go:395-523 | from every directory between two writes of a publication, replaying the transaction is accepted and gives the same records, indices, checkpoint and descriptor as the uninterrupted run |
| HistoryReplay.ReplayIdempotent | internal/health/operation_history_publication.go:395-523 | replaying a finished publication is accepted and changes nothing |
| HistoryReplay.ReplayAccepted | internal/health/operation_history_publication.go:399-485 | every check of the apply still passes on every crash prefix |
| HistoryReplay.ProgressComposes | internal/health/operation_history_publication.go:395-523 | a crash during the replay of a crash is again a prefix of the same publication |
| HistoryPublication.TransactionAccepted | internal/health/operation_history_publication.go:277-293 | the transaction the store builds for a frozen batch passes the check it will meet when applied |
| HistoryPublication.PublicationIsFull | internal/health/operation_history_publication.go:486-521 | after a publication the directory again holds exactly the unpublished rest of the log, every index is its operation's latest published entry, and the checkpoint has moved by the batch |
| HistoryPublication.PublicationCheckpoint | internal/health/operation_history_publication.go:499-516 | the new checkpoint's key count and fingerprint are those of the whole new operation index |
| HistoryPublication.AdvanceIsFold | internal/health/operation_history_publication.go:675-684 | taking old entries out and putting new ones in by exclusive-or gives the fold over the updated index |
| HistoryResults.FoldOrderIrrelevant | internal/health/operation_history_publication.go:499-516 | count and fingerprint do not depend on the order of the index changes |
| HistoryResults.PublicationAdvances | internal/health/operation_history_publication.go:453-498 | every published operation's generation and sequence strictly increase, and no other index changes |
| HistoryAccounting.PublicationUsage | internal/health/operation_history_publication.go:322-393 | the measured difference is the change of the bytes the full scan counts |
| HistoryAccounting.PublicationShrinks | internal/health/operation_history_publication.go:322-393 | a publication never increases the used bytes: what each record was charged pays for index and checkpoint |
| HistoryAccounting.PublicationScan | internal/health/operation_history_publication.go:322-393 | the usage computed from the old usage and the difference is the full scan of the new directory |
| HistoryAccounting.ChargeBatch | internal/health/operation_history_publication.go:327-349 | the loop over the batch sums what its records and sequence indices were charged |
| HistoryAccounting.ChargeChanges | internal/health/operation_history_publication.go:355-374 | the loop over the changes sums what the operation indices grow by |
| HistoryRecovery.PublicationBounded | internal/health/operation_history_publication.go:247-320 | a publication keeps the byte bound |
| HistoryRecovery.RecoveryReachesTarget | internal/health/operation_history_store.go:558-777 | recovery from any directory the invariant allows gives the complete directory and its full scan, and nothing else |
| HistoryRecovery.RebuildIsAccepted | internal/health/operation_history_store.go:586-766 | none of the rebuild's integrity checks ever fails on a directory a crash can leave |
| HistoryRecovery.FitsUnlessFrozen | internal/health/operation_history_store.go:767-769 | inside the byte bound a rebuild fits if and only if the descriptor leaves the headroom whole, and always without a descriptor |
| HistoryRecovery.RecoveryStepKeeps | internal/health/operation_history_store.go:558-777 | a crash at any write of the recovery keeps the invariant and the complete directory it leads to |
| HistoryInvariant.LogIdentityUnique | internal/health/operation_history_store.go:301-436 | an identity gets at most one sequence number over any run |
| HistoryResults.SequencesPartition | internal/health/operation_history_store.go:691-709 | published numbers are exactly 1 to the checkpoint, pending ones exactly the rest of the log, and no two records share one |
| HistoryInvariant.RecordsCount | internal/health/operation_history_store.go:692-696 | the records on disk are as many as the log is ahead of the checkpoint |
| HistorySteps.ReserveKeeps | internal/health/operation_history_store.go:227-299 | an admitted reservation keeps the bound, and the full scan afterwards is the old one with one reservation more |
| HistorySteps.CancelKeeps | internal/health/operation_history_store.go:440-479 | a cancellation keeps the bound, and the full scan afterwards is the old one with one reservation less |
| HistorySteps.FreezeKeeps | internal/health/operation_history_publication.go:209-242 | a descriptor keeps the bound, and the full scan afterwards is the old one with its charge |
| HistorySteps.AnyAppendKeeps | internal/health/operation_history_store.go:371-436 | an append the store accepts keeps a directory complete whatever the generations of the records before it |
| HistorySteps.AppendKeeps | internal/health/operation_history_store.go:301-436 | an append takes the next sequence number, keeps the bound, and moves the full scan from reserved to used |
| HistoryBatch.SelectBatch | internal/health/operation_history_publication.go:64-130 | the batch selected is the longest run of pending records within 256 records and 8 MiB |
| HistoryBatch.LongestIsLongest | internal/health/operation_history_publication.go:88-125 | no longer run from the same place stays within the limits |
| HistoryBatch.LongestUnique | internal/health/operation_history_publication.go:88-125 | the log has only one such run from a given place |
| HistoryResults.FrozenStays | internal/health/operation_history_publication.go:132-160 | a frozen batch still fits the log after any append, and stays the longest if it had been cut by a limit |
| HistoryStore.OperationHistoryStore.constructor | internal/health/operation_history_store.go:197-225 | an empty directory satisfies the invariant |
| HistoryStore.OperationHistoryStore.Open | internal/health/operation_history_store.go:197-225 | opening leaves the complete directory as it was and either answers with its full scan or refuses for capacity, exactly when it does not fit |
| HistoryStore.OperationHistoryStore.Reserve | internal/health/operation_history_store.go:227-299 | the full verdict on an undisturbed directory (given by `AdmittedIff` and `RefusedByLog`), at most the one reservation added otherwise, and the usage file clean and equal to the full scan on success |
| HistoryVerdicts.AdmittedIff | internal/health/operation_history_store.go:270-274 | a fresh attempt gets its reservation if and only if the directory with it passes the capacity test of a rebuild and leaves a key for its operation; without a frozen batch, if and only if the byte bound is kept |
| HistoryVerdicts.RefusedByLog | internal/health/operation_history_store.go:242-269 | it is stale if and only if the log has a published record of its operation as new, already there if and only if its own record is pending; who holds the reservation is always given it again |
| HistoryStore.OperationHistoryStore.AppendValidated | internal/health/operation_history_store.go:301-436 | whatever fails, the directory and the log are as before or hold exactly the one new record, with the usage file equal to the full scan on success; the store's invariant goes on to hold if the record came in the order of its operation's generations |
| HistoryVerdicts.AppendByLog | internal/health/operation_history_store.go:301-436 | every answer to an append in terms of the log: recognised with its first time while it is pending or the latest published, a conflict if the log has another record of the attempt, stale if overtaken, refused without the reservation, and otherwise stored under the next number with the time of this append exactly if it fits what was reserved |
| HistoryStore.OperationHistoryStore.CancelReservation | internal/health/operation_history_store.go:440-479 | only the reservation with this token goes, and only if it is there; the full verdict on an undisturbed directory |
| HistoryVerdicts.ReserveCancelRoundTrip | internal/health/operation_history_store.go:440-479 | a reservation just given can be given back with its token, leaving the directory as it was, and with no other token |
| HistoryVerdicts.CancelByLog | internal/health/operation_history_store.go:440-479 | a cancellation is refused if and only if the record is pending or another token holds the reservation |
| HistoryStore.OperationHistoryStore.PendingBatch | internal/health/operation_history_publication.go:64-130 | answers with the frozen batch, or freezes the longest run that is pending; the log stays |
| HistoryStore.OperationHistoryStore.Acknowledge | internal/health/operation_history_publication.go:247-320 | the batch is retired as a whole or not at all, and a second acknowledgement of it is answered the same |
| HistoryVerdicts.AcknowledgeIsTaken | internal/health/operation_history_publication.go:247-305 | the current batch with a confirmation for it is never refused, as long as its descriptor and transaction are not too large |
| HistoryVerdicts.RepeatIsAnswered | internal/health/operation_history_publication.go:265-274 | right after a publication its acknowledgement is repeated with success for exactly the confirmations of the same artifact |
| HistoryStore.OperationHistoryStore.PublishPending | internal/health/operation_history_publication.go:18-43 | a positive answer means the checkpoint has moved past a batch, none means nothing was pending; an undisturbed failure means the descriptor or transaction was too large or the publisher did not confirm the batch; no record of the log and no reservation is lost either way |
| HistoryStore.OperationHistoryStore.Publish | internal/health/operation_history_publication.go:306-318 | a publication that fails anywhere leaves a directory that recovers to before or after it, never between |
| HistoryStore.OperationHistoryStore.ApplyPublication | internal/health/operation_history_publication.go:395-523 | the writes in order; every error return is a crash prefix of the same publication |
| HistoryStore.OperationHistoryStore.CheckPublication | internal/health/operation_history_publication.go:395-485 | accepts exactly the transactions that may be applied to the directory |
| HistoryStore.OperationHistoryStore.MeasurePublication | internal/health/operation_history_publication.go:322-393 | computes the usage that the full scan will find after the publication |
| HistoryStore.OperationHistoryStore.Rebuild | internal/health/operation_history_store.go:558-777 | succeeds exactly on recoverable directories and then leaves what recovery is defined to be; refuses for capacity exactly when only the room is missing |
| HistoryStore.OperationHistoryStore.EnsureUsage | internal/health/operation_history_store.go:531-556 | trusts a clean usage file without a rebuild, and is right to |
| HistoryStore.OperationHistoryStore.BeginMutation | internal/health/operation_history_store.go:842-853 | a marker written first, and nothing else |
| HistoryStore.OperationHistoryStore.FinishMutation | internal/health/operation_history_store.go:855-863 | usage before marker: a crash between them is recovered from |
| HistoryStore.OperationHistoryStore.RecordCapacityBlock | internal/health/operation_history_store.go:968-977 | counts a refusal without touching the rest of the directory |
| HistoryStore.ScanIndex | internal/health/operation_history_store.go:600-633 | the scan over the operation index accepts exactly the well-formed ones and sums their charges and their fingerprint |
| HistoryStore.BuildChanges | internal/health/operation_history_publication.go:588-612 | one change per operation of the batch, with the index it replaces |
| HistoryStore.ComputeCheckpoint | internal/health/operation_history_publication.go:499-516 | the loop over the changes computes the next checkpoint |
| HistoryStore.LatestDecides | internal/health/operation_history_publication.go:461-465 | comparing each record with its operation's latest so far decides whether generations increase over the whole batch |
| HistoryStore.AcknowledgeNeverRefused | internal/health/operation_history_publication.go:298-301 | the capacity check of an acknowledgement never fails on a directory inside the bound |
| HistoryStore.FreezeNeverRefused | internal/health/operation_history_publication.go:222-233 | a descriptor that is not too large always finds its room |
| HistoryStore.SequencesInjective | internal/health/operation_history_store.go:692-696 | the rebuild's contiguity check leaves no two records with one sequence number |
| HistoryResults.SettledIsRecovered | internal/health/operation_history_store.go:531-777 | after an operation has completed, a rebuild would change nothing: the usage file equals the full scan in every field |
| HistoryResults.CrashesConverge | internal/health/operation_history_store.go:558-777 | any two crashes that left the same transaction, or none, recover to the same directory and usage but for the count of refusals; a crash before the transaction was written recovers to the directory before the publication, one after it to the directory after |
| HistoryResults.RetryWhilePending | internal/health/operation_history_store.go:318-351 | a retried append of a pending record is answered with its reference |
| HistoryResults.RetryWhenPublished | internal/health/operation_history_store.go:355-370 | so is one of an operation's latest published record |
| HistoryResults.ReferenceIffAccepted | internal/health/operation_history_store.go:804-828 | a reference verifies if and only if the log has it and it is pending or its operation's latest published |
| HistoryResults.ReferenceBetweenWrites | internal/health/operation_history_store.go:804-828 | between any two writes: without a publication in flight exactly the references it should; during one, an accepted reference if and only if its record file is still there or its operation's index names it; never one that was not accepted |
| HistoryResults.ReferenceLostDuringPublication | internal/health/operation_history_store.go:804-828 | after the removals and before the index writes of a publication no reference of the batch verifies |
| HistoryOrder.WrittenIff | internal/health/operation_history_publication.go:277-293 | the transaction of a frozen batch passes the check made before it is written if and only if each of its records is newer than its operation's published one |
| HistoryOrder.AppliedIff | internal/health/operation_history_publication.go:395-485 | it can be applied if and only if, besides, the generations of each operation increase within the batch |
| HistoryOrder.StuckIff | internal/health/operation_history_store.go:558-585 | once it is written, the next rebuild gets past the replay if and only if the generations increase; otherwise nothing trusts the usage file and every rebuild is refused |
| HistoryOrder.StuckStays | internal/health/operation_history_store.go:558-585 | a refused rebuild leaves the directory refused |
| HistoryOrder.BothAreReserved | internal/health/operation_history_store.go:227-299 | a concrete store with room for two records reserves for two attempts of one operation |
| HistoryOrder.BothAreStored | internal/health/operation_history_store.go:301-436 | and takes the record of the later attempt first, then that of the earlier one |
| HistoryOrder.DisorderIsWritten | internal/health/operation_history_publication.go:247-304 | the two are frozen into one batch, whose acknowledgement passes every check before the transaction is written |
| HistoryOrder.DisorderIsStuck | internal/health/operation_history_publication.go:461-465 | the directory that leaves is refused by every rebuild |
| HistoryResults.FrozenRebuildMayBeRefused | internal/health/operation_history_store.go:767-769 | a directory of a store with an admissible maximum that meets the invariant, passes every check and does not fit |
| AttemptHistory.BeginKeeps | internal/health/operation_attempt_store.go:363-424 | a claim that may be made keeps every fact about the whole history: one claim, validity, spacing, safe eviction, order of deliveries |
| AttemptHistory.ExpireKeeps | internal/health/operation_attempt_store.go:380-391 | so does turning an expired claim into an unknown outcome |
| AttemptHistory.CompleteKeeps | internal/health/operation_attempt_store.go:438-472 | a completion yields a state the store accepts if and only if the report fits the claim's window, and then keeps everything |
| AttemptHistory.ReportedValidIff | internal/health/operation_attempt_store.go:438-472 | the finished attempt is valid if and only if the report fits |
| AttemptHistory.StartDeliveryKeeps | internal/health/operation_attempt_store.go:762-808 | starting a delivery is accepted exactly below a million tries, and keeps everything |
| AttemptHistory.AcknowledgeKeeps | internal/health/operation_attempt_store.go:814-833 | an acknowledgement is always accepted and keeps everything |
| AttemptHistory.ReadbackKeeps | internal/health/operation_attempt_store.go:841-861 | a readback is always accepted and keeps everything |
| AttemptHistory.EvolvesTransitive | internal/health/operation_attempt_store.go:1195-1215 | over any run each attempt makes at most one terminal transition, one acknowledgement and one readback, and never goes back |
| AttemptHistory.OneClaim | internal/health/operation_attempt_store.go:378-396 | at most one attempt of the whole history is claimed, and it is the last |
| AttemptHistory.OneDelivery | internal/health/operation_attempt_store.go:762-808 | at most one attempt is being delivered; every earlier observed one is read back or not applicable, every later one not started |
| AttemptHistory.RequestSpacing | internal/health/operation_attempt_store.go:679-702 | start times increase, and after an attempt that may have made a request the next starts at least its period later |
| AttemptHistory.EvictionIsSafe | internal/health/operation_attempt_store.go:397-403 | nothing that left the ring was claimed, unknown or waiting for its readback, and the flag for a request ever started covers the whole history |
| AttemptRuns.RunKeeps | internal/health/operation_attempt_store.go:363-861 | after any run of calls, from no file or from any file of the invariant, some history goes with the file and continues the one before |
| AttemptRuns.WedgedForever | internal/health/operation_attempt_store.go:397-401 | a full ring that begins with an unknown outcome stays one over every run |
| AttemptRuns.ClaimableIff | internal/health/operation_attempt_store.go:363-424 | some run of calls leads to a new claim if and only if the file is not such a ring: whatever else blocks the oldest place can be delivered and read back, and an open claim expires |
| AttemptRuns.WedgedIsReachable | internal/health/operation_attempt_store.go:380-401 | a run of claims that expire, from no file, leads to such a ring |
| AttemptRuns.ReportedOutcome | internal/health/operation_attempt_store.go:430-735 | what every report makes of a claim: a failure and anything late an unknown outcome, an observation outside the claim a failed one, and what is established about nothing is never delivered; taken are failures and what comes in time and fits |
| AttemptRuns.HandedOutIff | internal/health/operation_attempt_store.go:762-808 | a summary is handed out if and only if the attempt is observed, every observed one before it is read back or not applicable, and no lease on it is running |
| AttemptRuns.AnsweredIff | internal/health/operation_attempt_store.go:814-861 | it is acknowledged if and only if it is pending under this generation and not earlier than it was handed out, and read back if and only if it was acknowledged no later |
| AttemptRuns.NextClaimIff | internal/health/operation_attempt_store.go:363-424 | after a report that was written the next claim is granted if and only if the ring has room and the longer of both periods has passed since the start; or, after a reported drain of the quota window, half a minute since the report |
| AttemptRuns.DeliveriesApart | internal/health/operation_attempt_store.go:762-808 | over any run, a summary handed out twice without an acknowledgement in between is handed out at least the later caller's lease apart |
| AttemptRuns.AcknowledgedByLast | internal/health/operation_attempt_store.go:814-833 | over any run from no file, an acknowledgement is written only for the generation handed out last |
| AttemptStore.OperationAttemptStore.WriteState | internal/health/operation_attempt_store.go:1244-1275 | writes exactly the valid states within the size limit; a fault leaves the old or the new file |
| AttemptStore.OperationAttemptStore.BeginAttempt | internal/health/operation_attempt_store.go:363-424 | carries out the claim decision; success appends one claimed attempt to the history |
| AttemptStore.OperationAttemptStore.StartAttempt | internal/health/operation_attempt_store.go:397-416 | the oldest attempt leaves a full ring, the claim enters it |
| AttemptStore.OperationAttemptStore.ExpireClaim | internal/health/operation_attempt_store.go:380-391 | an expired claim becomes unknown and the caller is told so |
| AttemptStore.OperationAttemptStore.Complete | internal/health/operation_attempt_store.go:430-473 | only the claim's holder finishes it, and exactly as reported |
| AttemptStore.OperationAttemptStore.ClaimDelivery | internal/health/operation_attempt_store.go:762-808 | carries out the delivery decision, in order and under a lease (`AttemptRuns.DeliveriesApart`) |
| AttemptStore.OperationAttemptStore.AcknowledgeDelivery | internal/health/operation_attempt_store.go:814-833 | only the current delivery generation is acknowledged |
| AttemptStore.OperationAttemptStore.RecordGatusReadback | internal/health/operation_attempt_store.go:841-861 | only an acknowledged summary is read back |
| Probe.EveryReceiptIsReported | internal/health/operation_plan_probe.go:496-559 | every receipt the validator passes has exactly one kind of report, valid if and only if its times are in order; an operation without a response contract is never called healthy, and unhealthy only for its status |
| Probe.ReceiptIsRecorded | internal/health/operation_attempt_store.go:480-571 | what is recorded of a valid receipt says what its assertion found, why no request was made, and its times, status, latency and digest |
| Probe.ReceiptFits | internal/health/operation_plan_probe.go:512-519 | the attempt store takes it if and only if it was observed inside the attempt |
| Probe.SkewedReceiptIsRefused | internal/health/operation_plan_probe.go:516-517 | a receipt half a second early passes the validator and not the store |
| Worker.ExecutionDeadline | internal/health/operation_plan_worker.go:523-537 | a deadline lies before the claim's and before every quota claim's end |
| Worker.OperationPlanWorker.RunChild | internal/health/operation_plan_worker.go:335-350 | the child runs only under a claim, a reservation for its identity and quota claims that all outlast its deadline |
| Worker.OperationPlanWorker.CancelReservation | internal/health/operation_plan_worker.go:614-621 | a reservation is given back only for an identity whose child never ran |
| Worker.OperationPlanWorker.Report | internal/health/operation_plan_worker.go:385-405 | an observation is recorded only with an accepted history record of the same identity and digest |
| Worker.OperationPlanWorker.ClaimAttempt | internal/health/operation_plan_worker.go:280-293 | a new claim's identity has no reservation and no run yet |
| Worker.OperationPlanWorker.Append | internal/health/operation_plan_worker.go:374-384 | the claim's record comes in the order of its operation's generations, so the invariant of the store goes on to hold; the record is in the log afterwards |
| Worker.OperationPlanWorker.Dispatch | internal/health/operation_plan_worker.go:294-405 | reservation, quota, deadline, child and append in this order; every early return resolves the claim as its step says, and has the one cause it can have |
| Worker.OperationPlanWorker.ExecuteOne | internal/health/operation_plan_worker.go:255-416 | on every return, and so at every crash point, the two stores are coupled and nothing of another operation has changed; a deferral carries the evidence of what stopped it, and an attempt whose completion was taken records what the receipt says; without a failed write each way to end early has its one cause, so that a run in which none of them holds reports the receipt |
| Worker.OthersKeepStanding | internal/health/operation_plan_worker.go:255-416 | what a worker relies on from one call to the next about its claim survives whatever the calls for another operation do in between |
| Worker.OperationPlanWorker.PublishPending | internal/health/operation_history_publication.go:18-43 | a publication leaves attempts, log, reservations and runs as they are, so the stores stay coupled |
| Worker.OperationPlanWorker.DeliverOne | internal/health/operation_plan_worker.go:542-573 | success has pushed once and read back, or only read back; an accepted summary is never sent again; no reported outcome changes, and nothing of another operation; without a failed write a failure has its cause in the file or in an answer of the monitor |
| Worker.OperationPlanWorker.Push | internal/health/operation_plan_worker.go:560-567 | success means one more delivery try, acknowledged at the monitor's time |
| Worker.OperationPlanWorker.ReadBack | internal/health/operation_plan_worker.go:553-572 | only an acknowledged summary is read back, and the answer is recorded as given |
| Scheduler.EvidenceIff | internal/health/operation_plan_scheduler.go:537-597 | evidence is proof if and only if the attempt it goes by is one of exactly this binding that was observed, validated, confirmed and read back; it then lasts a period from the observation and counts from the readback, or from the receipt where nothing had to be sent |
| Scheduler.ErrorCovers | internal/health/operation_plan_scheduler.go:852-894 | every latched error is covered by its identity's entry, which is at least as strict |
| Scheduler.ProofAfterLatch | internal/health/operation_plan_scheduler.go:504-518 | evidence that clears an identity's error is proof no older than any latch of it that asked for new proof, where its latches' times do not go back |
| Scheduler.OperationPlanScheduler.ClearedByNewProof | internal/health/operation_plan_scheduler.go:504-518 | an error that asked for new proof is cleared only by a sweep that read, for its identity, an attempt read back, or where nothing had to be sent received, at the error's time or later |
| Scheduler.AllCurrent | internal/health/operation_plan_scheduler.go:486-500 | the count of current evidence equals the number of targets only if each is current |
| Scheduler.Tally | internal/health/operation_plan_scheduler.go:486-497 | the loop counts the current evidence and finds the earliest expiry |
| Scheduler.OperationPlanScheduler.Launch | internal/health/operation_plan_scheduler.go:650-691 | starts exactly when the identity is free and a slot is, the last one being kept for the reserved delivery; which is refused only while its identity is busy |
| Scheduler.OperationPlanScheduler.TaskEnds | internal/health/operation_plan_scheduler.go:693-779 | frees one slot, which from then on is kept for a reserved delivery |
| Scheduler.OperationPlanScheduler.LatchError | internal/health/operation_plan_scheduler.go:852-894 | one more error, a demand for new proof never forgotten |
| Scheduler.OperationPlanScheduler.ScanSlice | internal/health/operation_plan_scheduler.go:448-481 | a slice of a sweep stages for each of its targets exactly the evidence of the attempts it read, and nothing for others; a target whose attempts or reference cannot be read starts the sweep over |
| Scheduler.OperationPlanScheduler.AdvanceEvidenceSweep | internal/health/operation_plan_scheduler.go:434-530 | interleaved with any other errors, each pass stages exactly the evidence of what it read on top of the passes before; a sweep that cannot read starts over; errors are cleared only if none was latched since it began |
| Scheduler.OperationPlanScheduler.PublishSweep | internal/health/operation_plan_scheduler.go:486-529 | the totals are those of the sweep that ended; errors are cleared if and only if every target is current, none was latched since the sweep began, and each is answered |
| Scheduler.OperationPlanScheduler.StatusAt | internal/health/operation_plan_scheduler.go:896-990 | ready if and only if every target can be probed, passes still run, no error is open, and the last complete sweep read for every target an observed, validated, confirmed and delivered attempt of its binding that was less than a period old then and is now; not feasible, a stopped loop, an open error (with the reason of the last one) and a first sweep still awaited exactly when these are so |
| Scheduler.OperationPlanScheduler.OfferDelivery | internal/health/operation_plan_scheduler.go:331-356 | a kept slot is used for the reserved delivery as soon as it is offered, given up only when nothing is pending |
| Scheduler.OperationPlanScheduler.DeliveryScan | internal/health/operation_plan_scheduler.go:320-358 | every pending delivery looked at is under way unless the slots are used up, one for which a slot was kept always; the next scan starts at the reserved target |
| Scheduler.OperationPlanScheduler.OfferExecution | internal/health/operation_plan_scheduler.go:373-397 | a due observation is under way afterwards, or no slot it may use is free |
| Scheduler.OperationPlanScheduler.ExecutionScan | internal/health/operation_plan_scheduler.go:365-402 | every due observation looked at is under way unless the slots it may use are taken; the next scan goes on where this one stopped, and a kept slot stays kept |
| Scheduler.OperationPlanScheduler.ProcessDue | internal/health/operation_plan_scheduler.go:284-424 | nothing happens before a pass is due; then every pending delivery and due observation looked at is under way unless the slots are used up, one slice of the sweep follows, and errors are cleared only by a sweep that answers them |
| Scheduler.EveryTargetScanned | internal/health/operation_plan_scheduler.go:365-402 | scans whose lengths add up to the number of targets reach every one of them |
| Text.SortIsAscending | internal/health/correlation.go:513-520 | sorting any listing of distinct elements gives the same sequence, whatever order the map was walked in |
| CorrelationModel.LatestIsMaximum | internal/health/correlation.go:267-290 | a scan that succeeds has found the unique newest counted observation of every operation |
| CorrelationModel.LatestOrderFree | internal/health/correlation.go:267-290 | two orders that both succeed find the same |
| Correlation.LatestObservations | internal/health/correlation.go:267-290 | the loop is that scan, its first error included |
| Correlation.SplitObservations | internal/health/correlation.go:291-301 | walking the map in any order gives the affected and control operations in ascending order |
| Correlation.CheckChain | internal/health/correlation.go:382-395 | accepts exactly the chains of versions 1, 2, 3, ... each superseding the one before |
| Correlation.SelectActiveNotices | internal/health/correlation.go:371-407 | selects exactly the notices in force, in the order of their references, for any walking order |
| Correlation.NoticeRefUnique | internal/health/correlation.go:463-465 | a notice reference determines identifier, version and content |
| Correlation.NoticeTextShape | internal/health/diagnosis_snapshot.go:29-29 | the reference pattern accepts exactly the texts made of an identifier, a version and a digest |
| Correlation.CorrelateProviderOutage | internal/health/correlation.go:254-334 | the program computes the receipt the inputs determine, every refusal included |
| Correlation.ChainsOrderFree | internal/health/correlation.go:381-395 | whether the notices are accepted does not depend on their order |
| Correlation.ReceiptOrderFree | internal/health/correlation.go:254-334 | equal receipts for any two orders of observations and notices on which the scan succeeds |
| Correlation.ScanSucceedsIff | internal/health/correlation.go:269-290 | the scan succeeds if and only if no reference repeats, nothing is refused and no observation meets a tie with the newest so far |
| Correlation.UntiedOrdersAgree | internal/health/correlation.go:284-289 | without simultaneous observations of one operation every order gives the same receipt |
| Correlation.TieDependsOnOrder | internal/health/correlation.go:284-289 | with them, one order succeeds and another fails |
| DiagnosisProjection.CheckRefs | internal/health/diagnosis_snapshot.go:277-290 | the loop accepts exactly references to known operations, each once |
| DiagnosisProjection.CheckNotices | internal/health/diagnosis_snapshot.go:252-268 | cited notices are well formed and distinct, the linked one considered and not superseded |
| DiagnosisProjection.IndexEvidence | internal/health/diagnosis_snapshot.go:294-300 | accepts exactly well-formed evidence with distinct references, and indexes it |
| DiagnosisProjection.CheckBindings | internal/health/diagnosis_snapshot.go:301-312 | accepts exactly complete bindings, and computes every operation's expiry |
| DiagnosisProjection.ValidInsufficientReceipt | internal/health/diagnosis_snapshot.go:227-243 | the first validator, as one condition |
| DiagnosisProjection.ValidateReceipt | internal/health/diagnosis_snapshot.go:245-313 | the second validator, as one condition, with the expiries |
| DiagnosisProjection.EvaluateRequest | internal/health/assertion_policy.go:350-393 | the loop over the fields computes the evaluation |
| DiagnosisProjection.AdmissibleIsValid | internal/health/diagnosis_snapshot.go:322-350 | a request is valid exactly when admissible, and passes if and only if it has fields and all are declared, fails if and only if one is not |
| DiagnosisResults.ConcludedIff | internal/health/assertion_policy.go:350-393 | something is concluded from a request if and only if it is well made and bound to the accepted policy; then a failure exactly from an undeclared field and a pass exactly from fields that are all declared |
| DiagnosisProjection.ProjectDiagnosisSnapshot | internal/health/diagnosis_snapshot.go:102-225 | succeeds exactly on inputs within their limits whose document the schema takes, and emits, in ascending order, for every operation the entry its mentions and requests determine |
| DiagnosisResults.ReceiptAgreement | internal/health/diagnosis_snapshot.go:139-150 | every receipt a correlation returns is accepted by its validator if and only if its time window is open |
| DiagnosisResults.DegradedIff | internal/health/correlation.go:291-323 | an outage is found if and only if the newest eligible observations of two operations are unhealthy and that of some operation is healthy |
| DiagnosisResults.ObservedIffCovered | internal/health/correlation.go:326-332 | a correlation says observed if and only if some notice is the newest version of its kind, in force and not withdrawn, for this dependency, and covers time and operation of every newest unhealthy observation |
| DiagnosisResults.OutageIsPublished | internal/health/diagnosis_snapshot.go:148-175 | a degraded correlation diagnoses exactly its affected operations whose evidence has not run out |
| DiagnosisResults.OutageExpires | internal/health/correlation.go:480-488 | a published outage rests on the newest eligible observation of its operation, and lasts the window from that observation, up to the second its age is rounded to |
| DiagnosisResults.EntryValidIff | internal/health/diagnosis_snapshot.go:572-610 | an emitted entry passes the reader's check at generation time if and only if it counts at most ten affected and ten control operations |
| DiagnosisResults.EveryEntryIsValid | internal/health/diagnosis_snapshot.go:572-610 | so every entry does for the accepted ten canaries, and for eleven |
| DiagnosisResults.ProjectionOrderFree | internal/health/diagnosis_snapshot.go:139-206 | the entries are the same for any order of receipts and of requests |
| DiagnosisResults.RejectedIff | internal/health/diagnosis_snapshot.go:380-402 | an operation ends rejected if and only if it is named twice, a source is refused, or an outage meets a contract drift |
| DiagnosisResults.EntryShows | internal/health/diagnosis_snapshot.go:139-206 | every operation that is not rejected shows the outage of the one receipt that diagnoses it, failing that the assertion of its one request, and failing both nothing, each with the times, source and counts of its input; a contract drift if and only if its one request is about the contract and names an undeclared field |
| DiagnosisResults.ReadDiagnosisSnapshot | internal/health/diagnosis_snapshot.go:512-570 | reads for every operation its one valid item, unknown for none, rejected for anything else |
| DiagnosisResults.SnapshotRoundTrip | internal/health/diagnosis_snapshot.go:512-570 | reading back a projection gives every valid entry as emitted until its evidence expires, and rejected from then on |
| DiagnosisResults.NeverStale | internal/health/diagnosis_snapshot.go:649-674 | whatever the file holds, a published diagnosis rests on evidence at most fifteen minutes old |
| GatusModel.IdentityKeyUnique | internal/health/operation_read_model.go:1090-1092 | the joined text is a key: no two identities share it |
| GatusConfig.RegisterKey | internal/health/operation_gatus_config.go:392-401 | a key is refused exactly if empty or taken by another identity |
| GatusConfig.AddCanaries | internal/health/operation_gatus_config.go:190-210 | accepts exactly linked canaries with distinct identities and keys |
| GatusConfig.AddRecord | internal/health/operation_gatus_config.go:242-297 | takes a record exactly if it may be served and its key is free, and then the entries, keys, endpoints and counters are those of one record more |
| GatusConfig.AddPlan | internal/health/operation_gatus_config.go:236-298 | the loop over shards accepts exactly the plans all of whose records fit |
| GatusTargets.GenerateOperationGatusArtifacts | internal/health/operation_gatus_config.go:165-363 | succeeds exactly when the inputs allow it, and generates what they determine |
| GatusTargets.EndpointsRender | internal/health/operation_gatus_config.go:423-475 | every endpoint the generator makes is one the renderer takes |
| GatusTargets.ExactActivePlanTargets | internal/health/operation_plan_runtime.go:335-391 | accepts exactly maps that match the plan record by record, and returns the plan-active records in order |
| GatusTargets.MapAgreement | internal/health/operation_plan_runtime.go:335-391 | every generated map is accepted, and the targets are exactly the activated records under their endpoints' keys |
| GatusResults.TargetsAreSound | internal/health/operation_plan_runtime.go:335-391 | whatever map is accepted, the targets are exactly its plan-active entries, each with a record of the plan that may be executed and agrees in kind, admission and period, under the entry's key |
| GatusTargets.NothingServedTwice | internal/health/operation_gatus_config.go:268-296 | no operation is active for plan and canary at once, activity is one of the two, and keys are injective |
| GatusTargets.ConfiguredCount | internal/health/operation_gatus_config.go:336-341 | configured endpoints are canaries plus activated records minus overlaps |
| GatusResults.EndpointIff | internal/health/operation_gatus_config.go:242-329 | the configuration has exactly one receiver for each activated record, silent for two periods before it alerts or never alerting, and for each canary whose operation is not activated |
| GatusResults.EntryIff | internal/health/operation_gatus_config.go:190-297 | the map has exactly one entry for each record of the plan, and for each canary no record stands for, as the inputs have them |
| GatusResults.CountsAreTrue | internal/health/operation_gatus_config.go:331-341 | every count of the map is the number of what the map or the configuration contains |
| GatusTargets.SuppressedIffActivated | internal/health/operation_gatus_config.go:272-284 | a canary is suppressed if and only if its operation is activated |
| GatusTargets.EveryCanaryIsPlanned | internal/health/operation_gatus_config.go:217-219 | every plan the generator takes has the operation of every canary |
| GatusTargets.PlanIsTheInventory | internal/health/verified_registry_metadata.go:203-209 | the data.go.kr operations of such a plan are exactly those of the inventory |

## Left out

- JSON encoding and decoding, schema validation and regular expressions whose shape does not matter: sizes and acceptance are parameters, digests are injective constructors.
- File modes, symbolic links, fsync, flock polling and temporary files: a write or removal is atomic and under the lock, and may fail before or after it took effect.
- Files that are present but too long or not decodable: the directory model has no such file; the checks on decoded contents are modelled.
- Contexts and timeouts, except as the scheduler's alive flag and the point at which a pass stops.
- Another process working on the same stores during one store call: the stores are locked per call. Calls for other operations between two calls of a worker are covered by `OnlyOf`; a second worker on the same operation is not.
- The history store after records of one operation were appended out of order: its methods are specified up to that append; `HistoryOrder` says what becomes of the directory.
- HistoryStore.OperationHistoryStore.RecordCapacityBlock: the counter of blocked reservations is carried along, not recomputed; no scan can know it.
- Sorting the pending sequence numbers before the contiguity check: the check is made on the set of them.
- Post-checks of the usage difference that cannot fail under the invariant.
- Worker.OperationPlanWorker.ExecuteOne: the reservation token is taken as not empty; the causes of an early end are given for a history directory that needs no rebuild.
- Scheduler.OperationPlanScheduler.StatusAt: does not tell apart the statuses for evidence that is missing and for evidence that has run out.
- AttemptRuns.ClaimableIff: leaves the size limit of the file aside; a state that passes every other check counts as written.
- Tasks that end, and errors they latch, while a pass is still offering deliveries and observations; they are covered during the sweep and between passes. A pass that runs out of time before its sweep.
- Quota authority, child process, HTTP push and readback: their results are parameters.
- The scheduler's capacity assessment in floating point: the feasible flag is an input.
- Diagnosis templates: the comparison with the reviewed public diagnoses is one input flag.
- Counts of accepted, unknown and rejected entries, and the projector's own receipt.
- The text the Gatus configuration is rendered into: whether the rendered files fit their limits, and whether base configuration, activation and source artifact are the pinned ones, are inputs.
- Plan loading and admission: verified records with unique identities are the input.
- Parquet archive, compaction, publishing, the public read model, the legacy canary scheduler, the command programs and the scripts.
