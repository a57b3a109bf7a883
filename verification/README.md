# Session-pressure resident and work ledger: a Dafny model

The resident samples a host, keeps several hysteretic latches and durable histories, and may ask one quiet agent
process tree to terminate. Beside it, heavy work runs under leases and leaves a ledger of work events. This project
models the parts whose promise is about whole runs or all inputs, and proves those promises.

Code that changes state in place is a `class` or a `method` with loops, proved against a specification function; the
guarantees are lemmas about that function, over every run, restart, crash or input.

| file | what it models |
|---|---|
| `WorkLedger.dfy` | work-event rows, the lifecycle validator, the tolerant partition |
| `WorkLifecycle.dfy` | which histories the validator passes: an exact, declarative characterisation |
| `LateTerminals.dfy` | the normaliser for late terminals, and its agreement with the validator |
| `WorkSummary.dfy` | the summarising fold: every counter is a number of operations |
| `WorkConservation.dfy` | conservation laws of the summary |
| `DiskLedger.dfy` | device bytes per hour: flush, checkpoint, restore, crash |
| `DiskSplit.dfy` | which bytes are scored and which are gap, hour by hour |
| `DiskHistogram.dfy` | the mergeable log2 histogram and its p99 |
| `DiskAlerts.dfy` | the write-ahead alert cap |
| `SwapThrash.dfy` | the swap-thrash latch, its attribution and its transition log |
| `SwapThrashEpisode.dfy` | what a sample says, what a restart resumes, and an episode's cause, start and rows |
| `AdmissionGate.dfy` | the shared admission latch and the admission holds |
| `AdmissionVerdict.dfy` | when the admission latch is latched, said of the polls alone |
| `Singleflight.dfy` | batch singleflight and receipt reuse as a concurrent protocol |
| `Framing.dfy` | length-prefixed key material |
| `ProcessForest.dfy` | agent trees over arbitrary parent links, leaf-first signalling |
| `WorkAttribution.dfy` | charging processes to the nearest lease |
| `Relief.dfy` | the pressure ladder and the relief loop |
| `ReliefActs.dfy` | exactly when a tree is submitted, and which |
| `ReliefCooldown.dfy` | the relief cooldown across restarts |
| `ShellTokenizer.dfy` | the literal shell tokenizer |
| `ShellQuoting.dfy` | shell quoting and its inverse |

Times are integers in nanoseconds with 0 for "none"; floats are `real`; 64-bit wrap-around and saturation are written
out in the histogram and the byte counters. Clocks, samples, save and append results, crashes and the interleaving of
processes are inputs of the runs. `withState` is one atomic step, a leased run is an exit code, digests are injective.

## What turned out not to hold

Each entry names a lemma with a concrete run or input, and the theorem that says when the promise does hold. The
theorem is an if-and-only-if in every case but the alert cap, whose bound is per visit to a day.

- The transition log replays to the exact latch within one process. Across a restart that finds only stale evidence it
  keeps reading "latched" until the next row (`StaleRestartLeavesLogLatched`, `DurableLogExactness`).
- Bytes are conserved from the anchor of the run. A crash before anything is durable moves that anchor
  (`BareCrashLosesBytes`, `ConservedFromFirstIff`). An hour whose append fails is gone at the next successful flush,
  so conservation then holds only if that hour had no traffic (`FailedAppendLosesHour`, `FailedAppendConservesIff`).
- The alert cap is four per visit to a day: a clock that leaves a day and returns gets a fifth alert on it
  (`DayRollbackResetsCap`, `FourAlertsPerVisit`).
- The tokenizer undoes quoting if and only if no word and no command is empty; an empty word is dropped
  (`EmptyWordIsDropped`, `RoundTripIff`). It reads a double-quoted word as section 2.2.3 of the POSIX.1-2017 Shell
  Command Language does if and only if each backslash in it escapes a quote, a backslash or an expansion byte; any
  other backslash is dropped (`DoubleQuotedBackslashIsDropped`, `DoubleQuotesIff`).
- A reconciliation of admission holds that fails has already compacted the slice in place, and can leave one hold
  twice; the slice is intact, and its operations distinct, if and only if no survivor stood after a pruned hold
  (`FailedReconcileDuplicates`, `FailedReconcileKeepsSliceIff`, `FailedReconcileDistinctIff`). The transaction then
  writes nothing back, so the durable holds stay distinct (`DurableHoldsStayDistinct`).
- A reuse receipt compares two fingerprints: a run publishes if and only if it exits 0 and the inputs have its key
  when they are checked again, so inputs edited and edited back during the run go unnoticed
  (`EditsBetweenFingerprintsEscape`, `PublishedIff`).
- The relief cooldown holds if and only if, whenever a process records an action, the attempts its start did not read
  are a cooldown old (`SpacedIffCareful`). A clock set back after a restart breaks that
  (`RolledBackClockBreaksCooldown`); a clock that steps back only within a process does not
  (`CooldownSurvivesRestarts`).
- An operation that opens in a class that is not listed is counted but reported nowhere
  (`UnlistedClassIsLost`, `OperationsConservedIff`).

## Model

| member | source | states |
|---|---|---|
| `WorkLedger.WorkEventLifecycleValidator.Add` | sessionpressure/workevent.go:692-776 | a row is accepted exactly when it is acceptable to its operation's lifecycle, which then moves; a refusal leaves every other operation as it was |
| `WorkLedger.AddTo` | sessionpressure/workevent.go:692-776 | the sequential, early-returning update of one lifecycle meets the acceptance condition and the new state |
| `WorkLedger.PartitionWorkEventLifecycle` | sessionpressure/workevent.go:811-841 | an operation fails iff validating its own subsequence alone fails; kept rows plus skipped events are all rows |
| `WorkLedger.ValidateWorkEventLifecycle` | sessionpressure/workevent.go:778-786 | the ledger passes iff every operation's own rows pass, however they interleave |
| `WorkLedger.KeptPasses` | sessionpressure/workevent.go:806-841 | dropping the failed operations leaves the others' rows unchanged, so the kept ledger passes |
| `WorkLifecycle.PassesIffLegal` | sessionpressure/workevent.go:692-776 | a history passes iff, field by field, it has one class and weight, repeats only overrides and reservations, keeps the listed phase order with no override after an end, alternates reserving and reacquiring, changes lease only when reacquiring, keeps its digests, and ends once but for a cleanup receipt or a late outcome |
| `WorkLifecycle.ValidIffWellFormed` | sessionpressure/workevent.go:692-776 | the same in the validator's own terms, with what its state says about the rows |
| `WorkLifecycle.StepFrom` | sessionpressure/workevent.go:692-776 | given well-formed rows, one more row is acceptable to the validator's state iff the longer history is well formed |
| `LateTerminals.NormalizeLateReconciliationTerminals` | sessionpressure/workevent.go:878-903 | the two loops drop exactly the expirations of recovered operations and count those operations |
| `LateTerminals.RecoveredIs` | sessionpressure/workevent.go:858-890 | an operation is recovered iff one of its rows is, field by field, the outcome of the lease that its latest earlier expiration cleaned up, at most five seconds later |
| `LateTerminals.LatePairIs` | sessionpressure/workevent.go:858-876 | in a passing operation an expiration followed by an outcome names the same lease and process, the outcome has an exit code and a digest, and it is the authority |
| `LateTerminals.StalePairIs` | sessionpressure/workevent.go:752-760 | in a passing operation an outcome followed by an expiration stays the authority, and the expiration is a reconciliation receipt |
| `LateTerminals.NormalizedOwn` | sessionpressure/workevent.go:878-903 | normalising a ledger normalises each operation's rows on their own |
| `LateTerminals.TerminalAgreement` | sessionpressure/workevent.go:752-773 | in every history the validator passes, the first terminal row left by the normaliser is the validator's authoritative terminal event |
| `LateTerminals.OneRealTerminal` | sessionpressure/workevent.go:752-773 | a passing operation has at most one real terminal and at most one expiration, and nothing but terminals after its first terminal |
| `WorkSummary.SummarizeWorkEvents` | sessionpressure/workevent.go:1206-1598 | every counter equals the number of operations of the normalised ledger whose own rows answer that counter's question |
| `WorkSummary.CountStep` | sessionpressure/workevent.go:1337-1523 | one row changes a count by exactly the change of its own operation's answer |
| `WorkSummary.StatsStep` | sessionpressure/workevent.go:1337-1343 | the in-place class counters step exactly as their per-operation meanings do |
| `WorkSummary.SignalsStep` | sessionpressure/workevent.go:1384-1411 | deferral signals follow each operation's first deferral and best evidence, through later reclassification |
| `WorkSummary.AttributedIs` | sessionpressure/workevent.go:1260-1278 | an operation is attributed iff CPU was its first deferral, by its first CPU-deferred row with both readings: active iff work used the CPU there, idle iff not, unavailable iff no row knew |
| `WorkSummary.ConditionedOfStep` | sessionpressure/workevent.go:1290-1320 | each first terminal with a runtime is sampled once as boundary, legacy, bad split or eligible, from the rows before it |
| `WorkSummary.StateWaits` | sessionpressure/workevent.go:1321-1336 | until the first terminal, the recorded wait is that of the latest start, falling back to the latest lease |
| `WorkConservation.AttributionsConserved` | sessionpressure/workevent.go:1260-1278 | on any ledger the three CPU attribution counters add up to the CPU-only deferrals |
| `WorkConservation.SamplesConserved` | sessionpressure/workevent.go:1290-1320 | on any ledger terminal-runtime samples are boundary plus legacy plus invalid plus eligible |
| `WorkConservation.EndingsConserved` | sessionpressure/workevent.go:1444-1521 | the five terminal counters of a class add up to the operations that ended in it |
| `WorkConservation.SummaryConserves` | sessionpressure/workevent.go:1524-1598 | with one listed class per operation, reported operations, and endings plus open operations, both equal the operation count |
| `WorkConservation.ValidLedgerConserves` | sessionpressure/workevent.go:1206-1598 | a ledger the validator passes, with listed classes, satisfies both conservation laws |
| `WorkConservation.OperationsConservedIff` | sessionpressure/workevent.go:1337-1343 | reported operations add up to the count iff every operation opened in a listed class |
| `WorkConservation.EndingsConservedIff` | sessionpressure/workevent.go:1524-1598 | endings plus open operations add up iff every ended operation ended in a listed class in which some operation opened |
| `WorkConservation.UnlistedClassIsLost` | sessionpressure/workevent.go:1337-1343 | an operation in an unlisted class is counted and reported nowhere |
| `WorkConservation.ExpiredOwnersCounted` | sessionpressure/workevent.go:1248-1251 | the expired-owner count is the number of operations with an expiration in the raw ledger, recovered races included once |
| `WorkConservation.SummaryFollowsValidator` | sessionpressure/workevent.go:1468-1521 | a passing operation is counted in the bucket and class of the validator's terminal event, or as open |
| `WorkConservation.OperationsKept` | sessionpressure/workevent.go:878-903 | normalising loses no operation |
| `WorkConservation.InterleavingIsInvisible` | sessionpressure/workevent.go:1337-1523 | two ledgers with the same rows per operation give the same counts |
| `DiskLedger.DiskWriteObserver.Sample` | sessionpressure/disk_write.go:627-653 | a sample flushes an hour of another time, then records its counter difference in its own hour |
| `DiskLedger.DiskWriteObserver.FlushHour` | sessionpressure/disk_write.go:1179-1196 | a flush appends the hour and tries to remove the checkpoint; if the append fails it tries to park the hour as the checkpoint |
| `DiskLedger.DiskWriteObserver.CheckpointHour` | sessionpressure/disk_write.go:1198-1207 | a clean shutdown parks the open hour |
| `DiskLedger.DiskWriteObserver.EnsureCurrentHour` | sessionpressure/disk_write.go:1104-1113 | an hour of another time is flushed before a new one opens |
| `DiskLedger.DiskWriteObserver.Restore` | sessionpressure/disk_write.go:329-429 | a restart resumes from the newest record and the checkpoint that is not superseded |
| `DiskLedger.CheckpointSuperseded` | sessionpressure/disk_write_store.go:253-265 | a checkpoint is superseded iff some record of its hour is at least as complete |
| `DiskLedger.BytesAreConserved` | sessionpressure/disk_write.go:627-653 | over every run of samples, flushes, shutdowns, crashes and restores, persisted plus unflushed bytes equal the counter's distance from the anchor |
| `DiskLedger.SampleConserves` | sessionpressure/disk_write.go:1104-1131 | a sample adds exactly its distance from the previous one, across an hour boundary or not |
| `DiskSplit.BytesAreSplit` | sessionpressure/disk_write.go:1115-1131 | over every steady run, for each hour and for all, scored bytes, gap bytes and scored samples are the counter differences of consecutive surviving samples inside the sampling window, those outside it, and the number of the former; the store alone holds those of the durable samples |
| `DiskSplit.RecordedAdds` | sessionpressure/disk_write.go:1115-1131 | one sample adds its difference to the scored bytes of its hour if it is in the window, and to the gap bytes otherwise |
| `DiskSplit.AllSurvive` | sessionpressure/disk_write.go:627-653 | without restarts every sample survives, so the split is over the samples themselves |
| `DiskLedger.RestartConserves` | sessionpressure/disk_write.go:1179-1207 | a restart, clean or not, keeps the conservation invariant and never moves the previous sample forward |
| `DiskLedger.CutOffFlushKeepsDurable` | sessionpressure/disk_write_store.go:253-265 | a crash between the append of an hour and the removal of its checkpoint leaves the durable total that a completed removal leaves, with the hour counted once |
| `DiskLedger.CleanRestartLosesNothing` | sessionpressure/disk_write.go:1198-1207 | a clean restart whose checkpoint is written resumes at the very sample it left, with every accounted byte durable |
| `DiskLedger.ShutdownIsComplete` | sessionpressure/disk_write_store.go:301-322 | after any run, a clean shutdown leaves exactly the counter's distance from the anchor in the store |
| `DiskLedger.ConservedFromFirstIff` | sessionpressure/disk_write.go:329-429 | the total is measured from the first counter iff no sample after a restart on an empty store read a different one |
| `DiskLedger.BareCrashLosesBytes` | sessionpressure/disk_write.go:1198-1207 | a crash before anything is durable loses what was written before it |
| `DiskLedger.FailedAppendConservesIff` | sessionpressure/disk_write.go:1179-1196 | after a failed and then a successful flush, the bytes are conserved iff the hour that failed had no traffic, whether or not it was parked |
| `DiskLedger.FailedAppendLosesHour` | sessionpressure/disk_write.go:1179-1196 | a run of four samples that loses the fifty bytes of its first hour without any crash |
| `DiskHistogram.DiskHistogram.Add` | sessionpressure/disk_write.go:215-234 | adding in place gives the histogram with one more value, saturating the sum |
| `DiskHistogram.DiskHistogram.Merge` | sessionpressure/disk_write.go:236-255 | merging a record in place gives the merged histogram |
| `DiskHistogram.DiskHistogram.P99Value` | sessionpressure/disk_write.go:257-277 | the scan returns the histogram's p99 |
| `DiskHistogram.DiskHistogram.ToSparseRecord` | sessionpressure/disk_write_store.go:46-54 | the record lists the non-empty buckets |
| `DiskHistogram.HistogramFromRecord` | sessionpressure/disk_write_store.go:56-60 | a fresh histogram merged with the record |
| `DiskHistogram.AddExtendsIndex` | sessionpressure/disk_write.go:215-234 | the histogram is an index of its samples: counts, saturating sum and time span |
| `DiskHistogram.MergeJoinsIndexes` | sessionpressure/disk_write.go:236-255 | merging the record of one index into another gives the index of all samples |
| `DiskHistogram.IndexIgnoresOrder` | sessionpressure/disk_write.go:206-255 | the order of samples does not matter, saturation included |
| `DiskHistogram.RestoredIsIndex` | sessionpressure/disk_write_store.go:46-60 | any split of the samples into records, merged back, gives the same histogram |
| `DiskHistogram.RecordRoundTrip` | sessionpressure/disk_write_store.go:46-60 | reading back a histogram's record gives the histogram |
| `DiskHistogram.P99Accuracy` | sessionpressure/disk_write.go:257-277 | with v the exact nearest-rank p99 sample, the reported p99 is 0 iff v is 0, and otherwise between v and 2v-1 |
| `DiskHistogram.P99SampleExists` | sessionpressure/disk_write.go:257-277 | a non-empty set of samples has exactly one p99 sample |
| `DiskAlerts.AlertObserver.AlertLocked` | sessionpressure/disk_write.go:1054-1093 | from the state, window and gap flag of a summary: an alert or a close takes effect in memory only after it was saved |
| `DiskAlerts.AlertObserver.Restore` | sessionpressure/disk_write.go:333-344 | a restart loads the saved state, or distrusts it when the read fails |
| `DiskAlerts.MemoryNeverRunsAhead` | sessionpressure/disk_write.go:1054-1102 | over every run, in-memory alert state is what is persisted |
| `DiskAlerts.AlertIff` | sessionpressure/disk_write.go:1054-1093 | after any run a sample alerts iff its state is high, notifications are on, the saved state was readable, no incident is open, fewer than four alerts are saved for its day, and its saves succeed |
| `DiskAlerts.CloseIff` | sessionpressure/disk_write.go:1064-1071 | after any run a sample closes the incident iff one is open, its state is normal or measured learning without a gap, and its saves succeed |
| `DiskAlerts.AlertsAlternateWithCloses` | sessionpressure/disk_write.go:1054-1102 | between two alerts an incident close was durably saved |
| `DiskAlerts.FourAlertsPerVisit` | sessionpressure/disk_write.go:1054-1102 | at most four alerts per visit to a day, whatever is saved, lost or restarted |
| `DiskAlerts.AlertCapSurvivesRestarts` | sessionpressure/disk_write_store.go:127-168 | with non-decreasing days, at most four alerts per day across restarts and failed saves |
| `DiskAlerts.DayRollbackResetsCap` | sessionpressure/disk_write.go:1054-1093 | a run of four incidents, a glance at another day and a fifth incident emits five alerts on one day |
| `SwapThrash.SwapThrashLatch.Advance` | sessionpressure/swap_io.go:206-264 | one sample moves the latch and emits at most one transition |
| `SwapThrash.SwapThrashLatch.Observe` | sessionpressure/swap_io.go:175-201 | the hysteretic counters and the latched flag after one sample |
| `SwapThrash.SwapThrashLatch.Attribute` | sessionpressure/swap_io.go:269-291 | the cause, the sticky proof and the derate after one sample of an episode |
| `SwapThrash.SwapThrashLatch.SetExternal` | sessionpressure/swap_io.go:293-301 | external time is accumulated when the derate resumes |
| `SwapThrash.SwapThrashLatch.Resume` | sessionpressure/swap_io.go:159-173 | a restart resumes a fresh latched snapshot and ignores a stale one |
| `SwapThrashEpisode.ResumedIff` | sessionpressure/swap_io.go:159-173 | a restart is latched iff the published snapshot is available, latched and aged between -5 s and 180 s; it then has the published cause and start, and the proof and lifted derate iff the cause is external |
| `SwapThrashEpisode.ResumedVerdict` | sessionpressure/swap_io.go:175-201 | a resumed latch is latched iff no adjacent calm pair and no dark sample has come, or a new hot pair stands |
| `SwapThrashEpisode.EpisodeSurvivesRestart` | sessionpressure/swap_io.go:156-173 | an episode published by one process and resumed in time by the next keeps its cause, start and derate, and lasts until an adjacent calm pair or a dark sample |
| `SwapThrashEpisode.ReadingIs` | sessionpressure/swap_io.go:320-339 | the band of a sample, below-share work and the release window, from the readings and the policy |
| `SwapThrashEpisode.CauseIs` | sessionpressure/swap_io.go:269-291 | the cause is agents iff leased work is at its share, external iff the derate is lifted, unattributed otherwise |
| `SwapThrashEpisode.StartIs` | sessionpressure/swap_io.go:211-218 | an episode's start is the sample that latched |
| `SwapThrashEpisode.RowIffChange` | sessionpressure/swap_io.go:247-264 | a latch that is not resumed writes a row iff what the log should say changes |
| `SwapThrashEpisode.RowNamesEpisode` | sessionpressure/swap_io.go:303-307 | every row but a release names the latch's cause and start |
| `SwapThrash.LatchedIffStormStands` | sessionpressure/swap_io.go:175-201 | latched iff the latest adjacent hot pair is newer than every adjacent calm pair and every unavailable sample |
| `SwapThrash.ProcessLogExact` | sessionpressure/swap_io.go:206-264 | replaying the emitted transitions gives (latched, external) after every sample, resumed runs and unavailable counters included |
| `SwapThrash.DurableLogExactness` | sessionpressure/swap_io.go:159-173 | across restarts the replay is exact iff this process wrote a row or the log read released when it started |
| `SwapThrash.StaleRestartLeavesLogLatched` | sessionpressure/swap_io.go:159-173 | a restart on stale evidence leaves the log reading latched |
| `SwapThrash.ReleaseReportsExternalTime` | sessionpressure/swap_io.go:214-246 | the released row reports the summed external intervals, within [0, episode length] |
| `SwapThrash.EpisodeTimeKept` | sessionpressure/swap_io.go:293-301 | at every sample the accumulated external time equals the integral of the external intervals |
| `SwapThrash.ProvenIffEvidence` | sessionpressure/swap_io.go:269-291 | proven iff the episode inherited a proof or held a full window of below-share samples |
| `SwapThrash.ExternalIffBelowAndProven` | sessionpressure/swap_io.go:269-301 | the derate is lifted iff the window is positive, leased work is below its share now, and there is evidence |
| `SwapThrash.InheritedProofIsRecentRelease` | sessionpressure/swap_io.go:214-246 | the proof an episode can inherit is that of the last proven release, and only that |
| `AdmissionGate.WorkState.ObserveAdmissionLatch` | sessionpressure/workadmissionhold.go:236-299 | one poll folds into the shared latch under the sample interval |
| `AdmissionGate.UncountedPollsAreInvisible` | sessionpressure/workadmissionhold.go:236-299 | deleting every uncounted poll leaves latch, counters and both times unchanged |
| `AdmissionGate.ObserverCountIndependence` | sessionpressure/workadmissionhold.go:65-73 | crowds of pollers with the same counted polls see the same latch |
| `AdmissionGate.CountersStayBounded` | sessionpressure/workadmissionhold.go:236-299 | unlatched implies red below block, latched implies recovery below release |
| `AdmissionVerdict.LatchedIffBlocked` | sessionpressure/workadmissionhold.go:253-283 | latched iff the counted red polls since the last calming or stale one once reached the block limit, and since then no run of counted calming polls reached the release limit and no poll came too late |
| `AdmissionVerdict.RedIsCount` | sessionpressure/workadmissionhold.go:255-278 | the red counter is the number of counted red polls since the last counted calming or stale one; warning-band polls leave it |
| `AdmissionVerdict.RecoveryIsCount` | sessionpressure/workadmissionhold.go:263-278 | while latched the recovery counter is the number of counted calming polls since the last other one |
| `AdmissionVerdict.LatchedAtIs` | sessionpressure/workadmissionhold.go:258-262 | the latch time is that of the poll that latched |
| `AdmissionGate.LatchingTakesTime` | sessionpressure/workadmissionhold.go:236-299 | latching takes at least block-1 intervals from a red of the same count |
| `AdmissionGate.ReleaseTakesTime` | sessionpressure/workadmissionhold.go:236-299 | unless it goes stale, release takes the required intervals after the last counted non-recovered poll |
| `AdmissionGate.WorkState.HoldAdmission` | sessionpressure/workadmissionhold.go:169-210 | a valid request records or refreshes one hold and nothing else; an invalid one changes nothing |
| `AdmissionGate.WorkState.ReleaseAdmission` | sessionpressure/workadmissionhold.go:212-230 | releasing removes exactly the operation's hold, in place |
| `AdmissionGate.WorkState.ReconcileAdmissionHolds` | sessionpressure/workadmissionhold.go:103-142 | succeeds iff all records are valid and distinct, keeping exactly the owned holds; a failure leaves the compacted prefix over the old slice |
| `AdmissionGate.CompactOwned` | sessionpressure/workadmissionhold.go:103-142 | the in-place compaction keeps the owned holds in order, and stops at the first bad record |
| `AdmissionGate.ReconcileIs` | sessionpressure/workadmissionhold.go:83-142 | what a valid record and an owned hold are, field by field |
| `AdmissionGate.FailedReconcileKeepsSliceIff` | sessionpressure/workadmissionhold.go:103-142 | a failed reconciliation leaves the slice intact iff no survivor followed a pruned hold |
| `AdmissionGate.HoldsStayDistinct` | sessionpressure/workadmissionhold.go:103-230 | recording, refreshing, releasing and pruning keep one hold per operation |
| `AdmissionGate.FailedReconcileDistinctIff` | sessionpressure/workadmissionhold.go:103-142 | a failed reconciliation leaves two holds for one operation iff a survivor followed a pruned hold |
| `AdmissionGate.FailedReconcileDuplicates` | sessionpressure/workadmissionhold.go:103-142 | a dead, an owned and an invalid hold: the owned one is left twice |
| `AdmissionGate.DurableHoldsStayDistinct` | sessionpressure/worklease.go:1398-1451 | over every run of transactions no operation has two durable holds, since a failed reconciliation writes nothing back |
| `Singleflight.OneRunPerKey` | sessionpressure/workbatch.go:447-531 | for any number of processes and edits, at most one process is past the lock of a key |
| `Singleflight.ReceiptsAreEarned` | sessionpressure/workbatch.go:475-526 | every receipt was published by a process that, holding the lock throughout, found its inputs to have exactly this key, ran with exit 0, and found them to have it again |
| `Singleflight.HitsAreEarned` | sessionpressure/workbatch.go:475-498 | every reuse follows a fingerprint under the still-held lock that gave exactly this key, and returns an unexpired, earned receipt for it |
| `Singleflight.LookupReusesIff` | sessionpressure/workbatch.go:485-498 | a lookup reuses exactly the unexpired receipts of its key, without a run; otherwise it starts one, still holding the lock |
| `Singleflight.RereadRetriesIff` | sessionpressure/workbatch.go:475-484 | a process goes on iff its inputs still have the key it locked; otherwise it unlocks and retries, but for its third attempt |
| `Singleflight.UndisturbedReuse` | sessionpressure/workbatch.go:447-498 | undisturbed and with a free lock, a process gets past its first attempt and reuses a usable receipt |
| `Singleflight.AtMostThreeAttempts` | sessionpressure/workbatch.go:447-531 | the loop makes at most three attempts |
| `Singleflight.TrailOf` | sessionpressure/workbatch.go:475-522 | a process past a gate re-read its key under the lock and has held that lock without a break; past each later gate it missed a receipt, saw exit 0, or read the same key again |
| `Singleflight.PublishedIff` | sessionpressure/workbatch.go:509-526 | the end of a run leaves a receipt for its key iff it exits 0 and the inputs have that key when checked again |
| `Singleflight.EditsBetweenFingerprintsEscape` | sessionpressure/workbatch.go:509-522 | a run in which the inputs change and change back while the batch runs still earns a receipt |
| `Framing.Buffer.WriteFrame` | sessionpressure/workbatch.go:1037-1040 | appends one length-prefixed frame |
| `Framing.FramesAreInjective` | sessionpressure/workbatch.go:1037-1040 | concatenated frames are uniquely decodable |
| `Framing.FrameIsPrefixFree` | sessionpressure/work_express.go:1201-1209 | the first frame of a stream is determined by its bytes |
| `Framing.WorkBatchEnvironmentMaterial` | sessionpressure/workbatch.go:1024-1035 | the loop writes (key, present, value) triples |
| `Framing.VariablesDetermineEnvironment` | sessionpressure/workbatch.go:1024-1035 | the triples determine the declared keys, and presence and value of each |
| `Framing.WorkBatchKeyMaterial` | sessionpressure/workbatch.go:800-826 | the six frames of the key |
| `Framing.KeyMaterialDeterminesInputs` | sessionpressure/workbatch.go:800-826 | before hashing, the key material determines every input, nested environment included |
| `ProcessForest.BuildAgentTrees` | sessionpressure/sampler.go:1207-1295 | one tree per root, pairwise disjoint, each exactly its root's descendants, for any parent links |
| `ProcessForest.HasAgentAncestor` | sessionpressure/sampler.go:1227-1246 | the cycle-safe climb finds an agent above a process iff there is one |
| `ProcessForest.Walk` | sessionpressure/sampler.go:1264-1283 | the walk terminates, visits each process once and lists every parent before its children |
| `ProcessForest.WalkIsSubtree` | sessionpressure/sampler.go:1264-1283 | a walk from a root lists exactly its descendants |
| `ProcessForest.TreesAreDisjoint` | sessionpressure/sampler.go:1207-1295 | no process is below two roots |
| `ProcessForest.SignalTreePIDs` | sessionpressure/monitor.go:145-164 | signals in reverse order and continues past failures |
| `ProcessForest.ChildrenSignalledFirst` | sessionpressure/monitor.go:145-164 | every process of a tree is signalled before its parent |
| `WorkAttribution.ClosestWorkRootClass` | sessionpressure/sampler.go:861-873 | the fuel-bounded walk returns the nearest lease above a process whenever one exists |
| `WorkAttribution.ChargedOnce` | sessionpressure/sampler.go:861-873 | a process is charged to one class at most |
| `WorkAttribution.AttributeCoordinatedWork` | sessionpressure/sampler.go:790-859 | every class row is exact and every lease counted once; lease totals equal the sums over rows iff every leased class is listed, and then process and RSS totals do too; otherwise they differ by what unlisted classes are charged |
| `WorkAttribution.RegisterLeases` | sessionpressure/sampler.go:802-820 | each lease is counted once in its class and once as attributed or not |
| `Relief.CriticalIsMemoryOnly` | sessionpressure/types.go:564-660 | CPU, swap-out and the thrash latch never create critical and never hide a memory level |
| `Relief.MemoryLevelIs` | sessionpressure/types.go:564-660 | the memory level is critical, red or warning iff free memory, the agents' total, the largest tree, or corroborated swap use reach the bounds of that level |
| `Relief.FullLevelIs` | sessionpressure/types.go:564-660 | with CPU and swap-out the level is red iff memory is or CPU reaches its red bound, and a warning also by swap-out or the latch; critical stays memory's alone |
| `Relief.SwapOnlyCorroborates` | sessionpressure/types.go:564-660 | swap use raises a live memory level by at most one rung and nothing by itself |
| `Relief.AnnotateQuiescence` | sessionpressure/monitor.go:879-896 | streaks grow for quiet trees, reset for busy ones, and vanish for absent ones |
| `Relief.RestreakedIs` | sessionpressure/monitor.go:879-896 | the streak map holds exactly the trees of the sample, each with its next streak |
| `Relief.SelectReliefCandidate` | sessionpressure/monitor.go:837-869 | the eligible tree that no eligible tree precedes, or none iff none is eligible |
| `Relief.Monitor.Pass` | sessionpressure/monitor.go:536-612 | one pass of the loop: counts, streaks, rejections, the submitted tree and the recorded action |
| `Relief.Monitor.MaybeRelieve` | sessionpressure/monitor.go:748-795 | a tree is submitted only past the role, policy, level, budget, baseline, inventory, sustain, cooldown and retry gates, and then it is the best candidate |
| `Relief.Monitor.constructor` | sessionpressure/monitor.go:497-514 | a process start replays the newest rows, by time, of a bounded window of the action ledger |
| `Relief.CountersAlwaysSound` | sessionpressure/monitor.go:515-573 | the level and quiescence counters never claim more than the samples of this process show |
| `Relief.SubmissionIsSustained` | sessionpressure/monitor.go:748-795 | a submitted tree was present, old enough and CPU-quiet, and memory alone was critical, in each of the last sustained samples |
| `ReliefActs.SubmissionIff` | sessionpressure/monitor.go:748-795 | a sample submits a tree iff every gate is open, the last sustained samples were critical on memory alone, and some tree was present, old enough and idle in each of them, is not busy and was not rejected |
| `ReliefActs.CountersAlwaysExact` | sessionpressure/monitor.go:515-573 | level and quiescence counters are exactly the number of latest samples that show it |
| `ReliefActs.SubmittedComesFirst` | sessionpressure/monitor.go:853-868 | the submitted tree precedes every other candidate: hook-ready, then larger, then idler, then lower PID |
| `ReliefActs.RejectedIsNotRetried` | sessionpressure/monitor.go:600-612 | a tree whose submission was rejected is not submitted again while the host stays critical |
| `ReliefActs.RejectionCools` | sessionpressure/monitor.go:600-612 | no submission comes within three minutes of a rejected one while the host stays critical |
| `ReliefActs.RestartKnowsRejections` | sessionpressure/monitor.go:504-514 | a restart takes over exactly the rejected trees among the actions it reads |
| `ReliefCooldown.RestartMissesNothingCooling` | sessionpressure/telemetry.go:378-406 | a start no earlier than the recorded actions, whose window is not both crowded and out of order, misses no attempt that still cools |
| `ReliefCooldown.SpacedIffCareful` | sessionpressure/monitor.go:497-514 | over every run, whatever the clock does, nothing is recorded within a cooldown of an attempt iff missed attempts are a cooldown old whenever a process records |
| `ReliefCooldown.PassSpacedIff` | sessionpressure/monitor.go:600-612 | one pass keeps the ledger spaced iff it records nothing or every attempt its process missed is a cooldown old |
| `ReliefCooldown.CooldownSurvivesRestarts` | sessionpressure/monitor.go:497-514 | the ledger stays spaced across restarts if no sample precedes its own process's start and no start precedes a recorded action or finds a crowded window out of order |
| `ReliefCooldown.MonotoneIsSober` | sessionpressure/monitor.go:497-514 | a clock that never steps back meets those conditions, however crowded the window |
| `ReliefCooldown.RolledBackClockBreaksCooldown` | sessionpressure/monitor.go:497-514 | a run with a clock set back after a restart records two attempts a second apart |
| `ShellTokenizer.TokenizeSafeShellSequence` | sessionpressure/work_express.go:307-404 | the byte loop returns the commands of the input, or rejects it |
| `ShellQuoting.RoundTrip` | sessionpressure/work_express.go:307-404 | words mixed from bare, single-quoted, double-quoted and backslash-escaped pieces, separated by any blanks and joined with `&&`, `;` or newline, are read back exactly |
| `ShellQuoting.RoundTripIff` | sessionpressure/work_express.go:307-404 | that round trip holds iff no command and no word is empty |
| `ShellQuoting.DoubleQuotesIff` | sessionpressure/work_express.go:348-360 | a double-quoted word is read as POSIX reads it iff it is not empty and each backslash in it escapes a quote, a backslash or an expansion byte |
| `ShellQuoting.DoubleQuotedBackslashIsDropped` | sessionpressure/work_express.go:348-360 | a backslash before an ordinary byte in double quotes disappears |
| `ShellTokenizer.AcceptedIsLiteral` | sessionpressure/work_express.go:307-404 | an accepted input ends outside quotes, has none of the listed bytes outside quotes and escapes, no expansion byte in double quotes, no lone `&`, and no empty command or word |
| `ShellQuoting.EmptyWordIsDropped` | sessionpressure/work_express.go:307-404 | an empty quoted word disappears |

## Left out

- The weighted coordinator, waiter selection, `RunWorkCommand` and the class list itself: the class list is a parameter that lists each class once.
- File, JSON, lock, clock and exec plumbing; atomic rename, lock exclusion and injective digests are taken as given.
- The row sort of the event reader, which is not transitive across operations at equal timestamps; row order is an input.
- SummarizeWorkEvents: leaves out the signals a single branch feeds (reclassifications, overrides, bypasses, cache, singleflight, warning decisions, idle parking, queue CPU evidence, long waits, interrupts), the averages and p95 values, calibration cohorts, and the swap-derate, wait and lease-CPU reports; they would only add easy counters.
- Failure reasons of the validator and their bounded, sorted list; only their number is modelled.
- Sample: models the delta, the hour and its record; the disk classifier, its windows, baselines, writers and executables are left out, and hour records carry times, the device counter and scored and gap bytes.
- Retention pruning of ledgers, receipts, records and actions; in the singleflight model any receipt may disappear at any time.
- Native samplers, launchd, artifact promotion, SMART, session-state files, argv classifiers, doctor and health reports, display text, the Swift helper.
- P99Value: the rank is computed exactly, where the source rounds a floating-point product up.
- AttributeCoordinatedWork: CPU attribution is not modelled.
- BuildAgentTrees: RSS and CPU sums of a tree, their rounding and the final sort by RSS are left out.
- WorkBatchEnvironmentMaterial: takes the trimmed, distinct, sorted key list with PATH in it as given.
- Restore: histograms, volume points and the retention cut-off are left out.
- Pass: the signaller's own revalidation, resource cleanup and telemetry writes are left out; one "rejects" input says what the revalidation decides.
- BytesAreConserved: assumes successful appends, one device identity, a non-decreasing counter and increasing sample times.
- CooldownSurvivesRestarts: assumes successful action appends; the exact clock condition is SpacedIffCareful.
- SummaryConserves: sums the classes actually reported; a listed class in which nothing opened reports nothing even if something ended in it.
