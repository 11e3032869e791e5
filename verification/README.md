# A model of the QU.I.R.K. scanner

QU.I.R.K. scans networks and services for cryptographic weaknesses. A scan is long and may be
killed at any point, so it leaves checkpoints and cached results behind and can be resumed; its
findings become a readiness score between 0 and 100. This project models the parts of it whose
correctness is a statement about many runs, many inputs or several functions together.

**The resumable scan.** `Discovery` is a machine over durable state (the batch cache and the log of
checkpoint rows) and volatile state (the accumulators of one process). Its steps are the stretches
of the discovery loop between two durable writes; its events are starting a process, one step, a
kill, a kill in the middle of a cache write, and the expiry of cached batches. `DiscoveryProofs`
proves what every history keeps and that resuming is equivalent to never having been interrupted.
`DiscoveryAnswers` and `DiscoveryDisk` say what a run returns and what it leaves on the disk in the
answers of the two nmap calls alone. `DiscoveryLoop` is the loop itself, with its accumulators and
its store, proved to be a sequence of steps of that machine and to return and leave just that.
`StageChain` is the same for the chain of stages after discovery: its log holds every attempted
write and whether it reached the disk, because flushes and checkpoint writes fail silently.
`StageProofs`, `StagePrefix` and `StageResumes` prove what holds over all its histories and exactly
when a silent failure costs something; `StagePipeline` is the code as it is run, with every row it
writes. `PhaseRecords` covers the coverage table, `EndpointRows` the endpoint table, whose rows are
flushed early and merged again at the end, and `EndpointLives` follows that table across processes
that die. `StageRows` joins the two: it follows an endpoint of each list along the stage chain over
all histories, whatever each process finds again; `StageTable` shows that the rows it counts are
those of the table; and `StageTargets` says what a resume can still find, having loaded the
inventory instead of fingerprinting.

**The readiness score.** `ReadinessScore` is the published closed form over real arithmetic: a
saturating square-root curve, per-domain clamps, rounding half to even twice (roundTiesToEven,
section 4.3.1 of IEEE 754-2019), an average over the assessed domains and a squeeze by the lowest
ceiling. The curve is any non-negative function `c` with `c(n) * c(n) * 40 == min(n, 40)`;
`ScoreProofs.CurveUnique` shows that there is only one. `ScoreLoops` holds the accumulating loops
and proves that they compute it; `ScoreProofs`, `ScoreEdits` and `ScoreTheorems` prove bounds, bands
and monotonicity through all the layers, for edits of the evidence dictionary itself. `ScoreMeaning`
spells the whole report out: every field, weight, anchor and ceiling by name and number, and each
score as the nearest integer to what it stands for.

**Redaction.** `Redaction` models the recursive redaction of a configuration tree and proves that
its output depends on a credential only through whether it is set, at any nesting; `RedactionEdits`
proves what one changed credential shows, and `RedactionLeaves` which leaves are shown in the clear;
`RedactionMeaning` says which text stands for which status, and which names are credentials.

**Parsers, printers and queries.** `VaultNotes` and `VaultSync` (frontmatter notes and the pass that
keeps them in step with the documents), `UatCorpus` and `UatLedger` (a one-pass scanner against its
declarative meaning, and the ledger arithmetic), `LatestRows` (join-and-dedupe queries against a
plain maximum), `HostPort` (broker targets and the inputs built from them), `CiVerdict` (the
fail-closed verdict on continuous integration) and `Migration` (additive schema migration).

The modules `VaultMeaning`, `UatMeaning`, `LedgerMeaning`, `HostMeaning` and `MigrationMeaning`
state what these compute without the functions that compute it: in places of a text or a list,
literal words and numbers, and quantifiers. `LatestRows` and `CiVerdict` hold such statements
themselves.

`Traces` has histories and repeated steps for all the machines, `Sequences` what it is to filter a
list and to cut one up, `Text` the string operations, and `Wrappers` optional and failing values.

## Findings

Where a property is not true of the code without a condition, the condition is stated and proved:

- A stage's flush and its checkpoint are two best-effort writes: a flush that rolls back is followed
  by a checkpoint all the same, and a resume then skips the stage although none of its rows was
  flushed (`StageResumes.RolledBackFlushIsSkipped` names such a history). While every process loads
  its checkpoints, what a checkpointed stage's flush lists was committed before that checkpoint
  exactly when the flush right before it committed, or an earlier one did that was cut off from its
  own checkpoint (`StageProofs.BackedExactlyWhen`; inventory and reports excluded).
- The stages' flushes do not list everything: the data-at-rest flush leaves out the code-signing
  endpoints it has just built (run_scan.py:3946, 4003-4004), and no flush lists error rows. These
  survive if and only if the final persist of a process that found them committed
  (`StageRows.UnflushedSurvivesExactlyWhen`). A process that dies after the data-at-rest checkpoint
  loses them although flush and checkpoint arrived, and the resume finishes without them
  (`StageRows.CheckpointedRowsAreLost` names the history).
- The final persist does not list everything either: it leaves out the fuzz endpoints
  (run_scan.py:3447, 4200-4218), which therefore survive if and only if a flush of the api stage
  committed in a process that found them (`StageRows.FuzzSurvivesExactlyWhen`;
  `EndpointRows.RolledBackFuzzIsLost` is an input on which they do not). In general an object owns a
  row in the end if and only if the final persist lists it, it was reloaded, or a flush of it
  committed (`EndpointRows.OwnsRowExactlyWhen`), and that row holds its final values if and only if it
  is listed or was not changed after it was last saved (`EndpointRows.FinalValuesExactlyWhen`;
  `EndpointRows.LaterChangeIsLost` is an input on which it does not).
- The checkpointed stages are a prefix of the chain if and only if no lost checkpoint, never made
  good, was overtaken by that of a later stage (`StagePrefix.PrefixExactlyWhen`; for one run,
  `StagePrefix.RunKeepsPrefixExactlyWhen`). One lost write can be enough
  (`StagePrefix.LostWriteBreaksPrefix` names the history).
- The inventory's rows do not hold the TLS and SSH targets that fingerprinting finds; a resume that
  skips the inventory rebuilds them from TLS and SSH rows of the table (run_scan.py:2700-2711). A
  process that dies between the inventory checkpoint and the flush of the tls stage leaves no such
  row: no write was lost, and yet the resume finishes with every stage checkpointed and neither TLS
  nor SSH rows nor what is drawn from a TLS target alone, such as post-quantum, e-mail, broker and
  TLS-derived code-signing rows (`StageTargets.TargetsAreLost` names the history, and
  `StageTargets.TargetsStayLost` covers every later resume). A target can be rebuilt if and only if a
  process that did the fingerprinting itself saved a TLS row of it, an SSH row for an SSH target
  (`StageTargets.TargetSurvivesExactlyWhen`).
- While every process loads its checkpoints, one flushes a stage again exactly when every earlier
  flush of it was cut off, the process having died or the checkpoint having been lost in between
  (`StageResumes.FlushedAgainExactlyWhen`; inventory and reports excluded). Re-run objects carry no key, so the
  findings of a stage get second rows exactly when one process saved them, was cut off before its
  checkpoint of the stage, and a later one found and saved them again (`StageRows.SecondRowExactlyWhen`); save
  by save, exactly when a committed session merges an object without a key for a finding that has a
  row by then (`EndpointLives.NoFindingTwiceExactlyWhen`).
- An ended scan goes on being listed as resumable if and only if some row of it reached the table and
  it found nothing to scan, or its reports checkpoint was lost, and no earlier process had written
  one (`StageResumes.EndedRunIsListedExactlyWhen`).
- The final persist does not write row keys back: repeating it would duplicate rows exactly when
  some object it lists has no key (`EndpointRows.PersistAddsNothingIffKeyed`).
- The latest-row queries do not repeat their filter in the outer join. A row returned for a key is
  its greatest successful row if and only if the highest-id row at that time is a successful one
  (`LatestRows.ReturnsGreatestExactlyWhen`, with an example in which it is not).
- Parsing a rendered note gives back the note if and only if there is a frontmatter and none of its
  lines is a fence (`VaultNotes.RoundTrip`). A line that ends in one of the rarer line breaks is
  followed by an empty line after a rewrite; the body and the declared source survive.
- A host and port are read back if and only if the host is not empty, has no white space at its ends
  and, where brackets are written, holds no closing bracket (`HostPort.RoundTrip`).
- The fields of the configuration object itself are not classified by name: a text is shown there
  even under a name that is a credential in every section
  (`RedactionLeaves.TopLevelNameIsNotClassified`). Outside sets, whose members have no place in the
  output, a leaf whose scrubbed text does not read like a marker is shown in the clear if and only if
  no credential position is on its path (`RedactionLeaves.LeafIsShownExactlyWhen`).
- A column list is added as a whole if and only if no missing column is in it twice
  (`Migration.AcceptedExactlyWhen`); otherwise the additions stop there.
- A migration reads its columns through an inspector that caches each table. Reports therefore
  depend only on the schema the run started with, which is why a dry run reports the same.

## Model

| member | source | states |
|---|---|---|
| DiscoveryProofs.BatchesFlatten | quirk/scanner/target_expander.py:89-103 | slicing the host expansion loses and duplicates nothing |
| DiscoveryProofs.AnnouncedTotal | run_scan.py:2411-2415 | the batch total announced in advance is the number of batches run, ceil(total/M); for no host one is announced and none is run |
| DiscoveryProofs.EveryHostInOneBatch | run_scan.py:2436-2437 | every host lies in exactly one batch |
| DiscoveryProofs.PrepassPartition | run_scan.py:2504-2541 | a host is swept or gets an advisory, never both; one the pre-pass left out, or any when it failed, is swept |
| DiscoveryProofs.CheckpointSafety | run_scan.py:2543-2601 | over all histories, with any prober and any lost checkpoint writes: no batch checkpoint before its payload, none in this run for a batch whose sweep failed in it |
| DiscoveryProofs.DiscoveryConservation | run_scan.py:2411-2643 | when the loop ends each host was swept, has an advisory, lies in a failed batch or was restored under an earlier checkpoint; hosts_checked is the total; the stage row, if it arrived, is partial exactly when this run has failed batches |
| DiscoveryProofs.PartialExactly | run_scan.py:1055-1077 | with a deterministic prober a run has failed batches, and its stage row if it arrived is partial, exactly when the sweep of some batch fails |
| DiscoveryProofs.HistoryFaithful | run_scan.py:2445-2601 | every cached payload and every accumulator of every history holds what the prober yields |
| DiscoveryProofs.ResumeEquivalence | run_scan.py:2436-2601 | any run that ends, after any crashes, torn writes, expiries and lost checkpoints, has the ports, liveness rows and failure rows of one uninterrupted run |
| DiscoveryProofs.ResumeCompletes | run_scan.py:2436-2643 | after any history, a resume that is left alone ends within a stated number of steps, with that outcome |
| DiscoveryLoop.ScanStore.SaveCache | quirk/engine/cache.py:94-101 | the payload replaces the batch's cache entry, and nothing else changes |
| DiscoveryLoop.ScanStore.WriteCheckpoint | quirk/cli/job_progress.py:117-150 | one more checkpoint row if the write arrives, nothing if it fails, the cache untouched |
| DiscoveryLoop.CheckLiveness | run_scan.py:2504-2541 | the loop over the batch computes the sweep targets and the advisories |
| DiscoveryLoop.SweepHosts | run_scan.py:2543-2601 | the sweep, its accumulators and its durable record are steps of the machine |
| DiscoveryLoop.ScanBatch | run_scan.py:2445-2609 | one loop iteration, restored or probed, is a sequence of steps |
| DiscoveryLoop.RunBatches | run_scan.py:2411-2643 | the whole loop, from first batch to stage checkpoint, is a run of the machine |
| DiscoveryLoop.DiscoverBatches | run_scan.py:2436-2643 | whatever a store left by earlier runs holds: the ports are batch by batch those that sweeping the responsive hosts returns, with a failure row where it raises and an advisory for every host said to be down; every host is accounted for; and the log, the cache and the restored and swept batches are exactly those that the checkpoints loaded and the writes that arrive make them |
| DiscoveryAnswers.TargetsAreTheRest | run_scan.py:2504-2541 | the hosts swept are those of the batch that the pre-pass did not call down, and the advisories are for those it did, in order; if it raised, all and none |
| DiscoveryAnswers.ResultsAreTheAnswers | run_scan.py:2436-2643 | over every history with one prober, an ended run reports for each batch, in order, exactly the ports its sweep returned, a failure row with the message or else the class where it raised, and its advisories; every cache entry is as true |
| DiscoveryAnswers.PortsComeFromSweeps | run_scan.py:2543-2558 | a port is reported if and only if the sweep of some batch's responsive hosts returned it |
| DiscoveryDisk.RunLeaves | run_scan.py:2436-2643 | one run from boot to end, over any disk left by that prober: a batch is restored exactly when its checkpoint was loaded and its payload is there, and otherwise swept; the log grows by exactly its writes and the cache by exactly its payloads |
| StageProofs.SkippedOnlyIfCheckpointed | run_scan.py:1292-1294 | over all histories, whatever fails: a checkpoint directly follows the same process's attempt to flush the stage, and a stage is skipped only if an earlier run's checkpoint of it arrived |
| StageProofs.BackedExactlyWhen | run_scan.py:657-664 | while every process loads its checkpoints, for any stage but inventory and reports: what the flush of a checkpointed stage lists was committed before that checkpoint if and only if the flush right before it committed or an earlier one did and was cut off |
| StageProofs.BackedByItsOwnFlush | run_scan.py:2864-2871 | the same for such a stage flushed once: if and only if that flush committed |
| StageResumes.RolledBackFlushIsSkipped | run_scan.py:2839-2871 | a history in which a stage is checkpointed and then skipped with no committed flush |
| StagePrefix.PrefixExactlyWhen | run_scan.py:2694-4400 | over all histories the checkpointed stages are a prefix of the chain if and only if no lost checkpoint, never made good, was overtaken by that of a later stage |
| StagePrefix.RunKeepsPrefixExactlyWhen | run_scan.py:2694-4400 | one run keeps a prefix a prefix if and only if no checkpoint arrives after it lost that of a stage not in the table |
| StagePrefix.BrokenExactlyBy | run_scan.py:2866-2871 | a step breaks the prefix exactly when a checkpoint arrives while one before it is missing |
| StagePrefix.CheckpointsFormPrefix | run_scan.py:2694-4400 | while checkpoint writes arrive the checkpointed stages are always a prefix of the chain, whatever else fails |
| StagePrefix.LostWriteBreaksPrefix | run_scan.py:2694-2871 | a named history whose only non-durable event is one lost checkpoint, and which breaks the prefix |
| StageProofs.NoStageTwice | run_scan.py:2839-4193 | over histories that always resume, no stage but inventory is checkpointed twice, or flushed again after its checkpoint |
| StageResumes.FlushedAgainExactlyWhen | run_scan.py:2839-4193 | while every process loads its checkpoints, for any stage but inventory and reports: a process flushes a stage it has passed if and only if every earlier flush of it was cut off from its checkpoint |
| StageResumes.SecondFlushMeansCutOff | run_scan.py:2839-4193 | while every process loads its checkpoints, any stage but inventory is flushed a second time only after a flush that was cut off |
| StageResumes.FinishedRunStaysFinished | run_scan.py:1302-1317 | resuming a finished run writes nothing; a run is listed exactly when it has a row and a resume would not stop at once |
| StageResumes.EndedRunIsListedExactlyWhen | run_scan.py:1220-1229 | over all histories an ended run is listed if and only if some row arrived, no earlier process checkpointed its reports, and it found nothing to scan or its own reports checkpoint was lost |
| StageResumes.ResumeCompletes | run_scan.py:2207-2291 | from any state, an undisturbed resume finishes within 42 steps with all eight stages checkpointed, lost ones made good, unless it stops because the run was finished |
| StagePipeline.FlushAndMark | run_scan.py:2864-2871 | an attempt to flush, then an attempt to checkpoint whatever became of it, partial exactly when the stage has partial failures |
| StagePipeline.ScannerStage | run_scan.py:2839-2871 | a guarded stage is skipped without an attempt to write, or flushed and then checkpointed |
| StagePipeline.InventoryStage | run_scan.py:2694-2826 | fingerprinting is skipped when completed; the flush and the checkpoint are attempted either way |
| StagePipeline.ReportsStage | run_scan.py:4230-4400 | final persist, coverage flush that may fail, reports, reports checkpoint that may be lost, in this order; an incongruent headline ends the process after the persist |
| StagePipeline.RunScan | run_scan.py:2207-4400 | a whole run is a history of the machine, and the log grows by exactly: discovery's row, the flush and the checkpoint of every stage not loaded, in order and each under its own failures and partiality, and the rows of the reports; a loaded reports checkpoint, nothing to scan and an incongruent headline end it early |
| PhaseRecords.PhaseRecorder.Skip | run_scan.py:188-196 | a listed reason becomes pending, any other is refused and leaves the state alone |
| PhaseRecords.PhaseRecorder.RecordSkipped | run_scan.py:211-223 | the row takes and clears the pending reason, or is honestly unclassified |
| PhaseRecords.WrappedPhase | run_scan.py:290-348 | one row for every ending but an abort, the timing key also for failures, one error row for a failure |
| PhaseRecords.RunPhases | run_scan.py:188-269 | phase by phase, the rows, the timings, the errors and the last skip call are those of what the phase itself did or of its stage having been resumed, although the one pending reason is shared; an abort ends the list there |
| PhaseRecords.CoverageTable.FlushPhaseRecords | run_scan.py:667-713 | the flush commits exactly when no name is inserted twice, and then upserts every row; otherwise nothing changes |
| PhaseRecords.SlotsCoverThePhases | run_scan.py:2846-4030 | every phase name has exactly one place in the scan |
| PhaseRecords.CoverageIsComplete | run_scan.py:667-713 | whatever was resumed and whatever each phase did short of aborting, the flush commits and every phase name has its one record, of what its own phase did; a resume marker never replaces a record; other runs' records stay |
| EndpointRows.StampScanSession | run_scan.py:616-634 | unset session keys and times are filled in, set ones kept, field by field; other endpoints untouched |
| EndpointRows.FlushStageEndpoints | run_scan.py:637-664 | all rows or none; on commit each object's row has its finding and data, its own session key and time if set and otherwise the run's, and the object learns its key; other rows stay |
| EndpointRows.PersistAll | run_scan.py:4200-4242 | every object of the list is stamped and written the same way, no other; the objects do not learn their keys |
| EndpointRows.ExactlyOnce | run_scan.py:616-664 | whatever was found, changed, flushed or rolled back, after the final persist each object it lists owns one row, which has its finding and data, and its session key and time, or the run's where it has none; keyed objects keep their old row, other rows are untouched, no stamp is overwritten |
| EndpointRows.FlushWrites | run_scan.py:637-664 | what a committed session writes, in the fields of objects and rows: the listed objects' rows, keyed ones the old one, the others new ones of their own, and nothing else |
| EndpointRows.OwnsRowExactlyWhen | run_scan.py:637-664 | after the final persist an object owns a row if and only if it is listed, was reloaded, or was in a flush that committed |
| EndpointRows.FinalValuesExactlyWhen | run_scan.py:4200-4242 | that row holds, field by field, the final values if and only if the object is listed or unchanged since it was last saved |
| EndpointRows.RolledBackFuzzIsLost | run_scan.py:3443-3447 | an input: a fuzz endpoint whose flush rolled back has no row after the final persist |
| EndpointRows.LaterChangeIsLost | run_scan.py:4200-4242 | an input: what is changed of such an endpoint after its flush committed never reaches its row |
| EndpointRows.PersistAddsNothingIffKeyed | run_scan.py:4230-4242 | the final persist adds no row if and only if every object it lists has a key |
| EndpointLives.ExactlyOnceAcrossCrashes | run_scan.py:616-664 | however often processes died, persisted and reloaded, after the last final persist each object it lists owns one row with its finding, data, session key and time, and every earlier row is still there |
| EndpointLives.NoFindingTwiceExactlyWhen | run_scan.py:637-664 | from the empty table on, through any processes, no finding has two rows if and only if no committed flush or persist merges an object without a key for a finding that has a row by then |
| EndpointLives.RerunDuplicates | run_scan.py:2839-2864 | after any life, an endpoint made again for a finding that has a row gets a second one when it is saved |
| StageRows.SurvivesExactlyWhen | run_scan.py:2694-4242 | over all histories, whatever each process finds, an endpoint of a list has as many rows as processes found it and saved it, by the flush of its stage or the final persist, whichever lists it |
| StageRows.UnflushedSurvivesExactlyWhen | run_scan.py:3946-4004 | a code-signing endpoint, an error row or one of no stage survives if and only if the final persist of a process that found it committed |
| StageRows.FuzzSurvivesExactlyWhen | run_scan.py:3443-3447 | a fuzz endpoint survives if and only if a flush of the api stage committed in a process that found it |
| StageRows.CheckpointedRowsAreLost | run_scan.py:3623-4004 | a history: code-signing and error rows of data at rest are in no row though its flush committed, its checkpoint arrived and the resume finished |
| StageRows.SecondRowExactlyWhen | run_scan.py:2839-4242 | while every process loads its checkpoints, an endpoint of a stage's list has a second row if and only if a process saved it without its checkpoint of the stage arriving and a later one found and saved it again |
| StageRows.LivesTellTheLog | run_scan.py:637-664 | a flush of the stage, or a final persist, is committed in the log if and only if it is some process's |
| StageTable.RowsAreInTheTable | run_scan.py:616-664 | one history drives stage chain and endpoint table: over all histories and whatever is reloaded, the table holds exactly as many rows of the finding as processes found and saved it |
| StageTargets.TargetSurvivesExactlyWhen | run_scan.py:2694-2714 | over all histories in which, as in the code, a process that loaded the inventory finds nothing of a target without a row in the table: a row from which a TLS or SSH target can be rebuilt is there if and only if a process that did the fingerprinting itself saved one |
| StageTargets.DrawnRowsAreFounded | run_scan.py:2839-2864 | in the same histories, an endpoint that only the target gives has a row only if a process that did the fingerprinting itself saved it or a row of the target |
| StageTargets.LostForGood | run_scan.py:2694-2714 | once the inventory is checkpointed and nothing of a target is in the table or in hand, no process that loads its checkpoints ever finds anything drawn from it |
| StageTargets.TargetsStayLost | run_scan.py:2694-2864 | in particular after a run that died right after the inventory checkpoint, whatever resumes follow |
| StageTargets.TargetsAreLost | run_scan.py:2736-2864 | a history without a lost write whose resume finishes with all stages checkpointed and none of those rows |
| ScoreLoops.AddNumerator | scripts/p2b_closed_form.py:320-328 | the loop computes a term's numerator with its addends |
| ScoreLoops.AddIdentity | scripts/p2b_closed_form.py:383-396 | the loop computes the identity sum without placeholder and error rows |
| ScoreLoops.RawDomains | scripts/p2b_closed_form.py:354-380 | the passes over the term tables compute the raw value of every domain |
| ScoreLoops.ComputeScore | scripts/p2b_closed_form.py:430-484 | the accumulating scorer returns the closed form; spelt out: emitted is the integer nearest to lowest * computed / 100, ties to even, where lowest is the least ceiling that applies, or computed itself without one; computed is the integer nearest to the mean of the assessed domains out of 25, each in terms of named counts |
| ScoreMeaning.ClosedFormAnswers | scripts/p2b_closed_form.py:200-484 | the same of the closed form: every domain's sum with its field names, weights and anchors, the clamp, both roundings, the ceilings and when each applies, the assessed domains, and the three refusals in their order |
| ScoreProofs.CurveShape | scripts/p2b_closed_form.py:331-335 | the curve is monotone, at most 1, and flat from 40 on |
| ScoreProofs.CurveUnique | scripts/p2b_closed_form.py:331-335 | the defining equation has one solution |
| ScoreProofs.RoundNearest | scripts/p2b_closed_form.py:449-452 | rounding is to a nearest integer and ties go to the even one |
| ScoreProofs.BindingIsLowest | scripts/p2b_closed_form.py:462-467 | after sorting, the binding ceiling is the lowest that applies |
| ScoreTheorems.ScoredExactlyWhen | scripts/p2b_closed_form.py:433-454 | evidence is scored if and only if the profile is the balanced one, the assessable-endpoint count is present and some domain is assessed; otherwise the first that fails is named |
| ScoreTheorems.ReportBounds | scripts/p2b_closed_form.py:411-484 | 0 <= emitted <= computed <= 100 and emitted is under every ceiling; a CRITICAL forces POOR and makes the band cap the identity, three HIGH cap at FAIR, one at MODERATE, no PQC key exchange excludes EXCELLENT |
| ScoreTheorems.CountsNeverHelp | scripts/p2b_closed_form.py:218-258 | raising any penalty count or the scan-error count never raises the emitted score |
| ScoreTheorems.CountsSaturate | scripts/p2b_closed_form.py:331-335 | beyond 40 it changes nothing in the report |
| ScoreTheorems.SeveritiesNeverHelp | scripts/p2b_closed_form.py:411-425 | more CRITICAL or HIGH findings, which choose the ceiling, never raise the emitted score |
| ScoreTheorems.WeakerNeverHigher | scripts/p2b_closed_form.py:354-484 | evidence with at least the other's weaknesses never scores higher, emitted or computed |
| ScoreTheorems.HealthyNeverHelps | scripts/p2b_closed_form.py:354-408 | adding healthy endpoints never raises the emitted score while the same domains are assessed |
| ScoreTheorems.ReclassifyingIsNeutral | scripts/p2b_closed_form.py:367-373 | reclassifying undetermined certificates as RSA or ECDSA leaves the report equal |
| SeverityBands.CapByScan | quirk/severity_bands.py:112-166 | the early-return search computes the capped band |
| SeverityBands.CapIsLeastDestructive | quirk/severity_bands.py:112-166 | the cap is the best band no better than the numeric one that admits the findings; unknown labels are refused whatever the count |
| SeverityBands.BandsFollowScores | quirk/severity_bands.py:97-109 | a higher score never gets a worse band |
| SeverityBands.BandsAre | quirk/severity_bands.py:97-166 | the bands begin at 85, 70, 55 and 35; an open CRITICAL turns the three best into FAIR and leaves the others |
| Redaction.RedactValue | quirk/config_redaction.py:169-193 | the recursive method computes the redacted value, or fails as it does |
| Redaction.RedactDataclass | quirk/config_redaction.py:137-155 | the loop over the fields computes the redacted record: private fields left out, map fields walked in their own section |
| Redaction.RedactAppConfig | quirk/config_redaction.py:196-218 | the top-level loop computes the redacted configuration |
| Redaction.NonInterference | quirk/config_redaction.py:112-218 | configurations that differ only at credential positions, with equal status, redact to the identical tree or both fail |
| RedactionEdits.ChangedCredentialShows | quirk/config_redaction.py:121-218 | replacing the credential at any position of a configuration changes the output if and only if it changes the status |
| RedactionEdits.UpdatedIsAlike | quirk/config_redaction.py:112-218 | an edit of any credential that keeps its status leaves the configuration alike: the same tree, or the same failure |
| RedactionEdits.EditIsAlikeExactlyWhen | quirk/config_redaction.py:112-218 | where redaction succeeds, and only such an edit does |
| Redaction.EveryCredentialIsMarked | quirk/config_redaction.py:137-218 | every credential position, at any nesting, shows the marker of its status, and nothing else, at the same place |
| RedactionMeaning.MarkersTellTheStatus | quirk/config_redaction.py:121-155 | there the output reads "(set)" if the value prints as anything but white space or the position's variable is in the environment and not blank, and "(not set)" otherwise |
| RedactionMeaning.RedactsExactlyWhen | quirk/config_redaction.py:137-218 | redaction succeeds if and only if every credential map that is looked into, at any nesting, holds records only; environment and credentials make no difference |
| RedactionMeaning.CredentialExactlyWhen | quirk/config_redaction.py:58-118 | a name is a credential's if and only if it is not on the safe list and is registered for its section or mentions a listed word anywhere, in any case |
| RedactionLeaves.LeafIsShownExactlyWhen | quirk/config_redaction.py:137-218 | a leaf on a path through no set, whose scrubbed text is not one of the two markers, is shown in the clear, scrubbed, if and only if no credential position is on its path |
| RedactionLeaves.TopLevelNameIsNotClassified | quirk/config_redaction.py:196-218 | a text in a top-level field is shown even under a name that is a credential in every section |
| Redaction.ClassifiedWhateverTheCase | quirk/config_redaction.py:66-118 | outside the safe list and the registry, letter case makes no difference to the classification |
| VaultNotes.ParseNote | scripts/sync_vault_guides.py:141-162 | the line loop computes frontmatter and body |
| VaultNotes.FindDeclaredSource | scripts/sync_vault_guides.py:179-183 | the loop returns the first declared source, stripped |
| VaultMeaning.NoteMeans | scripts/sync_vault_guides.py:132-162 | without an opening or a closing fence all of the text is body; otherwise the lines up to the first closing fence are the frontmatter and what follows it, but for one empty line, is the body, in places of the text |
| VaultMeaning.SourceMeans | scripts/sync_vault_guides.py:179-183 | a source is declared if and only if the first line that begins with the key names it, white space around it aside |
| VaultMeaning.ProblemMeans | scripts/sync_vault_guides.py:186-198 | a note is this source's if and only if it declares it; otherwise which of the three reasons is given |
| VaultNotes.RoundTrip | scripts/sync_vault_guides.py:132-176 | on break-free lines a rendered note parses to the stamped frontmatter and the exact body if and only if there is a frontmatter and no line is a fence, in LF and CRLF |
| VaultNotes.RenderedIsParsed | scripts/sync_vault_guides.py:141-176 | for any frontmatter that came from parsing, the body survives a rewrite exactly, in the note's own line ending |
| VaultNotes.SourceSurvives | scripts/sync_vault_guides.py:165-183 | stamping and rereading never change the declared source |
| VaultNotes.WrittenSettles | scripts/sync_vault_guides.py:269-297 | after a writing pass a pair is in sync or refused; a created note is accepted if and only if its source path is trimmed and one line |
| VaultSync.Vault.WritePair | scripts/sync_vault_guides.py:269-297 | the result and the vault are those of syncing that pair; only the pair's own note may change |
| VaultSync.Vault.PlanSync | scripts/sync_vault_guides.py:381-389 | the loop syncs every tracked pair in order |
| VaultMeaning.PairIs | scripts/sync_vault_guides.py:165-297 | what syncing a pair reports and does: a missing note is made, word for word as given, or missed; one that does not declare the source is left alone whatever its body; one without differences too; any other has the document as its new body, the date set and all other lines kept, in its own line ending |
| VaultMeaning.PassMeans | scripts/sync_vault_guides.py:269-389 | over distinct targets the pass does this for each tracked document of the mapping, in order, and touches no other note |
| VaultSync.WritePassSettles | scripts/sync_vault_guides.py:269-389 | after a writing pass over distinct targets all pairs are in sync or refused, refused notes are byte-identical, and a second pass changes nothing |
| VaultSync.TrackedPassSettles | scripts/sync_vault_guides.py:269-389 | the same over the tracked documents of a mapping with distinct targets; notes of untracked documents are untouched |
| VaultSync.CheckPredictsWrite | scripts/sync_vault_guides.py:269-389 | a check changes nothing and tells exactly what a writing pass would do |
| UatCorpus.ReadResult | scripts/uat_corpus.py:185-221 | what the checked boxes of a result line say, several at once being malformed |
| UatMeaning.AnnotationMeans | scripts/uat_corpus.py:98-117 | a skip is a gap, deferred or obsolete by the word and dash its annotation begins with once white space and stars are taken off |
| UatCorpus.IterCases | scripts/uat_corpus.py:159-232 | the one-pass scanner yields exactly the records of the document's spans |
| UatMeaning.ScannedCasesMean | scripts/uat_corpus.py:159-232 | the records are those of the headings, in order: the first result line before the next heading judged by its boxes, the first notes line after that, and their line numbers, in places of the document |
| UatCorpus.SpansAreTheHeadings | scripts/uat_corpus.py:159-180 | one record per heading, in order, each over the lines up to the next heading |
| UatCorpus.FirstResultIsFirst | scripts/uat_corpus.py:183-187 | a record's result is the first result-shaped line of its span |
| UatCorpus.FirstNotesIsFirst | scripts/uat_corpus.py:223-229 | its notes are the first notes-shaped line after that |
| UatCorpus.IrrelevantLinesDoNotMatter | scripts/uat_corpus.py:159-232 | replacing any other line by a non-matching one changes no record |
| UatLedger.CountDispositions | scripts/uat_corpus.py:282-284 | the loop counts the cases of every disposition |
| LedgerMeaning.CountMeans | scripts/uat_corpus.py:282-284 | the count of a disposition is the number of the cases that have it |
| UatLedger.ReadLedger | scripts/uat_corpus.py:299-313 | the first row of each id is kept and every repeated id reported |
| UatLedger.Reconcile | scripts/uat_corpus.py:278-404 | the report's lists, and that arithmetic_ok is the closure condition |
| LedgerMeaning.CaseListsMean | scripts/uat_corpus.py:286-293 | the gap lists and the malformed list hold the ids of exactly the cases with those dispositions and notes, in order |
| LedgerMeaning.RowListsMean | scripts/uat_corpus.py:320-321 | gaps are split by whether any ledger row has their id |
| LedgerMeaning.ConflictsMean | scripts/uat_corpus.py:299-350 | an id is a conflict exactly when the ledger's first row with it says GAP and the document's last case with it is deferred, unannotated or obsolete; absent exactly when only the ledger has it; a duplicate exactly when two rows have it |
| UatLedger.ArithmeticClosesExactlyWhen | scripts/uat_corpus.py:364-404 | with unique ids the arithmetic closes if and only if no case is malformed and no first ledger row calls a passed, failed or open case a gap |
| UatLedger.GapListsAddUp | scripts/uat_corpus.py:286-293 | result-line and notes-only gaps together are the gap list |
| UatLedger.GapListsDisjoint | scripts/uat_corpus.py:286-293 | and they share no case |
| UatLedger.CountsSumToHeadings | scripts/uat_corpus.py:280-284 | the disposition counts sum to the headings |
| LatestRows.Dedupe | quirk/models_util.py:61-66 | the dictionary loop keeps one row per key, the one with the highest id |
| LatestRows.LatestSuccessful | quirk/models_util.py:21-66 | the query result is that deduplication of the join: for each device with a successful row one row, of the rows at the time of its newest successful one, successful or not, the one with the highest id |
| LatestRows.VendorSnapshot | quirk/models_util.py:86-135 | the snapshot is the first rows, newest first, of such a deduplication; whatever of the vendor's devices it leaves out is older than all of them |
| LatestRows.ReturnsGreatestExactlyWhen | quirk/models_util.py:41-66 | a returned row is its key's greatest successful row if and only if the highest-id row at that time is successful |
| LatestRows.FailedProbeInTheSameSecond | quirk/models_util.py:51-59 | an input for which it is not |
| LatestRows.EveryKeyReturned | quirk/models_util.py:41-66 | exactly the keys with a successful row are returned |
| LatestRows.LatestAgreesWithHistory | quirk/models_util.py:69-83 | when rows sharing a time agree, the latest row is the head of the history query |
| LatestRows.HistoryMeans | quirk/models_util.py:69-83 | the history query returns the newest successful rows of the device, newest first, up to the limit |
| LatestRows.SnapshotHoldsMaxima | quirk/models_util.py:108-135 | the snapshot holds greatest rows, one per key, newest first |
| LatestRows.SnapshotLeavesOutOlderOnly | quirk/models_util.py:108-135 | a key is missing only if the snapshot is full of newer rows |
| LatestRows.OlderRescanKeepsSnapshot | quirk/models_util.py:86-135 | recording an older row of a key never changes the snapshot |
| HostPort.AcceptedIsSound | quirk/config.py:602-700 | whatever is accepted has a trimmed, non-empty host and a port in range |
| HostPort.RoundTrip | quirk/config.py:636-700 | the written form is parsed back to the same pair if and only if the host is non-empty, trimmed and free of a closing bracket where brackets are written |
| HostMeaning.ParsesExactlyWhen | quirk/config.py:602-700 | an entry is accepted as a host and a port if and only if it denotes them: brackets, one colon, none, or an address, with a numeral between 1 and 65535 |
| HostMeaning.PortIs | quirk/config.py:602-633 | a port text is accepted if and only if it is a numeral in range, perhaps after a plus sign, with single underscores between digits, white space around it aside |
| HostMeaning.RefusedByName | quirk/config.py:602-700 | any other entry is refused with itself in the error |
| HostPort.BuildBrokerScanInputs | run_scan.py:427-468 | hosts, port map and explicit pairs as built from the parsed entries, or the error of the first entry that fails |
| HostPort.BrokerInputsAreComplete | run_scan.py:427-468 | every host of both sources once, in order of first appearance; the flattened port map is exactly the explicit pairs |
| CiVerdict.CollectWorkflow | scripts/branch_ci_state.py:175-213 | the collected run is at the branch's head and the latest such, the first listed of equally late ones |
| CiVerdict.EvaluateWorkflow | scripts/branch_ci_state.py:249-295 | a workflow is green, red or unobserved by whether it has a completed run, whether every required job succeeded and whether every demanded name was reported; the reasons added name exactly the jobs at fault, in order |
| CiVerdict.Evaluate | scripts/branch_ci_state.py:320-353 | the verdict is red if some workflow is, unobserved if none is red and some is unobserved or there is none, green otherwise; exit code and reasons accordingly |
| CiVerdict.GreenExactlyWhen | scripts/branch_ci_state.py:249-353 | green if and only if there is a workflow and each has a completed run in which every required job succeeded and every required name was reported |
| CiVerdict.RequiredMeans | scripts/branch_ci_state.py:64-172 | which jobs of which workflow gate, which are advisory, excused by the event, and which names must be reported, in the names themselves |
| CiVerdict.FailureIsRedDespiteGaps | scripts/branch_ci_state.py:329-336 | a completed workflow that does not pass, by a failed or a missing required job, makes the verdict red even if others are unobserved |
| CiVerdict.UnlistedFailureIsRed | scripts/branch_ci_state.py:162-172 | fail-closed: a job that did not succeed makes the verdict red unless somebody listed it as advisory or a manual dispatch excuses it |
| Migration.Database.EnsureColumns | quirk/db.py:240-270 | the missing columns are appended to that table, each once, up to the first that is listed twice, and nothing else changes |
| Migration.AcceptedExactlyWhen | quirk/db.py:262-270 | a column list is added as a whole if and only if no missing column is in it twice |
| MigrationMeaning.StopsWhere | quirk/db.py:262-270 | otherwise additions stop at the first missing column that is listed before |
| Migration.Database.RunAdditiveMigration | quirk/db.py:316-366 | the report, equal for a dry run, and the migrated schema, or the same one for a dry run |
| Migration.Database.InitColumns | quirk/db.py:600-613 | database creation ends with the same columns, the late table included |
| Migration.MigratedColumns | quirk/db.py:287-366 | each table ends with its old columns followed by exactly the missing registered ones, across repeated entries |
| MigrationMeaning.MigratedInOrder | quirk/db.py:287-366 | the columns added are those missing, in the order in which the registry first lists them |
| MigrationMeaning.ReportMeans | quirk/db.py:316-366 | the report has one line per registered column, entry by entry and in order, "added" exactly for those the table did not have when the run started |
| Migration.SecondRunChangesNothing | quirk/db.py:316-366 | a further run, after a migration or a database creation, reports every column present and changes nothing |

## Left out

- The stage-level reload of endpoints on resume: it selects a window of time, so which rows come back is left open. `EndpointLives` and `StageTable` let it be any rows of the table; `StageTargets` takes from it only that a target is rebuilt from no row but those of the run that are in the table.
- StageTargets.Draws: follows what an endpoint owes to one target; e-mail and broker hosts of several TLS targets, configured brokers and code signing found over LDAP have origins of their own.
- Discovery branches without batches (the whole-discovery cache under `--cache`, and expansion without nmap) have no batch bookkeeping.
- A change of scope between runs: the plan is taken to stay the same, as the source itself assumes.
- The cache is taken as the entries its loader would return: an expired or unreadable file is an absent entry, and serialisation is taken to round-trip.
- `cfg.output.db_path` and `--db-path`, from which checkpoints are read and to which they are written, are one store here.
- Scanners, nmap, cloud connectors, subprocesses, clocks and logging are oracles or parameters; reports, the dashboard and argument parsing are not part of this model.
- Phase names and stage names are enumerations; skip reasons that are not in the list are kept as text.
- EndpointRows.PersistAll: does not model a failing final persist, because that ends the run.
- Floating-point rounding inside the score: arithmetic is over reals with an exact half-to-even round. Only the balanced profile is specified by the source.
- A count path of the evidence that holds a table reads as 0, where the source raises.
- Redaction.RedactValue: does not model the failure of sorting a set whose redacted members cannot be compared, and gives the sorted list by what it holds; URL user-information scrubbing is an arbitrary function of the string.
- UatLedger.Reconcile: does not model the sort order of the id lists, the series numbers and the detail counts, which are lengths of the lists; lines come classified by shape, and the gap phrase is a flag of a notes line.
- VaultNotes.WrittenSettles: the diff counter is any function that finds no difference between equal texts; that a count of zero means equal bodies is not claimed, since diff lines that look like file headers are not counted.
- Path resolution of vault targets (symbolic links, escapes), atomic file replacement and the cross-check messages.
- HostPort.RoundTrip: decimal digits of other scripts, which `int` accepts, and entries that are not text are not modelled; the address library's verdict on unbracketed texts is an arbitrary predicate.
- Log texts, dispatch hints and the comparison with the main branch in the CI report.
- Column types and the allow-list patterns for names and types: registry entries are taken to pass them.
- Static tables, `extract_series` and simple flag or default code, which would only add easy members.
