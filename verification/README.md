# Swiss GTFS static pipeline: a verified model

A Dafny model of two connected programs and proofs about them.

* **The downloader** (`domains/ingestion/extract/ckan`) fetches GTFS archives version by version,
  converts each to Parquet and publishes it atomically, with a bounded work queue, two permit
  pools, a control plane of per-version records, a `latest` link, and recovery from crashes.
* **The Zurich transform** (`domains/ingestion/transform`) validates a published snapshot and
  derives the Zurich subset from it with relational operators.

## How it is modelled

| files | what they hold |
|---|---|
| `Domain.dfy`, `Paths.dfy`, `Text.dfy` | version ids, file and directory names, artifact paths |
| `Archive.dfy` | member checks over abstract archives and directories |
| `Snapshot.dfy` | one version's disk, its atomic operations, and `run_stages` as a plan: the exact list of operations from a given disk |
| `SnapshotSafety.dfy`, `SnapshotRecovery.dfy`, `SnapshotConvergence.dfy` | the crash invariant, what any history of crashed runs leads to, and exactly when recovery loses nothing |
| `SnapshotResults.dfy` | what a result means: the hash check, the sidecar's fields, and what each failure leaves |
| `SnapshotInspection.dfy` | exactly which failing looks at staging spoil recovery, and how |
| `SnapshotLimits.dfy`, `SnapshotTearing.dfy`, `SnapshotAssumptions.dfy`, `SnapshotPermits.dfy` | where the guarantees end, why each assumption is needed, and which permits a run takes |
| `StagingArea.dfy`, `SnapshotProcess.dfy` | the same stages and `process_snapshot` as programs that update their state in place, proved equal to the plan |
| `WorkState.dfy`, `Reconcile.dfy`, `ReconcileProperties.dfy` | the control-plane record and the reconciliation pass |
| `Manifest.dfy`, `Rollup.dfy`, `Pipeline.dfy`, `Downloader.dfy` | sidecars, manifest, result books, `latest`, and the serial beginning and end of an invocation |
| `Queue.dfy`, `QueueSafety.dfy`, `QueueLiveness.dfy`, `WorkPool.dfy`, `ConcurrentPhase.dfy` | producer, channels, locked receiver, workers, permits and drain loop as interleaved steps |
| `System.dfy`, `SystemSafety.dfy`, `SystemHistories.dfy`, `WholeRun.dfy`, `Rejection.dfy`, `UnreadSidecars.dfy` | many invocations over one durable store, workers interleaved operation by operation, record writes that may be lost or torn, a crash anywhere |
| `Tables.dfy`, `Subset.dfy`, `SubsetProperties.dfy`, `Validate.dfy` | the relational operators, the derivation, its meaning, and the validation that gates it |

A crash may strike between any two atomic operations. Every look that the resume decision takes at
staging may fail, and so may every removal, creation, download, promotion, member write, Parquet
write, rename and sidecar write whose result the code checks (`Missed` and `Faults` in
`Snapshot.dfy`).

**One condition is exact:** a run must not be misled by what its look at staging misses.
`SafeIffNotMisled` shows that crash safety holds under it and fails without it, and
`BlindnessMisleadsIff` says what it is on disk: no conversion is under way when the archive cannot be
read back or the extraction cannot be checked. Runs that see the archive and the extraction always
meet it (`SightedHistory`).

**Three hypotheses are explicit,** each with a history from an empty disk that shows it is needed:

* each file write, directory removal, rename and sidecar write is one atomic operation
  (`TornWriteDefeatsRecovery`, `HalfRemovalDefeatsRecovery`);
* a clean-up whose result the code ignores succeeds (`SilentCleanUpDefeatsRecovery`);
* the existence tests that guard the removals at `snapshot.rs:361` and `364` see what is
  there (`OverlookedExtractionDefeatsRecovery`).

Further assumptions are the program's own: one invocation at a time, nothing else touches the
data directory, upstream versions are pairwise distinct within one listing, and name prefixes
neither start with a dot nor contain a slash. Conversion, hashing and size are any functions of
the bytes; server replies, clocks, directory listing orders, failing calls and the schedule are
arbitrary parameters.

## Where the code and its documentation disagree

The model follows the code.

* `archive.rs:124-126` says that a differently-cased archive (`Stops.txt`) still validates. The
  check after extraction compares exact names and rejects it (`CapitalisedMemberRejected`);
  `SoundArchiveAcceptedIffExactNames` gives the exact condition.
* `snapshot.rs:70` says that a crash before `latest` is advanced needs no handling, because each
  run recomputes the target. The startup check at `pipeline.rs:277` runs first: it rejects exactly
  in that situation (`RejectionNeedsInterruption`), which a first invocation can already
  reach (`RejectionIsReachable`, `ConcreteRejection`), and then for ever (`RejectionIsPermanent`).
* `queue.rs:43-44` says that reconciliation offers each eligible version at most once per pass.
  It does so if and only if upstream lists no eligible version twice (`OfferedOnceIff`).
* `snapshot.rs:260-263` says that only a finished conversion ever removes the extraction. The
  discard step at `snapshot.rs:361-363` removes it too, before the conversion. A crash between the
  two removals is harmless because a conversion never stands beside an invalid extraction, so that a
  look that sees staging never lets both go (`SightedDiscard`), and not because of their order:
  the opposite order is safe on every disk (`ConversionFirstIsSafe`), this one exactly on those
  without a conversion under way (`ExtractionFirstIsSafeIff`).
* `snapshot.rs:217-219` says that an archive that cannot be read back is treated as if it were not
  there. It is not: the file stays, and once the discard step has removed the extraction a later run
  trusts whatever conversion lies beside that file (`BlindRunDefeatsRecovery`).

## Model

| member | source | states |
|---|---|---|
| SnapshotRecovery.CrashSafePublication | domains/ingestion/extract/ckan/src/snapshot.rs:327-525 | over any number of runs, each stopped after any number of atomic operations, with any calls failing and none misled by its inspection, an installed snapshot is a complete conversion of one archive whose size and SHA-256 its sidecar records, and whatever lies beside a staged `.zip` derives from that `.zip` |
| SnapshotRecovery.ConvertedResumeIsSound | domains/ingestion/extract/ckan/src/snapshot.rs:208-299 | after any such history, when the resume decision is Converted (extraction gone or not) the Parquet staging derives from the staged archive; it covers all required members whenever the inspection sees the archive and the extraction, and otherwise exactly when it is not empty and no conversion is under way |
| SnapshotRecovery.SightedHistory | domains/ingestion/extract/ckan/src/snapshot.rs:208-238 | histories whose inspections see the archive and the extraction are never misled, so crash-safe publication holds over all of them |
| SnapshotInspection.SafeIffNotMisled | domains/ingestion/extract/ckan/src/snapshot.rs:208-366 | the exact condition on a failing inspection: after any history of runs that were not misled, all runs with given misses keep the disk invariant at every operation, whatever else they are given, if and only if these misses do not mislead them |
| SnapshotInspection.BlindnessMisleadsIff | domains/ingestion/extract/ckan/src/snapshot.rs:213-237 | an archive that cannot be read back, or an extraction that cannot be checked, misleads a run if and only if a conversion is under way that does not cover every required member |
| SnapshotInspection.BlindRunDefeatsRecovery | domains/ingestion/extract/ckan/src/snapshot.rs:216-220 | a witness from an empty disk: a crash during conversion, one run that cannot read the archive back or check the extraction and then crashes or fails to remove the conversion, and a run without a fault that publishes an incomplete conversion |
| SnapshotInspection.UnseenExtractionDefeatsRecovery | domains/ingestion/extract/ckan/src/snapshot.rs:271-275 | a witness from an empty disk: after a crash during conversion, a run to which the extraction directory looks absent publishes an incomplete conversion at once |
| SnapshotInspection.SightedDiscard | domains/ingestion/extract/ckan/src/snapshot.rs:357-366 | what an inspection that sees staging lets go beside an archive never has a conversion beside it |
| SnapshotInspection.ConversionFirstIsSafe | domains/ingestion/extract/ckan/src/snapshot.rs:361-366 | the opposite order of the two removals would be safe on every reachable disk, whatever an inspection missed |
| SnapshotInspection.ExtractionFirstIsSafeIff | domains/ingestion/extract/ckan/src/snapshot.rs:361-366 | the order the code uses is safe if and only if no incomplete conversion is under way |
| SnapshotRecovery.FinishedRunPublishesIffOk | domains/ingestion/extract/ckan/src/snapshot.rs:343-525 | a finished run that its inspection does not mislead installs if and only if it returns Ok; then the sidecar carries the hash of its archive, whatever it resumed from, and that equals, case aside, an upstream hash of 64 hexadecimal digits |
| SnapshotResults.HashDecides | domains/ingestion/extract/ckan/src/domain.rs:108-131 | after any history, a run that gets as far as the check ends with a hash mismatch if and only if upstream gives 64 hexadecimal digits that differ, case aside, from the archive's SHA-256, and then leaves no archive staged; no other run does |
| SnapshotResults.EveryEndHasItsReason | domains/ingestion/extract/ckan/src/snapshot.rs:327-525 | why a run ends as it does, after any history: a failed download, a hash mismatch, a rejected archive and a failed conversion each have exactly their own cause, the earliest counting, and a run succeeds if and only if nothing it has to do fails, its archive is sound and its hash agrees |
| SnapshotResults.SidecarRecords | domains/ingestion/extract/ckan/src/snapshot.rs:505-519 | what a successful run records, field by field: URL, time, size, hash and path; the publisher's modification date or else the server's, and the server's tag, the last two only when this run downloaded |
| SnapshotResults.FailureLeaves | domains/ingestion/extract/ckan/src/snapshot.rs:416-476 | a refused archive is never resumed from: after a hash mismatch, a rejected archive or a failed conversion the next run downloads afresh; the last two leave no staging and come only from a bad archive or a failing write |
| SnapshotResults.PartialDownloadLeft | domains/ingestion/extract/ckan/src/download.rs:38-61 | a finished run leaves a partial download if and only if it transferred a whole archive that it could not promote |
| SnapshotResults.TransfersIff | domains/ingestion/extract/ckan/src/snapshot.rs:372-392 | a run writes a download to disk if and only if it starts over and the server does not refuse |
| SnapshotResults.NothingToWorkOn | domains/ingestion/extract/ckan/src/snapshot.rs:425-476 | an archive or extraction that is gone when a stage needs it is an error of that stage, which clears up |
| SnapshotRecovery.RecoveryCompletes | domains/ingestion/extract/ckan/src/snapshot.rs:327-525 | from every reachable uninstalled disk, one fault-free run on a processable archive with an accepted hash publishes, and what it publishes converts that archive's own members |
| SnapshotConvergence.RecoveryConvergesIff | domains/ingestion/extract/ckan/src/snapshot.rs:208-525 | the exact condition: after every history of runs served one archive and not misled about its members, a fault-free run publishes every `.txt` member if and only if no member with a new stem comes after the required ones are complete; when members of one stem convert alike, that is also exactly when it always publishes what an uninterrupted run would; with distinct stems the condition says that no `.txt` member comes that late |
| SnapshotConvergence.RecoveryConverges | domains/ingestion/extract/ckan/src/snapshot.rs:327-525 | for an archive, optional members included, with no late stem and members of one stem converting alike, a run after any crashes publishes every member and the very files and hash of a never-interrupted run, when no earlier run was misled about them |
| SnapshotConvergence.LateMemberIsLost | domains/ingestion/extract/ckan/src/snapshot.rs:231-237 | a late member is lost after the history of one single crash, and what is then published differs from an uninterrupted run |
| SnapshotConvergence.MisledOverLosesMember | domains/ingestion/extract/ckan/src/snapshot.rs:208-366 | the condition on inspections is needed as well: on any disk with the archive staged, a run misled about a member can be stopped so that what ends up installed lacks a member, even if the last run has no fault |
| SnapshotConvergence.HistoryTracks | domains/ingestion/extract/ckan/src/snapshot.rs:327-483 | with nothing late and no run misled, over any history the staged archive is the served one, its extraction a prefix in archive order, and a Parquet staging without extraction covers every `.txt` member |
| SnapshotConvergence.NothingLateIff | domains/ingestion/extract/ckan/src/archive.rs:112-122 | with distinct stems, no new stem after a valid partial extraction means that no `.txt` member at all follows one, although a later member could overwrite a required one |
| SnapshotConvergence.OnlyRequiredIsNeverLate | domains/ingestion/extract/ckan/src/archive.rs:112-122 | nothing is late when all `.txt` members are required ones, in any order |
| SnapshotSafety.PlanFromGood | domains/ingestion/extract/ckan/src/snapshot.rs:357-525 | from any stage on, after an inspection that does not mislead, every operation keeps the disk invariant, success publishes exactly the files determined by what is staged, failure installs nothing, and a fault-free run on a processable archive succeeds |
| SnapshotSafety.TrustedConversionIsComplete | domains/ingestion/extract/ckan/src/snapshot.rs:266-299 | under the invariant, the non-empty check on staging, when it sees everything, is enough to imply a converted file for every required member |
| SnapshotSafety.DiscardGood | domains/ingestion/extract/ckan/src/snapshot.rs:357-366 | unless the inspection misled the run, discarding the extraction and then the conversion keeps the invariant at each point and leaves what the next stage needs |
| SnapshotSafety.FetchGood | domains/ingestion/extract/ckan/src/snapshot.rs:368-407 | download or reuse leaves the archive staged together with an outcome that describes it |
| SnapshotSafety.VerifyGood | domains/ingestion/extract/ckan/src/snapshot.rs:409-423 | only an archive with an accepted hash gets past verification; a rejected one is dropped and nothing is installed |
| SnapshotSafety.ExtractGood | domains/ingestion/extract/ckan/src/snapshot.rs:425-451 | extraction, complete, failed or cut short at any member, keeps staging derived from the archive; on success all required members are there |
| SnapshotSafety.ConvertGood | domains/ingestion/extract/ckan/src/snapshot.rs:453-483 | conversion in any directory order, stopped or failing at any write, never leaves a partial Parquet staging that passes for complete |
| SnapshotSafety.PublishGood | domains/ingestion/extract/ckan/src/snapshot.rs:485-525 | replace, rename, drop and sidecar write keep the invariant at every point and end with the staged files installed under a matching sidecar |
| SnapshotSafety.ConversionIsComplete | domains/ingestion/extract/ckan/src/parquet_convert.rs:43-64 | when every `.txt` file converts, the result holds a file for every required member, in whatever order the directory is listed |
| SnapshotLimits.LeftoversAfterSuccess | domains/ingestion/extract/ckan/src/snapshot.rs:453-503 | a successful run that was not misled leaves an extraction behind if and only if it resumed as Converted beside one or overlooked the one it had converted, and never an archive or Parquet staging |
| SnapshotLimits.LaterMemberCanBeLost | domains/ingestion/extract/ckan/src/snapshot.rs:231-237 | once the required members are on disk, a crash right there loses the conversion of every later member with a new stem although the next run succeeds without a fault |
| SnapshotTearing.TornWriteDefeatsRecovery | domains/ingestion/extract/ckan/src/snapshot.rs:293-298 | atomic file writes are needed: from an empty disk, a run whose last Parquet write stops half-way and then a run without a fault publish a file that converts no member |
| SnapshotTearing.HalfRemovalDefeatsRecovery | domains/ingestion/extract/ckan/src/snapshot.rs:255-275 | atomic directory removal is needed: from an empty disk, a run whose sweep stops half-way, a run whose removal of the conversion stops half-way and then a run without a fault publish an incomplete conversion |
| SnapshotAssumptions.SilentCleanUpDefeatsRecovery | domains/ingestion/extract/ckan/src/snapshot.rs:470-476 | ignored clean-up must succeed: from an empty disk, a run whose conversion fails after one file and whose clean-up removes neither archive nor conversion, and then a run without a fault, publish an incomplete conversion |
| SnapshotAssumptions.OverlookedExtractionDefeatsRecovery | domains/ingestion/extract/ckan/src/snapshot.rs:361-363 | the existence tests must see what is there: from an empty disk, with an archive that upstream replaces, a run that overlooks the old extraction and then a run without a fault publish the old members under the hash of the new archive |
| SnapshotLimits.TrustedAsIs | domains/ingestion/extract/ckan/src/snapshot.rs:266-299 | with no assumption on the disk at all, a Parquet staging that passes the resume check, whatever that missed, is published unchanged, in place of any directory already there |
| StagingAreas.StagingArea.RunStages | domains/ingestion/extract/ckan/src/snapshot.rs:327-525 | run_stages, updating the staging area in place, performs exactly the operations of its plan in order and returns the plan's result |
| StagingAreas.StagingArea.Discard | domains/ingestion/extract/ckan/src/snapshot.rs:357-366 | removes exactly what is about to be redone, stopping at the first removal that fails |
| StagingAreas.StagingArea.Fetch | domains/ingestion/extract/ckan/src/download.rs:38-103 | writes and promotes a complete transfer; a cut or refused one leaves no partial file |
| StagingAreas.StagingArea.Verify | domains/ingestion/extract/ckan/src/snapshot.rs:409-423 | drops the archive exactly when upstream gives 64 hexadecimal digits that differ, case aside, from its hash, and otherwise changes nothing |
| StagingAreas.StagingArea.Extract | domains/ingestion/extract/ckan/src/snapshot.rs:425-451 | performs the extract stage, including its clean-up when the archive is rejected |
| StagingAreas.StagingArea.ValidateAndExtract | domains/ingestion/extract/ckan/src/archive.rs:48-62 | validates, extracts entry by entry and re-checks on disk; succeeds exactly for an extractable archive without a failing write |
| StagingAreas.StagingArea.Convert | domains/ingestion/extract/ckan/src/snapshot.rs:453-483 | performs the convert stage, including the removal of everything staged when a member does not convert |
| StagingAreas.StagingArea.ConvertDirectory | domains/ingestion/extract/ckan/src/parquet_convert.rs:43-64 | converts in listing order up to the first member that does not convert or cannot be written |
| StagingAreas.StagingArea.Publish | domains/ingestion/extract/ckan/src/snapshot.rs:485-525 | performs the publish stage and returns the sidecar it wrote |
| SnapshotProcess.ProcessSnapshot | domains/ingestion/extract/ckan/src/snapshot.rs:114-164 | claim, stages, complete: a record that is not QUEUED leaves disk and records untouched; otherwise the disk has gone through exactly its plan, the record is PUBLISHED or FAILED with the message as the plan's result says, one attempt more, and no other record changes |
| SnapshotProcess.RecordFiles.Persist | domains/ingestion/extract/ckan/src/snapshot.rs:174-182 | a best-effort record write stores the one record, changes nothing, or leaves none for its version |
| Archive.ValidateMembers | domains/ingestion/extract/ckan/src/archive.rs:67-101 | accepts exactly the archives whose members are all intact, whose required members' last entries carry data and whose optional members' last entries, if any, do; otherwise reports the first problem in check order |
| Archive.DownloaderMembers | domains/ingestion/extract/ckan/src/archive.rs:14-24 | spelled out for the downloader: the five members that must carry data and the two that must not be empty |
| Archive.CountsAs | domains/ingestion/extract/ckan/src/archive.rs:124-134 | an entry counts under its lower-cased name at the top level, and not at all inside a directory |
| Archive.VerifyExtractedMembers | domains/ingestion/extract/ckan/src/archive.rs:112-122 | accepts exactly a directory with every required member non-empty under its exact name; otherwise names the first one at fault |
| Archive.SoundArchiveAcceptedIffExactNames | domains/ingestion/extract/ckan/src/archive.rs:112-134 | names match in any case before extraction but exactly after it, so a sound archive is accepted if and only if each required member's last exact spelling carries data |
| Archive.CapitalisedMemberRejected | domains/ingestion/extract/ckan/src/archive.rs:124-134 | a witness: the five required members with one spelled `Stops.txt` pass the first check and fail the second |
| Archive.ExtractedFromArchive | domains/ingestion/extract/ckan/src/archive.rs:55-57 | after any number of entries, everything extracted is a member of the archive, byte for byte |
| Snapshot.RequiredAreTxt | domains/ingestion/extract/ckan/src/archive.rs:14-20 | the downloader's own required members are all top-level `.txt` files, which is what the staging theorems ask of them |
| Snapshot.ConvertedName | domains/ingestion/extract/ckan/src/parquet_convert.rs:43-64 | `stem.txt`, and `stem.TXT`, are converted to `stem.parquet` |
| Snapshot.NotConverted | domains/ingestion/extract/ckan/src/parquet_convert.rs:43-64 | nothing else is converted: no nested file, no other extension, no bare `.txt` |
| Domain.Parse | domains/ingestion/extract/ckan/src/domain.rs:20-26 | a version id parses if and only if it is eight ASCII digits |
| Domain.ParsePrinted | domains/ingestion/extract/ckan/src/domain.rs:20-36 | parsing a printed version id gives it back |
| Domain.PrintParsed | domains/ingestion/extract/ckan/src/domain.rs:20-36 | whatever parses prints as the string that was parsed |
| Domain.OrderIsNumeric | domains/ingestion/extract/ckan/src/domain.rs:13-16 | the derived string order of version ids is numeric, that is date, order |
| Domain.ParsePrintedDirName | domains/ingestion/extract/ckan/src/domain.rs:69-99 | parsing a printed directory name gives the lowercased prefix and the version, for any prefix, underscores included, and any lower-casing function |
| Domain.ParsePublishedFilename | domains/ingestion/extract/ckan/src/domain.rs:76-99 | the current and the hyphenated file name, with either extension case, name the same prefix and version, for any lower-casing function |
| Domain.DirNameInjective | domains/ingestion/extract/ckan/src/domain.rs:69-74 | a directory name determines both the prefix and the version it was made from |
| Paths.ArtifactPathsIsolated | domains/ingestion/extract/ckan/src/paths.rs:21-53 | for prefixes without a leading dot, two of the five artifact paths coincide if and only if kind, prefix and version all do |
| Paths.ArtifactPathsSpelled | domains/ingestion/extract/ckan/src/paths.rs:21-53 | the five places of one version, spelled out |
| Paths.ScanPassesOver | domains/ingestion/extract/ckan/src/paths.rs:89-94 | the scan passes over the link and every hidden name, and over nothing else |
| Paths.PublishedDirIsScanned | domains/ingestion/extract/ckan/src/paths.rs:89-94 | a published directory is recognised by the sidecar scan if and only if its prefix has no leading dot |
| Paths.FileNameOfFinalDir | domains/ingestion/extract/ckan/src/pipeline.rs:602-607 | the directory name is read back from the path recorded in the sidecar |
| WorkStates.VersionWork.Begin | domains/ingestion/extract/ckan/src/work_state.rs:139-151 | accepted exactly from QUEUED; counts the attempt, records the owner and clears the previous outcome |
| WorkStates.VersionWork.MarkPublished | domains/ingestion/extract/ckan/src/work_state.rs:160-168 | accepted exactly from RUNNING or, changing nothing, from PUBLISHED |
| WorkStates.VersionWork.MarkFailed | domains/ingestion/extract/ckan/src/work_state.rs:173-179 | accepted exactly from RUNNING; records the error and the time and drops the owner |
| WorkStates.VersionWork.RecoverStale | domains/ingestion/extract/ckan/src/work_state.rs:194-199 | accepted exactly from the states with an edge to QUEUED; drops the owner and the start time |
| WorkStates.VersionWork.ObservePublished | domains/ingestion/extract/ckan/src/work_state.rs:220-227 | whatever the state was, the record is PUBLISHED; it is unchanged if it was before, and else without owner and completed now, all other fields untouched |
| WorkStates.RecordLife | domains/ingestion/extract/ckan/src/work_state.rs:68-228 | over any sequence of operations the attempt counter is the number of accepted claims, the fields fit the state, and identity never changes |
| WorkStates.OwnedOnlyWhileRunning | domains/ingestion/extract/ckan/src/work_state.rs:122-228 | an owner is recorded only while RUNNING, as long as a claimed record is never requeued as if new or failed |
| WorkStates.PublishedIsFinal | domains/ingestion/extract/ckan/src/work_state.rs:122-228 | no operation changes a PUBLISHED record |
| WorkStates.ClaimThenFinish | domains/ingestion/extract/ckan/src/work_state.rs:139-179 | from QUEUED a claim and then either way of finishing are always accepted, so the unwraps after a run never fail |
| Reconciliation.Reconcile | domains/ingestion/extract/ckan/src/reconcile.rs:89-171 | one pass over the listed versions, updating the records in place, meets the declarative specification of records and all four lists |
| ReconciliationProperties.InstalledIsPublished | domains/ingestion/extract/ckan/src/reconcile.rs:116-122 | after a pass a listed, installed version at or above the cutoff is PUBLISHED: unchanged if it was, else its record or a new one with no owner and completed now, attempts and last error untouched |
| ReconciliationProperties.EligibleIsQueued | domains/ingestion/extract/ckan/src/reconcile.rs:124-150 | an eligible version's record after a pass is its own, requeued, or a new one with the URL of the first resource listing it, in state QUEUED |
| ReconciliationProperties.OthersAreRequeued | domains/ingestion/extract/ckan/src/reconcile.rs:85-115 | every other record only changes if it was RUNNING, to QUEUED without owner and start time, and no other version gets one |
| ReconciliationProperties.ListsExactly | domains/ingestion/extract/ckan/src/reconcile.rs:85-150 | the other three lists, exactly: below the cutoff, recorded PUBLISHED but not installed, found RUNNING |
| ReconciliationProperties.SortIsStable | domains/ingestion/extract/ckan/src/reconcile.rs:102-103 | resources listing one version stay in upstream order, so a new record takes the URL of the first |
| Reconciliation.RecoverAllStaleRunning | domains/ingestion/extract/ckan/src/work_state.rs:279-289 | requeues exactly the RUNNING records and lists them in version order |
| Reconciliation.SweptIsSettled | domains/ingestion/extract/ckan/src/reconcile.rs:108-162 | visiting the resources one by one, duplicates included, leaves every record as the closed form says |
| ReconciliationProperties.EligibleExactly | domains/ingestion/extract/ckan/src/reconcile.rs:99-162 | eligible is exactly the listed versions at or above the cutoff, not installed and not believed PUBLISHED; strictly increasing for distinct versions |
| ReconciliationProperties.OfferedOnceIff | domains/ingestion/extract/ckan/src/reconcile.rs:101-145 | each eligible version is offered once if and only if upstream lists no eligible version twice: the pass does not remove duplicates |
| ReconciliationProperties.EligibleAreClaimable | domains/ingestion/extract/ckan/src/reconcile.rs:124-156 | every eligible version has a QUEUED record that can be claimed and a listed resource, so the lookups and the claim downstream never fail |
| ReconciliationProperties.OthersOnlyRecovered | domains/ingestion/extract/ckan/src/reconcile.rs:99-122 | records of unlisted, below-cutoff and diverged versions change only by stale-RUNNING recovery |
| ReconciliationProperties.PublishedOnlyIfInstalled | domains/ingestion/extract/ckan/src/reconcile.rs:116-160 | a pass makes a record PUBLISHED only for an installed version |
| ReconciliationProperties.NothingDiverges | domains/ingestion/extract/ckan/src/reconcile.rs:157-159 | when every PUBLISHED record belongs to an installed version the diverged list is empty |
| ReconciliationProperties.ReconcileIdempotent | domains/ingestion/extract/ckan/src/reconcile.rs:89-171 | for any prior records and clocks, running the pass on its own output reproduces the records and the lists and recovers nothing |
| ReconciliationProperties.ReconcileOrderIndependent | domains/ingestion/extract/ckan/src/reconcile.rs:101-171 | for distinct versions the whole outcome is the same for every permutation of the upstream list |
| Rollup.ScanSidecars | domains/ingestion/extract/ckan/src/manifest.rs:79-113 | finds the sidecars of the recognised directories, a later listed directory of the same version replacing an earlier one |
| Rollup.ScanIgnoresOrder | domains/ingestion/extract/ckan/src/manifest.rs:79-113 | while each version has one directory, the listing order does not matter |
| Rollup.NewestVerified | domains/ingestion/extract/ckan/src/manifest.rs:162-166 | the greatest version with a verified sidecar, or none when there is none |
| Rollup.RebuildManifest | domains/ingestion/extract/ckan/src/manifest.rs:157-200 | exactly the installed and the failed versions: a failed one is Failed without a path, any other carries its sidecar's path and is Verified if and only if its own sidecar is verified and no newer one is, Superseded otherwise |
| Rollup.RollupIsUnique | domains/ingestion/extract/ckan/src/manifest.rs:157-200 | a manifest is determined by the sidecars and this run's failures |
| Pipeline.DrainResults | domains/ingestion/extract/ckan/src/pipeline.rs:452-471 | the drain loop leaves the books of absorbing the results in arrival order |
| Pipeline.ArrivalOrderIsIrrelevant | domains/ingestion/extract/ckan/src/pipeline.rs:452-471 | for distinct versions any arrival order of the same results gives the same books |
| Pipeline.SucceededCountsOk | domains/ingestion/extract/ckan/src/pipeline.rs:485-485 | attempted minus failed never underflows and is the number of Ok outcomes |
| Pipeline.VerifyLatestConsistency | domains/ingestion/extract/ckan/src/pipeline.rs:570-600 | passes if and only if the link names the directory of the manifest's newest version, or both are absent |
| Pipeline.AdvanceLatestIfNeeded | domains/ingestion/extract/ckan/src/pipeline.rs:543-565 | repoints the link at the newest verified version and leaves it alone when there is none |
| ConcurrentPhase.ScheduleIndependentBooks | domains/ingestion/extract/ckan/src/pipeline.rs:439-485 | every schedule of producer, workers and drain loop that runs to its end yields the books of processing the versions one at a time, and `succeeded` counts the Ok outcomes |
| QueueSafety.EveryScheduleIsSafe | domains/ingestion/extract/ckan/src/queue.rs:118-152 | in every reachable state, cancellations included, each item is in exactly one place, the receiver's lock is held by the receiving worker, and every permit is free or held by one worker |
| QueueSafety.ResourceBounds | domains/ingestion/extract/ckan/src/concurrency.rs:87-156 | in every reachable state, in the configured numbers with 0 read as 1: at most max_queued items wait, at most the larger of max_queued and max_active results, there are max_active workers, each pool's free and held permits add up to its own configured number, and at most one permit is held for each busy worker |
| QueueSafety.PermitIsNeeded | domains/ingestion/extract/ckan/src/queue.rs:131-146 | in every schedule a worker only ever holds a permit that its own item needs |
| SnapshotPermits.PermitsAsResumeDecides | domains/ingestion/extract/ckan/src/snapshot.rs:343-466 | a run takes the permits its resume decision asks for in order, download then extraction and conversion from the other pool: all of them when it succeeds, those of the stages reached otherwise |
| SnapshotPermits.HeavyWorkHoldsPermit | domains/ingestion/extract/ckan/src/snapshot.rs:373-470 | network writes happen only in a stage holding a download permit, member and Parquet writes only in one holding a processing permit |
| WholeRun.PermitsFollowResume | domains/ingestion/extract/ckan/src/concurrency.rs:127-156 | in every schedule of the queue over the versions on disk, a download permit is held only for a version whose resume decision is to download, and a processing permit only for one with something left to extract or convert |
| QueueSafety.StepConserves | domains/ingestion/extract/ckan/src/queue.rs:131-146 | no step of producer, worker, drain loop or cancellation loses or duplicates an item |
| QueueSafety.StepKeepsPermits | domains/ingestion/extract/ckan/src/concurrency.rs:127-156 | acquire, release and cancellation keep free plus held permits at capacity |
| QueueLiveness.Progress | domains/ingestion/extract/ckan/src/pipeline.rs:439-476 | deadlock freedom: every reachable non-final state has an enabled step other than a cancellation |
| QueueLiveness.StepDrops | domains/ingestion/extract/ckan/src/queue.rs:118-152 | every step, cancellations included, strictly decreases the measure |
| QueueLiveness.EveryScheduleEnds | domains/ingestion/extract/ckan/src/pipeline.rs:439-476 | every schedule has bounded length, and one that cannot go on has ended with the producer done, all workers exited and all results drained |
| QueueLiveness.EveryItemDeliveredOnce | domains/ingestion/extract/ckan/src/queue.rs:101-152 | an uncancelled schedule that has ended drained exactly one result per enqueued item, namely the item's outcome |
| QueueLiveness.SequentialDrainingLimit | domains/ingestion/extract/ckan/src/pipeline.rs:26-34 | the exact limit of draining late, in the configured numbers with 0 read as 1: every maximal drain-free schedule has enqueued all n items if and only if n is at most max_queued + max_active + the larger of the two, and otherwise is jammed with both channels full and every worker handing back |
| QueueLiveness.StoppedProducerMeansJam | domains/ingestion/extract/ckan/src/queue.rs:131-146 | without draining, a producer that still has work is stopped only by full channels and workers that all hold results |
| WorkPools.WorkPool.RunToEnd | domains/ingestion/extract/ckan/src/queue.rs:108-153 | in place and under any scheduler, the run terminates with every item's outcome delivered exactly once |
| WorkPools.WorkPool.Enqueue | domains/ingestion/extract/ckan/src/queue.rs:81-83 | puts the next item into the input channel exactly when it holds fewer than max_queued items and some worker lives, and blocks otherwise |
| WorkPools.WorkPool.Receive | domains/ingestion/extract/ckan/src/queue.rs:133-140 | under the lock, takes an item or notices the end of the channel; the lock is free again either way |
| WorkPools.WorkPool.Acquire | domains/ingestion/extract/ckan/src/concurrency.rs:127-156 | takes one permit of the very pool asked for exactly when one is free |
| WorkPools.WorkPool.Release | domains/ingestion/extract/ckan/src/concurrency.rs:66-85 | gives the permit back when the guarded call is over, however it ended |
| WorkPools.WorkPool.Send | domains/ingestion/extract/ckan/src/queue.rs:141-144 | hands a result over exactly when the result channel holds fewer than the larger of max_queued and max_active |
| WorkPools.WorkPool.Cancel | domains/ingestion/extract/ckan/src/concurrency.rs:120-126 | a dropped worker gives back its lock and permit, and its item is lost |
| SystemSafety.EveryHistoryIsSafe | domains/ingestion/extract/ckan/src/pipeline.rs:247-511 | from an empty store, over any number of invocations none of whose runs is misled, interleavings, lost or torn record writes and crashes: PUBLISHED records belong to installed versions, each version has at most one installed directory under its own name, and `latest` names an installed one |
| SystemSafety.StepKeepsInv | domains/ingestion/extract/ckan/src/pipeline.rs:247-511 | every step of an invocation, and a crash at any point, keeps the whole-system invariant |
| SystemSafety.SightedMisleadsNone | domains/ingestion/extract/ckan/src/snapshot.rs:208-238 | over a reachable store an invocation whose inspections see every staged archive and extraction misleads none of its runs, so its input is admissible |
| SystemSafety.ScanShows | domains/ingestion/extract/ckan/src/manifest.rs:79-113 | over a reachable store the sidecar scan, in any order, finds exactly the installed snapshots |
| SystemSafety.TransitionsNeverFail | domains/ingestion/extract/ckan/src/snapshot.rs:123-157 | a worker's claim and its report are always accepted by the record it was handed |
| SystemSafety.ClaimPlansFromDisk | domains/ingestion/extract/ckan/src/snapshot.rs:336-343 | when a worker claims its version, its plan is the one that version's disk calls for at that moment, whatever the other workers have done |
| SystemSafety.FinalBooksShow | domains/ingestion/extract/ckan/src/pipeline.rs:452-471 | at the end of an invocation the in-memory map of installed versions is what a fresh scan of the store would find |
| SystemHistories.NothingEverDiverges | domains/ingestion/extract/ckan/src/reconcile.rs:61-67 | at the start of every invocation that reads every sidecar, after any history, no PUBLISHED record lacks its snapshot |
| SystemHistories.InstalledForever | domains/ingestion/extract/ckan/src/snapshot.rs:485-522 | over any history whose scans read every sidecar an installed directory and its sidecar are never removed or rewritten, so the installed set only grows |
| UnreadSidecars.NothingDivergesIff | domains/ingestion/extract/ckan/src/manifest.rs:64-73 | the exact condition when sidecars cannot be read: nothing is reported as diverged if and only if no listed version at or above the cutoff that is recorded PUBLISHED has such a sidecar |
| UnreadSidecars.NoneOfferedAgainIff | domains/ingestion/extract/ckan/src/manifest.rs:64-73 | and no installed version is offered to the workers again if and only if every listed version at or above the cutoff with such a sidecar is recorded PUBLISHED |
| UnreadSidecars.OfferedAgainCanBeLost | domains/ingestion/extract/ckan/src/snapshot.rs:490-499 | a successful run on an installed version removes the installed directory first: stopped right then, it leaves no snapshot of that version |
| SystemHistories.BeginAcceptsIff | domains/ingestion/extract/ckan/src/pipeline.rs:267-277 | an invocation passes its startup check if and only if `latest` names the newest installed snapshot |
| SystemHistories.CompleteRepairsLatest | domains/ingestion/extract/ckan/src/pipeline.rs:480-483 | a completed invocation leaves `latest` at the newest installed snapshot, so the next startup check passes |
| SystemHistories.RejectionNeedsInterruption | domains/ingestion/extract/ckan/src/pipeline.rs:480-480 | the check of the next invocation will reject if and only if this one crashed after publishing a version newer than all installed before it |
| SystemHistories.RejectionIsPermanent | domains/ingestion/extract/ckan/src/pipeline.rs:277-277 | once the startup check rejects, every later invocation is rejected and, swept partial downloads aside, the store never changes again |
| SystemHistories.LatestMovesForward | domains/ingestion/extract/ckan/src/pipeline.rs:540-565 | over any history `latest` never moves to an older version and always names an installed snapshot |
| SystemHistories.ScheduleIndependence | domains/ingestion/extract/ckan/src/pipeline.rs:36-50 | for distinct versions, all interleavings of the workers' operations that run to the end leave the same disks, records and books, and then the same `latest` |
| SystemHistories.FavourableVersionIsPublished | domains/ingestion/extract/ckan/src/pipeline.rs:417-433 | in a finished invocation an eligible version whose own calls all succeed is published, whatever earlier crashes left of it and whatever happened to the others |
| WholeRun.BooksMatchStore | domains/ingestion/extract/ckan/src/pipeline.rs:439-497 | any finished queue schedule over any finished interleaving gives books equal to a fresh scan; `succeeded` counts the published eligible versions and no failed version is installed |
| WholeRun.InvocationNeverStuck | domains/ingestion/extract/ckan/src/pipeline.rs:443-476 | until an invocation can complete, some version can take its next step |
| WholeRun.InvocationIsBounded | domains/ingestion/extract/ckan/src/snapshot.rs:114-164 | every interleaving of an invocation's workers is bounded in length by what their versions still have to go through |
| WholeRun.InvocationCanFinish | domains/ingestion/extract/ckan/src/pipeline.rs:443-476 | from every reachable state of an invocation its workers can be run until it can complete |
| Rejections.RejectionIsReachable | domains/ingestion/extract/ckan/src/pipeline.rs:277-277 | from a new system, any first invocation that lists a version whose archive is served and processable can be run to a crash after which the next startup check rejects |
| Rejections.ConcreteRejection | domains/ingestion/extract/ckan/src/snapshot.rs:70-70 | one concrete input with the downloader's own member lists: a history of one invocation and one crash after which no invocation ever gets past its startup check |
| Rejections.RejectionFromInside | domains/ingestion/extract/ckan/src/pipeline.rs:473-480 | from any state inside an invocation that will publish something newer than all before it, the workers can be run to a crash that leaves `latest` behind |
| Downloaders.Downloader.CleanStaging | domains/ingestion/extract/ckan/src/pipeline.rs:528-538 | removes every partial download and nothing else |
| Downloaders.Downloader.Start | domains/ingestion/extract/ckan/src/pipeline.rs:267-303 | sweep, scan, manifest, startup check and reconciliation together make exactly the first step of an invocation, or reject |
| Downloaders.Downloader.Finish | domains/ingestion/extract/ckan/src/pipeline.rs:452-483 | whatever the arrival order of the results, books, `latest` and manifest end as the completing step says |
| SubsetProperties.TripUniverse | domains/ingestion/transform/ingestion/transform/subset.py:35-51 | a trip row is in the subset, with its multiplicity, if and only if some stop time of the trip is at a stop whose name starts with the prefix |
| SubsetProperties.StopUniverse | domains/ingestion/transform/ingestion/transform/subset.py:31-33 | a stop row is in the subset, with its multiplicity, if and only if its name is the prefix followed by anything |
| SubsetProperties.TripIdUniverse | domains/ingestion/transform/ingestion/transform/subset.py:35-43 | the trip ids, each once, are those of the stop times at such stops |
| SubsetProperties.StopTimeUniverse | domains/ingestion/transform/ingestion/transform/subset.py:142-148 | a stop time is in the subset when its trip serves such a stop, and internal or crossing by whether a listed trip never leaves them |
| SubsetProperties.RouteUniverse | domains/ingestion/transform/ingestion/transform/subset.py:53-59 | a route row is in the subset if and only if some subset trip runs on it |
| SubsetProperties.TripTypeMeans | domains/ingestion/transform/ingestion/transform/subset.py:61-89 | every subset trip is classified, and equal counts mean exactly that all its stop times are at Zurich stops |
| SubsetProperties.TripsPartition | domains/ingestion/transform/ingestion/transform/subset.py:91-102 | internal and crossing trips partition the subset trips as multisets, by whether the trip ever leaves Zurich |
| SubsetProperties.RoutesPartition | domains/ingestion/transform/ingestion/transform/subset.py:104-140 | internal, crossing and mixed routes partition the subset routes exactly by the kinds of their subset trips; the inner joins lose none |
| SubsetProperties.StopTimesPartitionIff | domains/ingestion/transform/ingestion/transform/subset.py:241-243 | internal and crossing stop times partition the subset's stop times if and only if each of those belongs to a trip of the trips table |
| SubsetProperties.InternalStopsAreInSubset | domains/ingestion/transform/ingestion/transform/subset.py:142-148 | the stop of every internal stop time is a subset stop, with no assumption on the tables |
| SubsetProperties.DerivationIsClosure | domains/ingestion/transform/ingestion/transform/subset.py:226-262 | run again on its own stops, trips, routes and stop times the derivation gives the same tables and classifications; the same trip-id list if and only if that holds no null |
| Tables.SemiJoinMembers | domains/ingestion/transform/ingestion/transform/subset.py:39-41 | a semi join keeps exactly the rows with a matching non-null key, each as often as it was |
| Tables.CountsAgree | domains/ingestion/transform/ingestion/transform/subset.py:70-89 | a key counts as many rows after a filter as before if and only if the filter drops none of its rows |
| Tables.AntiJoinCounts | domains/ingestion/transform/ingestion/transform/validate.py:98-121 | an anti join keeps as many rows as have a value that no parent row has |
| Tables.NullCountIs | domains/ingestion/transform/ingestion/transform/validate.py:75-81 | the null count is the number of rows without a value in the column |
| Validation.ValidationReport.Validate | domains/ingestion/transform/ingestion/transform/validate.py:124-139 | appends exactly the failures of every check on every table, in order |
| Validation.ValidationReport.CheckRequiredColumns | domains/ingestion/transform/ingestion/transform/validate.py:69-72 | reports exactly the missing required columns, in one failure |
| Validation.ValidationReport.CheckNotNull | domains/ingestion/transform/ingestion/transform/validate.py:75-81 | reports exactly the required columns that are present and hold nulls, with the count |
| Validation.ValidationReport.CheckReferentialIntegrity | domains/ingestion/transform/ingestion/transform/validate.py:98-121 | reports exactly the applicable references with orphans, with the count |
| Validation.PassesIff | domains/ingestion/transform/ingestion/transform/validate.py:124-139 | a snapshot passes if and only if every table in it is sound and every applicable reference holds |
| Validation.FailuresAreTrue | domains/ingestion/transform/ingestion/transform/validate.py:24-121 | in literal columns, references and row ranges: a failure is reported if and only if what it says is so, with the true number of nulls, rows or orphans; missing columns are reported all at once |
| Validation.ReportOrder | domains/ingestion/transform/ingestion/transform/validate.py:124-139 | failures of tables come before failures of references |
| Validation.MissingInOrder | domains/ingestion/transform/ingestion/transform/validate.py:14-19 | a core table without any column is reported with all it should have, in the documented order |
| Validation.GateGivesIntegrity | domains/ingestion/transform/ingestion/transform/validate.py:98-121 | a passing snapshot with all four core tables has no null join key and no dangling reference |
| Validation.GatedSubsetIsConsistent | domains/ingestion/transform/ingestion/transform/subset.py:226-262 | after a passing validation with all four core tables: stop times partition, every subset trip's route and every internal stop time's stop are in the subset, and the derivation is exactly its own fixed point |
| Validation.PassingSurvivesRemoval | domains/ingestion/transform/ingestion/transform/validate.py:98-105 | validation says nothing about absent tables: a passing snapshot still passes with any table left out |
| Validation.TransformSnapshot | domains/ingestion/transform/ingestion/transform/pipeline.py:64-83 | derives the subset exactly from a passing snapshot with the core tables; a failing one yields its failures and an absent table an error |

## Left out

- SystemHistories.InstalledForever: assumes that every sidecar read succeeds; `UnreadSidecars` gives the exact condition and the consequence for one pass, but the histories do not carry such reads on.
- SystemHistories.NothingEverDiverges: assumes the same; `NothingDivergesIff` gives the exact condition.
- SystemSafety.EveryHistoryIsSafe: requires the upstream versions of one listing to be pairwise distinct and plain prefixes, as the program's design does; with a repeated version two workers would share paths.
- SnapshotConvergence.RecoveryConvergesIff: its second equivalence assumes that members converted to one file convert alike, which distinct stems give; otherwise the content kept depends on the directory's listing order.
- SnapshotRecovery.CrashSafePublication: assumes atomic operations, successful ignored clean-up and truthful existence tests, which the four witnesses show to be needed, and runs that are not misled, which is exact.
- Snapshot.RunPlan: errors carry their kind only, not their payload.
- WorkStates.After: the attempt counter is unbounded; its wrap-around at 32 bits is not modelled.
- Domain.Parse: version ids are carried as the number their eight digits spell, which `ParsePrinted`, `PrintParsed` and `OrderIsNumeric` show to lose nothing.
- Archive.ValidateMembers: member names are lower-cased as ASCII; no other character lower-cases into one of the seven names the check looks for.
- Archive.FullExtraction: entries are regular files under plain names; directory entries, path traversal, and directories named like members are not modelled.
- Paths.FileName: covers only paths without trailing separators or `.` and `..` components, which the downloader never builds.
- Subset.BuildZurichSubset: the optional tables (calendar, calendar_dates, agency, frequencies) only repeat the same semi join; rows are lists, compared as multisets.
- WorkQueues.Config: the permits an item asks for and its outcome are any functions of it, which `WholeRun.Processes` ties to the run; panics inside a worker are covered only as cancellation.
- HTTP, TLS, CKAN JSON, the CLI and configuration defaults: plumbing.
- zip, CRC32, SHA-256, CSV and Parquet internals: an archive is a list of named contents with a CRC flag, conversion and hashing are uninterpreted functions.
- The updater lock (`lock.rs`): one invocation at a time is an assumption.
- `bytes_downloaded`: correct only when every new version is newer than all earlier ones.
- The manifest file as a cache: nothing reads it back, so the store does not carry it; `Downloader` keeps it as a field.
- Reading the `latest` link and creating directories may fail with an I/O error; such a run ends as a crash at that point does.
- Telemetry, spans, logging, gauges and summary formatting.
- The real-time ingestion, Redpanda producer, Silver publication and the orchestration around the two programs.
