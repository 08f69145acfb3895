/**
 `process_snapshot` (snapshot.rs): one version from claim to completion, with its control-plane
 record written best-effort on the way.
 */
module SnapshotProcess {
  import opened Wrappers
  import opened Domain
  import opened Manifest
  import opened Snapshot
  import opened StagingAreas
  import opened WorkStates
  import opened Reconciliation
  import opened Pipeline

  /** How a best-effort record write ends; a torn write is later read as no record. */
  datatype Save = Stored | Lost | Corrupted

  /** The record of a version after such a write. */
  function Written(before: Option<Record>, r: Record, save: Save): Option<Record>
  {
    match save
    case Stored => Some(r)
    case Lost => before
    case Corrupted => None
  }

  function Lookup(records: States, v: VersionId): Option<Record>
  {
    if v in records then Some(records[v]) else None
  }

  function Put(records: States, v: VersionId, record: Option<Record>): States
  {
    match record
    case Some(r) => records[v := r]
    case None => records - {v}
  }

  /** What a claimed version hands back once its stages are over: PUBLISHED with the sidecar, or FAILED with the message. */
  function Completed(claimed: Record, result: Result<SnapshotMeta, PipelineError>, now: nat,
          describe: PipelineError -> string): ProcessOutcome
  {
    match result
    case Ok(meta) => ProcessOutcome(After(claimed, WorkOp.Publish(now)), Ok(meta))
    case Err(e) => ProcessOutcome(After(claimed, WorkOp.Fail(describe(e), now)), Err(describe(e)))
  }

  /** Every other record is as it was. */
  predicate OnlyChanges(before: States, after: States, v: VersionId)
  {
    before - {v} == after - {v}
  }

  lemma TwoPuts(before: States, v: VersionId, a: Option<Record>, b: Option<Record>)
    ensures OnlyChanges(before, Put(Put(before, v, a), v, b), v)
  {
  }

  /** The record and result with which a claimed version ends. */
  lemma CompletedMeans(before: Record, worker: Option<string>, result: Result<SnapshotMeta, PipelineError>, now: nat,
          describe: PipelineError -> string)
    requires before.state == Queued
    ensures var o := Completed(After(before, WorkOp.Start(worker, now)), result, now, describe);
      && o.meta == (if result.Ok? then Ok(result.value) else Err(describe(result.error)))
      && o.work.version == before.version
      && o.work.state == (if result.Ok? then WorkState.Published else WorkState.Failed)
      && o.work.attempt == before.attempt + 1 && o.work.workerId == None
      && o.work.startedAt == Some(now) && o.work.completedAt == Some(now)
      && o.work.lastError == (if result.Ok? then None else Some(describe(result.error)))
  {
  }

  /** The directory of control-plane records. */
  class RecordFiles {
    var records: States

    constructor (records: States)
      ensures this.records == records
    {
      this.records := records;
    }

    /** Best-effort: the write may be lost, or tear the file, without the caller noticing. */
    method Persist(r: Record, save: Save)
      modifies this
      ensures records == Put(old(records), r.version, Written(Lookup(old(records), r.version), r, save))
      ensures save == Stored ==> records == old(records)[r.version := r]
      ensures save == Lost ==> records == old(records)
      ensures save == Corrupted ==> records == old(records) - {r.version}
    {
      match save {
        case Stored => records := records[r.version := r];
        case Lost => assert r.version in records ==> records[r.version := records[r.version]] == records;
        case Corrupted => records := records - {r.version};
      }
    }
  }

  /**
   Claim, run the stages, complete. A record that cannot be claimed is handed back with
   nothing touched; otherwise the staging area has gone through exactly the plan for what
   was found on disk, and record and result say how that ended.
   */
  method ProcessSnapshot(area: StagingArea, files: RecordFiles, work: VersionWork, c: Codec, q: Request,
          worker: Option<string>, now: nat, claimSave: Save, endSave: Save, describe: PipelineError -> string,
          rejection: string, ghost plan: Plan)
    returns (meta: Result<SnapshotMeta, string>)
    requires ValidRequest(q) && plan == RunPlan(c, q, area.View())
    modifies area, files, work
    ensures !Accepts(old(work.View()), WorkOp.Start(worker, now)) ==>
      && meta == Err(rejection) && work.View() == old(work.View())
      && files.records == old(files.records) && area.View() == old(area.View()) && area.log == old(area.log)
    ensures Accepts(old(work.View()), WorkOp.Start(worker, now)) ==>
      var claimed := After(old(work.View()), WorkOp.Start(worker, now));
      && area.View() == ApplyAll(plan.ops, old(area.View())) && area.log == old(area.log) + plan.ops
      && ProcessOutcome(work.View(), meta) == Completed(claimed, plan.result, now, describe)
      && var v := claimed.version;
         var first := Written(Lookup(old(files.records), v), claimed, claimSave);
         files.records == Put(Put(old(files.records), v, first), v, Written(first, work.View(), endSave))
    ensures old(work.state) != Queued ==> meta == Err(rejection) && work.View() == old(work.View())
    ensures old(work.state) == Queued ==>
      && (meta.Ok? <==> plan.result.Ok?)
      && meta == (if plan.result.Ok? then Ok(plan.result.value) else Err(describe(plan.result.error)))
      && work.state == (if meta.Ok? then WorkState.Published else WorkState.Failed)
      && work.attempt == old(work.attempt) + 1 && work.workerId == None
      && work.startedAt == Some(now) && work.completedAt == Some(now)
      && work.lastError == (if meta.Ok? then None else Some(meta.error))
      && (endSave == Stored ==> work.version in files.records && files.records[work.version] == work.View())
    ensures OnlyChanges(old(files.records), files.records, work.version)
  {
    ghost var before := work.View();
    var started := work.Begin(worker, now);
    if started.Err? {
      return Err(rejection);
    }
    CompletedMeans(before, worker, plan.result, now, describe);
    ghost var claimed := work.View();
    files.Persist(work.View(), claimSave);
    var result := area.RunStages(c, q, plan);
    match result {
      case Ok(m) =>
        var published := work.MarkPublished(now);
        meta := Ok(m);
      case Err(e) =>
        var failed := work.MarkFailed(describe(e), now);
        meta := Err(describe(e));
    }
    files.Persist(work.View(), endSave);
    ghost var first := Written(Lookup(old(files.records), claimed.version), claimed, claimSave);
    TwoPuts(old(files.records), claimed.version, first, Written(first, work.View(), endSave));
  }
}
