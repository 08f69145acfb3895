/** Which permits a run takes, one after the other, as the resume decision asks for them (snapshot.rs, concurrency.rs). */
module SnapshotPermits {
  import opened Archive
  import opened Snapshot
  import Q = WorkQueues

  /** The permit a stage holds while it does its work, if it needs one. */
  function StagePermits(q: Request, s: Stage): seq<Q.Pool>
  {
    match s
    case Fetching(resume) => if NeedDownload(resume) then [Q.Download] else []
    case Extracting(resume, _) => if NeedExtract(resume) && !q.faults.makeExtraction then [Q.Processing] else []
    case Converting(resume, _) => if NeedConvert(resume) && !q.faults.makeParquet then [Q.Processing] else []
    case _ => []
  }

  /** The permits taken from stage `s` on, in order. */
  function PermitsFrom(c: Codec, q: Request, s: Stage, d: Disk): seq<Q.Pool>
    decreases StagesLeft(s)
  {
    StagePermits(q, s) +
    match RunStage(c, q, s, d)
    case Go(ops, next) => PermitsFrom(c, q, next, ApplyAll(ops, d))
    case _ => []
  }

  /** The permits a whole run takes. */
  function PermitsOf(c: Codec, q: Request, d: Disk): seq<Q.Pool>
  {
    var d0 := Apply(DeletePart, d);
    PermitsFrom(c, q, Discarding(FindResumePoint(c, q.faults.missed, d0)), d0)
  }

  function Asked(needed: bool, p: Q.Pool): seq<Q.Pool>
  {
    if needed then [p] else []
  }

  /** The permits the resume decision asks for: download, then extraction and conversion from one pool. */
  function ResumePermits(resume: ResumePoint): seq<Q.Pool>
  {
    Asked(NeedDownload(resume), Q.Download) + Asked(NeedExtract(resume), Q.Processing) + Asked(NeedConvert(resume), Q.Processing)
  }

  /** What is left of them at stage `s`. */
  function PermitsLeft(s: Stage): seq<Q.Pool>
  {
    match s
    case Discarding(resume) => ResumePermits(resume)
    case Fetching(resume) => ResumePermits(resume)
    case Verifying(resume, _) => Asked(NeedExtract(resume), Q.Processing) + Asked(NeedConvert(resume), Q.Processing)
    case Extracting(resume, _) => Asked(NeedExtract(resume), Q.Processing) + Asked(NeedConvert(resume), Q.Processing)
    case Converting(resume, _) => Asked(NeedConvert(resume), Q.Processing)
    case Publishing(_) => []
  }

  /** A stage takes its own permit first, and all that is left when it is the last. */
  predicate TakesItsPermit(q: Request, s: Stage, run: StageRun)
  {
    && StagePermits(q, s) <= PermitsLeft(s)
    && (run.Go? ==> PermitsLeft(s) == StagePermits(q, s) + PermitsLeft(run.next))
    && (run.Finish? ==> PermitsLeft(s) == StagePermits(q, s))
  }

  lemma LightStageTakesNone(c: Codec, q: Request, s: Stage, d: Disk)
    requires s.Discarding? || s.Verifying? || s.Publishing?
    ensures TakesItsPermit(q, s, RunStage(c, q, s, d))
  {
  }

  lemma FetchTakesItsPermit(c: Codec, q: Request, resume: ResumePoint)
    ensures TakesItsPermit(q, Fetching(resume), FetchStage(c, q, resume))
  {
  }

  lemma ExtractTakesItsPermit(c: Codec, q: Request, resume: ResumePoint, outcome: DownloadOutcome, d: Disk)
    ensures TakesItsPermit(q, Extracting(resume, outcome), ExtractStage(c, q, resume, outcome, d))
  {
  }

  lemma ConvertTakesItsPermit(c: Codec, q: Request, resume: ResumePoint, outcome: DownloadOutcome, d: Disk)
    ensures TakesItsPermit(q, Converting(resume, outcome), ConvertStage(c, q, resume, outcome, d))
  {
  }

  lemma StageTakesItsPermit(c: Codec, q: Request, s: Stage, d: Disk)
    ensures TakesItsPermit(q, s, RunStage(c, q, s, d))
  {
    match s
    case Fetching(resume) => FetchTakesItsPermit(c, q, resume);
    case Extracting(resume, outcome) => ExtractTakesItsPermit(c, q, resume, outcome, d);
    case Converting(resume, outcome) => ConvertTakesItsPermit(c, q, resume, outcome, d);
    case _ => LightStageTakesNone(c, q, s, d);
  }

  lemma {:induction false} PermitsFromAsAsked(c: Codec, q: Request, s: Stage, d: Disk)
    ensures PermitsFrom(c, q, s, d) <= PermitsLeft(s)
    ensures PlanFrom(c, q, s, d).result.Ok? ==> PermitsFrom(c, q, s, d) == PermitsLeft(s)
    decreases StagesLeft(s)
  {
    StageTakesItsPermit(c, q, s, d);
    match RunStage(c, q, s, d)
    case Go(ops, next) => PermitsFromAsAsked(c, q, next, ApplyAll(ops, d));
    case _ =>
  }

  /**
   A run takes the permits its resume decision asks for, in that order: all of them when it
   succeeds, and otherwise those of the stages it reached.
   */
  lemma PermitsAsResumeDecides(c: Codec, q: Request, d: Disk)
    ensures PermitsOf(c, q, d) <= ResumePermits(FindResumePoint(c, q.faults.missed, d))
    ensures RunPlan(c, q, d).result.Ok? ==> PermitsOf(c, q, d) == ResumePermits(FindResumePoint(c, q.faults.missed, d))
  {
    var d0 := Apply(DeletePart, d);
    assert FindResumePoint(c, q.faults.missed, d0) == FindResumePoint(c, q.faults.missed, d);
    PermitsFromAsAsked(c, q, Discarding(FindResumePoint(c, q.faults.missed, d0)), d0);
  }

  lemma {:induction false} ParquetWritesOnly(c: Codec, dir: Files, names: seq<string>)
    requires forall n :: n in names ==> n in dir
    ensures forall op :: op in ParquetWrites(c, dir, names) ==> op.WriteParquet?
    decreases |names|
  {
    if names != [] {
      ParquetWritesOnly(c, dir, names[1..]);
    }
  }

  lemma FillWritesOnly(c: Codec, q: Request, dir: Files)
    ensures forall op :: op in FillWrites(c, q, dir) ==> op.WriteParquet?
  {
    var writes := ParquetWrites(c, dir, Listed(q, dir));
    ParquetWritesOnly(c, dir, Listed(q, dir));
    forall op | op in FillWrites(c, q, dir) ensures op in writes {
    }
  }

  /** What a stage writes: under no permit, nothing of the network, of members or of Parquet files. */
  predicate Permitted(permits: seq<Q.Pool>, op: Op)
  {
    && (op.WritePart? || op.PromotePart? ==> permits == [Q.Download])
    && (op.WriteMember? || op.WriteParquet? ==> permits == [Q.Processing])
  }

  lemma FetchHoldsPermit(c: Codec, q: Request, resume: ResumePoint, op: Op)
    requires op in FetchStage(c, q, resume).ops
    ensures Permitted(StagePermits(q, Fetching(resume)), op)
  {
  }

  lemma ExtractHoldsPermit(c: Codec, q: Request, resume: ResumePoint, outcome: DownloadOutcome, d: Disk, op: Op)
    requires op in ExtractStage(c, q, resume, outcome, d).ops
    ensures Permitted(StagePermits(q, Extracting(resume, outcome)), op)
  {
  }

  lemma ConvertHoldsPermit(c: Codec, q: Request, resume: ResumePoint, outcome: DownloadOutcome, d: Disk, op: Op)
    requires op in ConvertStage(c, q, resume, outcome, d).ops
    ensures Permitted(StagePermits(q, Converting(resume, outcome)), op)
  {
    if d.extraction.Some? {
      FillWritesOnly(c, q, d.extraction.value);
    }
  }

  /** Network work only happens under a download permit, and member and Parquet writes only under a processing one. */
  lemma HeavyWorkHoldsPermit(c: Codec, q: Request, s: Stage, d: Disk, op: Op)
    requires op in RunStage(c, q, s, d).ops
    ensures op.WritePart? || op.PromotePart? ==> StagePermits(q, s) == [Q.Download]
    ensures op.WriteMember? || op.WriteParquet? ==> StagePermits(q, s) == [Q.Processing]
  {
    match s
    case Fetching(resume) => FetchHoldsPermit(c, q, resume, op);
    case Extracting(resume, outcome) => ExtractHoldsPermit(c, q, resume, outcome, d, op);
    case Converting(resume, outcome) => ConvertHoldsPermit(c, q, resume, outcome, d, op);
    case _ =>
  }
}
