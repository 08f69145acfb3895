/**
 What the result of a run means: which archives the upstream-hash check refuses, what a
 sidecar records, and what each failure leaves for the next run (snapshot.rs, domain.rs).
 */
module SnapshotResults {
  import opened Wrappers
  import opened Domain
  import opened Archive
  import opened Manifest
  import opened Snapshot
  import opened SnapshotSafety
  import opened SnapshotRecovery

  // ---- The upstream-hash check ----

  /** The removals that come before the hash check succeed. */
  predicate DiscardsAll(q: Request, resume: ResumePoint, d: Disk)
  {
    && ((resume.FromScratch? || resume.Downloaded?) && d.extraction.Some? ==> !q.faults.dropExtraction)
    && (!resume.Converted? && d.parquet.Some? ==> !q.faults.dropParquet)
  }

  /** An archive is there, or arrives. */
  predicate ObtainsArchive(q: Request, resume: ResumePoint)
  {
    resume.FromScratch? ==> q.reply.Complete? && !q.faults.promote
  }

  /** The plan from stage `s` gets as far as the hash check. */
  predicate ReachesCheck(q: Request, s: Stage, d: Disk)
  {
    match s
    case Discarding(resume) => DiscardsAll(q, resume, d) && ObtainsArchive(q, resume)
    case Fetching(resume) => ObtainsArchive(q, resume)
    case Verifying(_, _) => true
    case _ => false
  }

  /** One stage further on, the plan is just as far from the check. */
  lemma ReachesAlong(c: Codec, q: Request, s: Stage, d: Disk)
    requires s.Discarding? || s.Fetching?
    ensures ReachesCheck(q, s, d) <==>
      var r := RunStage(c, q, s, d); r.Go? && ReachesCheck(q, r.next, ApplyAll(r.ops, d))
    ensures !RunStage(c, q, s, d).Finish?
    ensures RunStage(c, q, s, d).Stop? ==> RunStage(c, q, s, d).error != HashMismatch
  {
  }

  lemma LaterNeverMismatch(c: Codec, q: Request, s: Stage, d: Disk)
    requires s.Extracting? || s.Converting? || s.Publishing?
    ensures PlanFrom(c, q, s, d).result != Err(HashMismatch)
    decreases StagesLeft(s)
  {
    match RunStage(c, q, s, d)
    case Go(ops, next) => LaterNeverMismatch(c, q, next, ApplyAll(ops, d));
    case _ =>
  }

  lemma {:induction false} MismatchIff(c: Codec, q: Request, s: Stage, zip: ZipFile, d: Disk)
    requires Ready(c, q, s, zip, d)
    ensures var plan := PlanFrom(c, q, s, d);
      && (plan.result == Err(HashMismatch) <==>
            ReachesCheck(q, s, d) && !HashAccepted(q.resource.upstreamHash, c.sha256(zip)))
      && (plan.result == Err(HashMismatch) ==> ApplyAll(plan.ops, d).zip.None?)
    decreases StagesLeft(s)
  {
    if s.Discarding? || s.Fetching? {
      ReachesAlong(c, q, s, d);
      AnyStageGood(c, q, s, zip, d);
      match RunStage(c, q, s, d)
      case Go(ops, next) =>
        MismatchIff(c, q, next, zip, ApplyAll(ops, d));
        ApplyAllConcat(ops, PlanFrom(c, q, next, ApplyAll(ops, d)).ops, d);
      case _ =>
    } else if s.Verifying? && !HashAccepted(q.resource.upstreamHash, c.sha256(zip)) {
      ApplyAllSnoc([], DeleteZip, d);
      assert [] + [DeleteZip] == [DeleteZip];
    } else if s.Verifying? {
      AnyStageGood(c, q, s, zip, d);
      LaterNeverMismatch(c, q, RunStage(c, q, s, d).next, d);
    } else {
      LaterNeverMismatch(c, q, s, d);
    }
  }

  /** `zip` is what this run works on: the staged archive if it can be read back, else the one it is sent. */
  predicate WorksOn(q: Request, zip: ZipFile, d: Disk)
  {
    if d.zip.Some? && !q.faults.missed.archive then d.zip == Some(zip)
    else q.reply.Complete? ==> q.reply.zip == zip
  }

  lemma SourceOf(c: Codec, q: Request, zip: ZipFile, d: Disk)
    requires WorksOn(q, zip, d)
    ensures SourceArchive(q, d) == zip ||
      (FindResumePoint(c, q.faults.missed, d).FromScratch? && !q.reply.Complete?)
  {
  }

  /** From a disk that earlier runs can have left, in a run that its inspection does not mislead. */
  ghost predicate Begins(c: Codec, sessions: seq<Session>, q: Request, d: Disk)
  {
    && RequiredNamesTxt(c.lists) && ValidSessions(sessions) && NeverMisled(c, sessions) && ValidRequest(q)
    && d == AfterSessions(c, sessions, EMPTY_DISK)
    && !Installed(d) && !Misled(c, q.faults.missed, d)
  }

  lemma RunMismatchIff(c: Codec, q: Request, d: Disk)
    requires RequiredNamesTxt(c.lists) && ValidRequest(q) && DiskInv(c, d) && !Installed(d)
    requires !Misled(c, q.faults.missed, d)
    ensures RunPlan(c, q, d).result == Err(HashMismatch) <==>
      && ReachesCheck(q, Discarding(FindResumePoint(c, q.faults.missed, d)), d)
      && !HashAccepted(q.resource.upstreamHash, c.sha256(SourceArchive(q, d)))
    ensures RunPlan(c, q, d).result == Err(HashMismatch) ==> RunEnd(c, q, d).zip.None?
  {
    var d0 := Apply(DeletePart, d);
    var s := Discarding(FindResumePoint(c, q.faults.missed, d));
    PartIsIgnored(c, q, d);
    assert FindResumePoint(c, q.faults.missed, d0) == s.resume && !Misled(c, q.faults.missed, d0);
    MismatchIff(c, q, s, SourceArchive(q, d), d0);
    ApplyAllConcat([DeletePart], PlanFrom(c, q, s, d0).ops, d);
    ApplyAllSnoc([], DeletePart, d);
  }

  /**
   The upstream hash decides. After any history, a run that gets as far as the check ends with
   a hash mismatch if and only if upstream gives 64 hexadecimal digits that differ, case aside,
   from the archive's own SHA-256; then no archive is left staged. No other run does, and what
   a successful run records agrees with such a hash.
   */
  lemma HashDecides(c: Codec, sessions: seq<Session>, q: Request, zip: ZipFile, d: Disk)
    requires Begins(c, sessions, q, d) && WorksOn(q, zip, d)
    ensures var plan, up := RunPlan(c, q, d), q.resource.upstreamHash;
      && (plan.result == Err(HashMismatch) <==>
            && ReachesCheck(q, Discarding(FindResumePoint(c, q.faults.missed, d)), d)
            && up.Some? && SixtyFourHex(up.value) && !EqualUpToCase(up.value, c.sha256(zip)))
      && (plan.result == Err(HashMismatch) ==> RunEnd(c, q, d).zip.None? && !Installed(RunEnd(c, q, d)))
      && (plan.result.Ok? && up.Some? && SixtyFourHex(up.value) ==>
            && EqualUpToCase(up.value, c.sha256(zip))
            && EqualUpToCase(up.value, plan.result.value.archiveSha256))
  {
    CrashSafePublication(c, sessions);
    RunMismatchIff(c, q, d);
    RunGood(c, q, d);
    SourceOf(c, q, zip, d);
    if RunPlan(c, q, d).result.Ok? {
      NoArchiveNoSuccess(c, q, d);
    }
    HashAcceptedMeans(q.resource.upstreamHash, c.sha256(zip));
  }

  /** Without an archive nothing is published. */
  lemma NoArchiveNoSuccess(c: Codec, q: Request, d: Disk)
    ensures FindResumePoint(c, q.faults.missed, d).FromScratch? && !q.reply.Complete? ==> RunPlan(c, q, d).result.Err?
  {
    var d0 := Apply(DeletePart, d);
    PartIsIgnored(c, q, d);
    var resume := FindResumePoint(c, q.faults.missed, d0);
    if resume.FromScratch? && !q.reply.Complete? {
      match DiscardStage(q, resume, d0)
      case Go(ops, next) => assert PlanFrom(c, q, next, ApplyAll(ops, d0)).result.Err?;
      case _ =>
    }
  }

  // ---- What a sidecar records ----

  /** What stage `s` will know about the archive once it is there. */
  function OutcomeAt(c: Codec, q: Request, s: Stage): DownloadOutcome
    requires (s.Discarding? || s.Fetching?) && s.resume.FromScratch? ==> q.reply.Complete?
  {
    match s
    case Verifying(_, outcome) => outcome
    case Extracting(_, outcome) => outcome
    case Converting(_, outcome) => outcome
    case Publishing(outcome) => outcome
    case _ =>
      if s.resume.FromScratch? then
        DownloadOutcome(c.size(q.reply.zip), c.sha256(q.reply.zip), q.reply.etag, q.reply.lastModified)
      else s.resume.outcome
  }

  lemma {:induction false} MetaIsFor(c: Codec, q: Request, s: Stage, d: Disk)
    requires PlanFrom(c, q, s, d).result.Ok?
    ensures (s.Discarding? || s.Fetching?) && s.resume.FromScratch? ==> q.reply.Complete?
    ensures PlanFrom(c, q, s, d).result.value == MetaFor(q, OutcomeAt(c, q, s))
    decreases StagesLeft(s)
  {
    match RunStage(c, q, s, d)
    case Go(ops, next) => MetaIsFor(c, q, next, ApplyAll(ops, d));
    case _ =>
  }

  /**
   What a successful run records: the resource's version and URL, the time, the size and hash
   of the archive, the directory; the publisher's modification date, or else the server's when
   this run downloaded; and the server's tag exactly when this run downloaded.
   */
  lemma SidecarRecords(c: Codec, q: Request, zip: ZipFile, d: Disk)
    requires WorksOn(q, zip, d) && RunPlan(c, q, d).result.Ok?
    ensures var meta := RunPlan(c, q, d).result.value;
      var downloaded := d.zip.None? || q.faults.missed.archive;
      && (downloaded ==> q.reply.Complete?)
      && meta.version == q.resource.version && meta.sourceUrl == q.resource.downloadUrl && meta.downloadedAt == q.now
      && meta.archiveSizeBytes == c.size(zip) && meta.archiveSha256 == c.sha256(zip)
      && meta.publisherLastModified ==
           (if q.resource.publisherLastModified.Some? then q.resource.publisherLastModified
            else if downloaded then q.reply.lastModified else None)
      && meta.etag == (if downloaded then q.reply.etag else None)
      && meta.extractPath == q.layout.rawDir + "/" + q.resource.namePrefix + "_" + AsStr(q.resource.version)
      && meta.status == SidecarStatus.Verified
  {
    var d0 := Apply(DeletePart, d);
    PartIsIgnored(c, q, d);
    MetaIsFor(c, q, Discarding(FindResumePoint(c, q.faults.missed, d0)), d0);
    PathSpelled(q.layout.rawDir, q.resource.namePrefix, AsStr(q.resource.version));
  }

  lemma PathSpelled(dir: string, prefix: string, version: string)
    ensures dir + "/" + (prefix + "_" + version) == dir + "/" + prefix + "_" + version
  {
  }

  // ---- Why a run ends as it does ----

  /** The archive and its extraction get through, or there is one already. */
  predicate ExtractsAll(c: Codec, q: Request, resume: ResumePoint, zip: ZipFile)
  {
    (resume.FromScratch? || resume.Downloaded?) ==>
      && !q.faults.makeExtraction && Extractable(c.lists, zip)
      && (q.faults.extractAt.Some? ==> q.faults.extractAt.value > |zip.entries|)
  }

  /** What is converted: what is extracted now, or will be. */
  function ToConvert(s: Stage, zip: ZipFile, d: Disk): Files
  {
    if (s.Discarding? || s.Fetching? || s.Verifying? || s.Extracting?) && (s.resume.FromScratch? || s.resume.Downloaded?) then
      if zip.Readable? then FullExtraction(zip.entries) else map[]
    else if d.extraction.Some? then d.extraction.value else map[]
  }

  /** Every `*.txt` file converts and no write fails, or there is nothing to convert. */
  predicate ConvertsAll(c: Codec, q: Request, resume: ResumePoint, dir: Files)
  {
    !resume.Converted? ==> !q.faults.makeParquet && ConvertSucceeds(c, q, dir)
  }

  /** What was converted is swept, or passed over. */
  predicate SweepsAll(q: Request, resume: ResumePoint)
  {
    !resume.Converted? && q.faults.sweepExtraction ==> q.faults.unseenSweep
  }

  /** The directory under the final name, if there is one, can be replaced, and the sidecar written. */
  predicate PublishesAll(q: Request, d: Disk)
  {
    (d.published.Some? ==> !q.faults.dropFinal) && !q.faults.renameFinal && !q.faults.sidecar
  }

  /** The reasons for the end of the plan from stage `s`, the earliest one first. */
  ghost predicate EndsFor(c: Codec, q: Request, s: Stage, zip: ZipFile, d: Disk, result: Result<SnapshotMeta, PipelineError>)
  {
    && (result == Err(DownloadFailed) <==>
          (s.Discarding? || s.Fetching?) && (s.Discarding? ==> DiscardsAll(q, s.resume, d)) && !ObtainsArchive(q, s.resume))
    && (result == Err(ArchiveRejected) <==>
          && PassesCheck(c, q, s, zip, d) && !s.Converting? && !s.Publishing? && !q.faults.makeExtraction
          && !ExtractsAll(c, q, s.resume, zip))
    && (result == Err(ParquetFailed) <==>
          && PassesExtraction(c, q, s, zip, d) && !s.Publishing? && !q.faults.makeParquet
          && !ConvertsAll(c, q, s.resume, ToConvert(s, zip, d)))
    && (result.Ok? <==>
          && PassesExtraction(c, q, s, zip, d)
          && (!s.Publishing? ==> ConvertsAll(c, q, s.resume, ToConvert(s, zip, d)) && SweepsAll(q, s.resume))
          && PublishesAll(q, d))
  }

  /** The plan from stage `s` gets past extraction. */
  predicate PassesExtraction(c: Codec, q: Request, s: Stage, zip: ZipFile, d: Disk)
  {
    PassesCheck(c, q, s, zip, d) && (!s.Converting? && !s.Publishing? ==> ExtractsAll(c, q, s.resume, zip))
  }

  /** The plan from stage `s` gets past the hash check. */
  predicate PassesCheck(c: Codec, q: Request, s: Stage, zip: ZipFile, d: Disk)
  {
    && (s.Discarding? || s.Fetching? || s.Verifying? ==> ReachesCheck(q, s, d))
    && HashAccepted(q.resource.upstreamHash, c.sha256(zip))
  }

  /** Nothing before the publish stage touches what is published. */
  lemma GoKeepsPublished(c: Codec, q: Request, s: Stage, zip: ZipFile, d: Disk)
    requires Ready(c, q, s, zip, d) && RunStage(c, q, s, d).Go?
    ensures ApplyAll(RunStage(c, q, s, d).ops, d).published == d.published
  {
    match s
    case Extracting(_, _) => GoExtractPublished(c, q, s.resume, s.outcome, zip, d);
    case Converting(_, _) => GoConvertPublished(c, q, s.resume, s.outcome, zip, d);
    case Discarding(resume) =>
      DiscardSafe(c, q.faults.missed, if NeedExtract(resume) && d.extraction.Some? then [DeleteExtraction] else [], d);
      ApplyAllSnoc(if NeedExtract(resume) && d.extraction.Some? then [DeleteExtraction] else [], DeleteParquet, d);
    case _ => FetchKeepsPublished(c, q, s, d);
  }

  lemma FetchKeepsPublished(c: Codec, q: Request, s: Stage, d: Disk)
    requires (s.Fetching? || s.Verifying? || s.Publishing?) && RunStage(c, q, s, d).Go?
    ensures ApplyAll(RunStage(c, q, s, d).ops, d).published == d.published
  {
    if s.Fetching? && q.reply.Complete? {
      assert [WritePart] + [PromotePart(q.reply.zip)] == [WritePart, PromotePart(q.reply.zip)];
      ApplyAllSnoc([WritePart], PromotePart(q.reply.zip), d);
      ApplyAllSnoc([], WritePart, d);
    }
  }

  lemma GoExtractPublished(c: Codec, q: Request, resume: ResumePoint, outcome: DownloadOutcome, zip: ZipFile, d: Disk)
    requires Ready(c, q, Extracting(resume, outcome), zip, d) && ExtractStage(c, q, resume, outcome, d).Go?
    ensures ApplyAll(ExtractStage(c, q, resume, outcome, d).ops, d).published == d.published
  {
    if NeedExtract(resume) {
      ExtractWritesSafe(c, q, zip, WrittenEntries(c.lists, zip, q.faults), d);
    }
  }

  lemma GoConvertPublished(c: Codec, q: Request, resume: ResumePoint, outcome: DownloadOutcome, zip: ZipFile, d: Disk)
    requires Ready(c, q, Converting(resume, outcome), zip, d) && ConvertStage(c, q, resume, outcome, d).Go?
    ensures ApplyAll(ConvertStage(c, q, resume, outcome, d).ops, d).published == d.published
  {
    if NeedConvert(resume) {
      FillSafe(c, q, zip, d);
      var fill := [MakeParquet] + ParquetWrites(c, d.extraction.value, Listed(q, d.extraction.value));
      ApplyAllSnoc(fill, DeleteExtraction, d);
    }
  }

  lemma DiscardKeepsToConvert(c: Codec, q: Request, resume: ResumePoint, zip: ZipFile, d: Disk)
    requires Ready(c, q, Discarding(resume), zip, d) && DiscardStage(q, resume, d).Go? && !resume.Converted?
    ensures var r := DiscardStage(q, resume, d);
      ToConvert(r.next, zip, ApplyAll(r.ops, d)) == ToConvert(Discarding(resume), zip, d)
  {
    if resume.Extracted? {
      ApplyAllSnoc([], DeleteParquet, d);
    }
  }

  lemma FetchKeepsToConvert(c: Codec, q: Request, resume: ResumePoint, zip: ZipFile, d: Disk)
    requires FetchStage(c, q, resume).Go?
    ensures var r := FetchStage(c, q, resume);
      ToConvert(r.next, zip, ApplyAll(r.ops, d)) == ToConvert(Fetching(resume), zip, d)
  {
  }

  lemma ExtractKeepsToConvert(c: Codec, q: Request, resume: ResumePoint, outcome: DownloadOutcome, zip: ZipFile, d: Disk)
    requires Ready(c, q, Extracting(resume, outcome), zip, d) && ExtractStage(c, q, resume, outcome, d).Go?
    ensures var r := ExtractStage(c, q, resume, outcome, d);
      ToConvert(r.next, zip, ApplyAll(r.ops, d)) == ToConvert(Extracting(resume, outcome), zip, d)
  {
    if NeedExtract(resume) {
      ExtractWritesSafe(c, q, zip, WrittenEntries(c.lists, zip, q.faults), d);
    }
  }

  /** Going on does not change what will be converted. */
  lemma GoKeepsToConvert(c: Codec, q: Request, s: Stage, zip: ZipFile, d: Disk)
    requires Ready(c, q, s, zip, d) && RunStage(c, q, s, d).Go? && !s.Converting? && !s.Publishing?
    ensures var r := RunStage(c, q, s, d);
      !s.resume.Converted? ==> ToConvert(r.next, zip, ApplyAll(r.ops, d)) == ToConvert(s, zip, d)
  {
    if !s.resume.Converted? {
      match s
      case Extracting(resume, outcome) => ExtractKeepsToConvert(c, q, resume, outcome, zip, d);
      case Discarding(resume) => DiscardKeepsToConvert(c, q, resume, zip, d);
      case Fetching(resume) => FetchKeepsToConvert(c, q, resume, zip, d);
      case Verifying(_, _) =>
    }
  }

  lemma LateEnds(c: Codec, q: Request, s: Stage, zip: ZipFile, d: Disk)
    requires Ready(c, q, s, zip, d) && (s.Converting? || s.Publishing?)
    ensures EndsFor(c, q, s, zip, d, PlanFrom(c, q, s, d).result)
    decreases StagesLeft(s)
  {
    if s.Converting? && RunStage(c, q, s, d).Go? {
      AnyStageGood(c, q, s, zip, d);
      GoKeepsPublished(c, q, s, zip, d);
      LateEnds(c, q, RunStage(c, q, s, d).next, zip, ApplyAll(RunStage(c, q, s, d).ops, d));
    }
  }

  lemma ExtractEnds(c: Codec, q: Request, s: Stage, zip: ZipFile, d: Disk)
    requires Ready(c, q, s, zip, d) && s.Extracting?
    ensures EndsFor(c, q, s, zip, d, PlanFrom(c, q, s, d).result)
  {
    if RunStage(c, q, s, d).Go? {
      AnyStageGood(c, q, s, zip, d);
      GoKeepsPublished(c, q, s, zip, d);
      GoKeepsToConvert(c, q, s, zip, d);
      LateEnds(c, q, RunStage(c, q, s, d).next, zip, ApplyAll(RunStage(c, q, s, d).ops, d));
    }
  }

  lemma VerifyEnds(c: Codec, q: Request, s: Stage, zip: ZipFile, d: Disk)
    requires Ready(c, q, s, zip, d) && s.Verifying?
    ensures EndsFor(c, q, s, zip, d, PlanFrom(c, q, s, d).result)
  {
    if RunStage(c, q, s, d).Go? {
      AnyStageGood(c, q, s, zip, d);
      GoKeepsToConvert(c, q, s, zip, d);
      ExtractEnds(c, q, RunStage(c, q, s, d).next, zip, d);
    }
  }

  lemma FetchEnds(c: Codec, q: Request, s: Stage, zip: ZipFile, d: Disk)
    requires Ready(c, q, s, zip, d) && s.Fetching?
    ensures EndsFor(c, q, s, zip, d, PlanFrom(c, q, s, d).result)
  {
    ReachesAlong(c, q, s, d);
    if RunStage(c, q, s, d).Go? {
      AnyStageGood(c, q, s, zip, d);
      GoKeepsPublished(c, q, s, zip, d);
      GoKeepsToConvert(c, q, s, zip, d);
      VerifyEnds(c, q, RunStage(c, q, s, d).next, zip, ApplyAll(RunStage(c, q, s, d).ops, d));
    }
  }

  lemma DiscardEnds(c: Codec, q: Request, s: Stage, zip: ZipFile, d: Disk)
    requires Ready(c, q, s, zip, d) && s.Discarding?
    ensures EndsFor(c, q, s, zip, d, PlanFrom(c, q, s, d).result)
  {
    ReachesAlong(c, q, s, d);
    if RunStage(c, q, s, d).Go? {
      AnyStageGood(c, q, s, zip, d);
      GoKeepsPublished(c, q, s, zip, d);
      GoKeepsToConvert(c, q, s, zip, d);
      FetchEnds(c, q, RunStage(c, q, s, d).next, zip, ApplyAll(RunStage(c, q, s, d).ops, d));
    }
  }

  lemma RunEndsFor(c: Codec, q: Request, d: Disk)
    requires RequiredNamesTxt(c.lists) && ValidRequest(q) && DiskInv(c, d) && !Installed(d)
    requires !Misled(c, q.faults.missed, d)
    ensures var s := Discarding(FindResumePoint(c, q.faults.missed, d));
      EndsFor(c, q, s, SourceArchive(q, d), d, RunPlan(c, q, d).result)
  {
    var d0 := Apply(DeletePart, d);
    var s := Discarding(FindResumePoint(c, q.faults.missed, d));
    PartIsIgnored(c, q, d);
    assert FindResumePoint(c, q.faults.missed, d0) == s.resume && !Misled(c, q.faults.missed, d0);
    DiscardEnds(c, q, s, SourceArchive(q, d), d0);
  }

  /**
   Why a run ends as it does, after any history: each error but plain I/O has exactly its own
   cause, the earliest one counting; and a run succeeds if and only if nothing it has to do
   fails, its archive is sound, and its hash agrees with what upstream gives.
   */
  lemma EveryEndHasItsReason(c: Codec, sessions: seq<Session>, q: Request, zip: ZipFile, d: Disk)
    requires Begins(c, sessions, q, d) && zip == SourceArchive(q, d)
    ensures var resume, result := FindResumePoint(c, q.faults.missed, d), RunPlan(c, q, d).result;
      var hash := q.resource.upstreamHash;
      var obtained := DiscardsAll(q, resume, d) && ObtainsArchive(q, resume);
      var agrees := hash.None? || !SixtyFourHex(hash.value) || EqualUpToCase(hash.value, c.sha256(zip));
      var dir := ToConvert(Discarding(resume), zip, d);
      && (result == Err(DownloadFailed) <==> DiscardsAll(q, resume, d) && !ObtainsArchive(q, resume))
      && (result == Err(HashMismatch) <==> obtained && !agrees)
      && (result == Err(ArchiveRejected) <==>
            obtained && agrees && !q.faults.makeExtraction && !ExtractsAll(c, q, resume, zip))
      && (result == Err(ParquetFailed) <==>
            obtained && agrees && ExtractsAll(c, q, resume, zip) && !q.faults.makeParquet && !ConvertsAll(c, q, resume, dir))
      && (result.Ok? <==>
            && obtained && agrees && ExtractsAll(c, q, resume, zip) && ConvertsAll(c, q, resume, dir)
            && SweepsAll(q, resume) && PublishesAll(q, d))
  {
    CrashSafePublication(c, sessions);
    RunMismatchIff(c, q, d);
    RunEndsFor(c, q, d);
    HashAcceptedMeans(q.resource.upstreamHash, c.sha256(zip));
  }

  // ---- Partial downloads ----

  /** The plan gets as far as the download, and the transfer is whole but cannot be promoted. */
  predicate FailsToPromote(q: Request, s: Stage, d: Disk)
  {
    && q.reply.Complete? && q.faults.promote
    && match s
       case Discarding(resume) => resume.FromScratch? && DiscardsAll(q, resume, d)
       case Fetching(resume) => resume.FromScratch?
       case _ => false
  }

  /** Operations that neither write nor promote a download. */
  predicate NoDownload(op: Op)
  {
    !op.WritePart? && !op.PromotePart?
  }

  lemma {:induction false} PartStays(ops: seq<Op>, d: Disk)
    requires !d.part && forall op :: op in ops ==> NoDownload(op)
    ensures !ApplyAll(ops, d).part
    decreases |ops|
  {
    if ops != [] {
      assert NoDownload(ops[0]);
      PartStays(ops[1..], Apply(ops[0], d));
    }
  }

  lemma {:induction false} ParquetWritesNoDownload(c: Codec, dir: Files, names: seq<string>)
    requires forall n :: n in names ==> n in dir
    ensures forall op :: op in ParquetWrites(c, dir, names) ==> NoDownload(op)
    decreases |names|
  {
    if names != [] {
      ParquetWritesNoDownload(c, dir, names[1..]);
    }
  }

  lemma FillNoDownload(c: Codec, q: Request, dir: Files)
    ensures forall op :: op in FillWrites(c, q, dir) ==> NoDownload(op)
  {
    var writes := ParquetWrites(c, dir, Listed(q, dir));
    ParquetWritesNoDownload(c, dir, Listed(q, dir));
    forall op | op in FillWrites(c, q, dir) ensures op in writes {
    }
  }

  lemma ConvertNoDownload(c: Codec, q: Request, resume: ResumePoint, outcome: DownloadOutcome, d: Disk)
    ensures forall op :: op in ConvertStage(c, q, resume, outcome, d).ops ==> NoDownload(op)
  {
    if d.extraction.Some? {
      FillNoDownload(c, q, d.extraction.value);
    }
  }

  lemma ExtractNoDownload(c: Codec, q: Request, resume: ResumePoint, outcome: DownloadOutcome, d: Disk)
    ensures forall op :: op in ExtractStage(c, q, resume, outcome, d).ops ==> NoDownload(op)
  {
  }

  lemma LaterNoDownload(c: Codec, q: Request, s: Stage, d: Disk)
    requires !s.Fetching?
    ensures forall op :: op in RunStage(c, q, s, d).ops ==> NoDownload(op)
  {
    match s
    case Converting(resume, outcome) => ConvertNoDownload(c, q, resume, outcome, d);
    case Extracting(resume, outcome) => ExtractNoDownload(c, q, resume, outcome, d);
    case _ =>
  }

  lemma FetchPart(c: Codec, q: Request, resume: ResumePoint, d: Disk)
    requires !d.part
    ensures var r := FetchStage(c, q, resume);
      ApplyAll(r.ops, d).part <==> FailsToPromote(q, Fetching(resume), d)
    ensures FailsToPromote(q, Fetching(resume), d) ==> FetchStage(c, q, resume).Stop?
  {
    ApplyAllSnoc([], WritePart, d);
    assert [] + [WritePart] == [WritePart];
    ApplyAllSnoc([WritePart], DeletePart, d);
    assert [WritePart] + [DeletePart] == [WritePart, DeletePart];
    if q.reply.Complete? {
      ApplyAllSnoc([WritePart], PromotePart(q.reply.zip), d);
      assert [WritePart] + [PromotePart(q.reply.zip)] == [WritePart, PromotePart(q.reply.zip)];
    }
  }

  lemma {:induction false} PartLeft(c: Codec, q: Request, s: Stage, d: Disk)
    requires !d.part
    ensures ApplyAll(PlanFrom(c, q, s, d).ops, d).part <==> FailsToPromote(q, s, d)
    decreases StagesLeft(s)
  {
    var r := RunStage(c, q, s, d);
    if s.Fetching? {
      FetchPart(c, q, s.resume, d);
    } else {
      LaterNoDownload(c, q, s, d);
      PartStays(r.ops, d);
    }
    if r.Go? {
      PartLeft(c, q, r.next, ApplyAll(r.ops, d));
      ApplyAllConcat(r.ops, PlanFrom(c, q, r.next, ApplyAll(r.ops, d)).ops, d);
      if s.Discarding? {
        assert FailsToPromote(q, s, d) <==> FailsToPromote(q, r.next, ApplyAll(r.ops, d));
      }
    }
  }

  /**
   Whatever was there before, a finished run leaves a partial download if and only if it
   transferred a whole archive that it could not promote; a cut transfer leaves none.
   */
  lemma PartialDownloadLeft(c: Codec, q: Request, d: Disk)
    ensures RunEnd(c, q, d).part <==>
      FailsToPromote(q, Discarding(FindResumePoint(c, q.faults.missed, d)), d)
  {
    var d0 := Apply(DeletePart, d);
    var s := Discarding(FindResumePoint(c, q.faults.missed, d));
    PartIsIgnored(c, q, d);
    assert FindResumePoint(c, q.faults.missed, d0) == s.resume;
    PartLeft(c, q, s, d0);
    ApplyAllConcat([DeletePart], PlanFrom(c, q, s, d0).ops, d);
    ApplyAllSnoc([], DeletePart, d);
  }

  lemma {:induction false} TransfersFrom(c: Codec, q: Request, s: Stage, d: Disk)
    ensures WritePart in PlanFrom(c, q, s, d).ops <==>
      && !q.reply.Refused?
      && match s
         case Discarding(resume) => resume.FromScratch? && DiscardsAll(q, resume, d)
         case Fetching(resume) => resume.FromScratch?
         case _ => false
    decreases StagesLeft(s)
  {
    var r := RunStage(c, q, s, d);
    if !s.Fetching? {
      LaterNoDownload(c, q, s, d);
      assert WritePart !in r.ops;
    } else if s.resume.FromScratch? && !q.reply.Refused? {
      assert r.ops[0] == WritePart;
    }
    if r.Go? {
      TransfersFrom(c, q, r.next, ApplyAll(r.ops, d));
    }
  }

  /** A run writes to disk while it downloads if and only if it starts over and is not refused. */
  lemma TransfersIff(c: Codec, q: Request, d: Disk)
    ensures var resume := FindResumePoint(c, q.faults.missed, d);
      WritePart in RunPlan(c, q, d).ops <==> resume.FromScratch? && DiscardsAll(q, resume, d) && !q.reply.Refused?
  {
    var d0 := Apply(DeletePart, d);
    PartIsIgnored(c, q, d);
    TransfersFrom(c, q, Discarding(FindResumePoint(c, q.faults.missed, d0)), d0);
  }

  /** Should something else have taken the archive or the extraction away, the stage that needs it clears up. */
  lemma NothingToWorkOn(c: Codec, q: Request, resume: ResumePoint, outcome: DownloadOutcome, d: Disk)
    ensures NeedExtract(resume) && !q.faults.makeExtraction && d.zip.None? ==>
      var r := ExtractStage(c, q, resume, outcome, d);
      && r.Stop? && r.error == ArchiveRejected
      && ApplyAll(r.ops, d).zip.None? && ApplyAll(r.ops, d).extraction.None?
    ensures NeedConvert(resume) && !q.faults.makeParquet && d.extraction.None? ==>
      var r := ConvertStage(c, q, resume, outcome, d);
      && r.Stop? && r.error == ParquetFailed
      && ApplyAll(r.ops, d).zip.None? && ApplyAll(r.ops, d).extraction.None? && ApplyAll(r.ops, d).parquet.None?
  {
    CleanUpLeaves([MakeExtraction], [DeleteZip, DeleteExtraction], d);
    CleanUpLeaves([MakeParquet], [DeleteZip, DeleteExtraction, DeleteParquet], d);
    assert [MakeExtraction] + [DeleteZip, DeleteExtraction] == [MakeExtraction, DeleteZip, DeleteExtraction];
    assert [MakeParquet] + [DeleteZip, DeleteExtraction, DeleteParquet]
      == [MakeParquet, DeleteZip, DeleteExtraction, DeleteParquet];
  }

  // ---- What a failure leaves ----

  /** Whatever the next inspection sees, it starts over. */
  ghost predicate StartsOver(c: Codec, d: Disk)
  {
    d.zip.None? && forall m :: FindResumePoint(c, m, d) == FromScratch
  }

  /** A failure leaves what it says, whichever stage it comes from. */
  ghost predicate Leaves(c: Codec, q: Request, zip: ZipFile, e: PipelineError, end: Disk)
  {
    match e
    case HashMismatch => StartsOver(c, end)
    case ArchiveRejected =>
      && StartsOver(c, end) && end.extraction.None? && end.parquet.None?
      && (Extractable(c.lists, zip) ==> q.faults.extractAt.Some?)
    case ParquetFailed =>
      && StartsOver(c, end) && end.extraction.None? && end.parquet.None?
      && (Processable(c, zip) ==> q.faults.convertAt.Some?)
    case _ => true
  }

  lemma CleanUpLeaves(ops: seq<Op>, tail: seq<Op>, d: Disk)
    requires tail == [DeleteZip, DeleteExtraction] || tail == [DeleteZip, DeleteExtraction, DeleteParquet]
    ensures var m, end := ApplyAll(ops, d), ApplyAll(ops + tail, d);
      && end.zip.None? && end.extraction.None?
      && end.parquet == if |tail| == 3 then None else m.parquet
  {
    var m := ApplyAll(ops, d);
    ApplyAllConcat(ops, tail, d);
    assert [DeleteZip] + [DeleteExtraction] == [DeleteZip, DeleteExtraction];
    assert ([DeleteZip] + [DeleteExtraction]) + [DeleteParquet] == [DeleteZip, DeleteExtraction, DeleteParquet];
    ApplyAllSnoc([DeleteZip] + [DeleteExtraction], DeleteParquet, m);
    ApplyAllSnoc([DeleteZip], DeleteExtraction, m);
    ApplyAllSnoc([], DeleteZip, m);
  }

  lemma ExtractFailureLeaves(c: Codec, q: Request, resume: ResumePoint, outcome: DownloadOutcome, zip: ZipFile, d: Disk)
    requires Ready(c, q, Extracting(resume, outcome), zip, d)
    ensures var r := ExtractStage(c, q, resume, outcome, d); r.Stop? ==> Leaves(c, q, zip, r.error, ApplyAll(r.ops, d))
  {
    if NeedExtract(resume) {
      var written := WrittenEntries(c.lists, zip, q.faults);
      ExtractWritesSafe(c, q, zip, written, d);
      CleanUpLeaves([MakeExtraction] + MemberWrites(written), [DeleteZip, DeleteExtraction], d);
    }
  }

  lemma ConvertFailureLeaves(c: Codec, q: Request, resume: ResumePoint, outcome: DownloadOutcome, zip: ZipFile, d: Disk)
    requires Ready(c, q, Converting(resume, outcome), zip, d)
    ensures var r := ConvertStage(c, q, resume, outcome, d); r.Stop? ==> Leaves(c, q, zip, r.error, ApplyAll(r.ops, d))
  {
    if NeedConvert(resume) {
      var dir := d.extraction.value;
      CleanUpLeaves([MakeParquet] + FillWrites(c, q, dir), [DeleteZip, DeleteExtraction, DeleteParquet], d);
      if Processable(c, zip) {
        ProcessableConverts(c, zip, dir);
      }
    }
  }

  lemma StageFailureLeaves(c: Codec, q: Request, s: Stage, zip: ZipFile, d: Disk)
    requires Ready(c, q, s, zip, d)
    ensures var r := RunStage(c, q, s, d); r.Stop? ==> Leaves(c, q, zip, r.error, ApplyAll(r.ops, d))
  {
    match s
    case Extracting(resume, outcome) => ExtractFailureLeaves(c, q, resume, outcome, zip, d);
    case Converting(resume, outcome) => ConvertFailureLeaves(c, q, resume, outcome, zip, d);
    case Verifying(_, _) =>
      ApplyAllSnoc([], DeleteZip, d);
      assert [] + [DeleteZip] == [DeleteZip];
    case _ =>
  }

  lemma {:induction false} PlanFailureLeaves(c: Codec, q: Request, s: Stage, zip: ZipFile, d: Disk)
    requires Ready(c, q, s, zip, d)
    ensures var plan := PlanFrom(c, q, s, d); plan.result.Err? ==> Leaves(c, q, zip, plan.result.error, ApplyAll(plan.ops, d))
    decreases StagesLeft(s)
  {
    AnyStageGood(c, q, s, zip, d);
    StageFailureLeaves(c, q, s, zip, d);
    match RunStage(c, q, s, d)
    case Go(ops, next) =>
      PlanFailureLeaves(c, q, next, zip, ApplyAll(ops, d));
      ApplyAllConcat(ops, PlanFrom(c, q, next, ApplyAll(ops, d)).ops, d);
    case _ =>
  }

  /**
   A refused archive is never resumed from: after a hash mismatch, a rejected archive or a
   failed conversion the next run, whatever it sees, downloads afresh; the last two leave no
   staging at all, and come only from a bad archive or a failing write.
   */
  lemma FailureLeaves(c: Codec, sessions: seq<Session>, q: Request, d: Disk)
    requires Begins(c, sessions, q, d) && RunPlan(c, q, d).result.Err?
    ensures Leaves(c, q, SourceArchive(q, d), RunPlan(c, q, d).result.error, RunEnd(c, q, d))
  {
    var d0 := Apply(DeletePart, d);
    var s := Discarding(FindResumePoint(c, q.faults.missed, d));
    CrashSafePublication(c, sessions);
    PartIsIgnored(c, q, d);
    assert FindResumePoint(c, q.faults.missed, d0) == s.resume && !Misled(c, q.faults.missed, d0);
    PlanFailureLeaves(c, q, s, SourceArchive(q, d), d0);
    ApplyAllConcat([DeletePart], PlanFrom(c, q, s, d0).ops, d);
    ApplyAllSnoc([], DeletePart, d);
  }
}
