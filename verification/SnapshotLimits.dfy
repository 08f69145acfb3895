/**
 How far crash recovery goes: what a successful run leaves in staging, what a resume trusts
 without looking, and how a later member can be lost.
 */
module SnapshotLimits {
  import opened Wrappers
  import opened Domain
  import opened Archive
  import opened Snapshot
  import opened SnapshotSafety
  import opened SnapshotRecovery

  /**
   After any history without a misleading inspection, a successful run leaves no archive and
   no Parquet staging, and leaves an extraction if and only if it resumed as converted beside
   one or overlooked the one it had converted.
   */
  lemma LeftoversAfterSuccess(c: Codec, sessions: seq<Session>, q: Request)
    requires RequiredNamesTxt(c.lists) && ValidSessions(sessions) && NeverMisled(c, sessions) && ValidRequest(q)
    requires var d := AfterSessions(c, sessions, EMPTY_DISK); !Installed(d) && !Misled(c, q.faults.missed, d)
    requires RunPlan(c, q, AfterSessions(c, sessions, EMPTY_DISK)).result.Ok?
    ensures var d := AfterSessions(c, sessions, EMPTY_DISK);
      var end := RunEnd(c, q, d);
      && end.zip.None? && end.parquet.None?
      && (end.extraction.Some? <==>
            if FindResumePoint(c, q.faults.missed, d).Converted? then d.extraction.Some? else q.faults.unseenSweep)
  {
    CrashSafePublication(c, sessions);
    RunGood(c, q, AfterSessions(c, sessions, EMPTY_DISK));
  }

  // ---- Resuming as converted publishes what is there ----

  lemma ConvertedSkipsToPublish(c: Codec, q: Request, outcome: DownloadOutcome, d: Disk)
    requires HashAccepted(q.resource.upstreamHash, outcome.sha256)
    ensures PlanFrom(c, q, Discarding(Converted(outcome)), d) == PlanFrom(c, q, Publishing(outcome), d)
  {
    var resume := Converted(outcome);
    StageSkips(c, q, Converting(resume, outcome), Publishing(outcome), d);
    StageSkips(c, q, Extracting(resume, outcome), Converting(resume, outcome), d);
    StageSkips(c, q, Verifying(resume, outcome), Extracting(resume, outcome), d);
    StageSkips(c, q, Fetching(resume), Verifying(resume, outcome), d);
    StageSkips(c, q, Discarding(resume), Fetching(resume), d);
  }

  /** Nothing fails but, perhaps, the inspection. */
  predicate OnlyMisses(q: Request)
  {
    q.faults.(missed := NOTHING_MISSED) == NO_FAULTS
  }

  /** Without any assumption on the disk: a Parquet staging that the inspection accepts is published as it is. */
  lemma TrustedAsIs(c: Codec, q: Request, zip: ZipFile, d: Disk)
    requires d.zip == Some(zip)
    requires !q.faults.missed.archive && PassesForConverted(q.faults.missed, d)
    requires OnlyMisses(q) && HashAccepted(q.resource.upstreamHash, c.sha256(zip))
    ensures Installed(RunEnd(c, q, d)) && RunEnd(c, q, d).published.value.files == d.parquet.value
  {
    var d0 := Apply(DeletePart, d);
    var outcome := RecomputedOutcome(c, zip);
    assert FindResumePoint(c, q.faults.missed, d0) == Converted(outcome);
    ConvertedSkipsToPublish(c, q, outcome, d0);
    var ops := PlanFrom(c, q, Publishing(outcome), d0).ops;
    FaultFreePublish(c, q, outcome, d0);
    ApplyAllConcat([DeletePart], ops, d);
    ApplyAllSnoc([], DeletePart, d);
  }

  lemma FaultFreePublish(c: Codec, q: Request, outcome: DownloadOutcome, d: Disk)
    requires OnlyMisses(q) && d.parquet.Some?
    ensures var end := ApplyAll(PlanFrom(c, q, Publishing(outcome), d).ops, d);
      end.published == Some(FinalDir(d.parquet.value, Some(MetaFor(q, outcome))))
  {
    var meta := MetaFor(q, outcome);
    var stale := if d.published.Some? then [DeleteFinal] else [];
    var last := [RenameToFinal, DeleteZip, WriteSidecar(meta)];
    assert PlanFrom(c, q, Publishing(outcome), d).ops == stale + last;
    ApplyAllConcat(stale, last, d);
    ApplyAllSnoc([], DeleteFinal, d);
    ApplyThree(last, ApplyAll(stale, d));
  }

  lemma ApplyThree(ops: seq<Op>, d: Disk)
    requires |ops| == 3
    ensures ApplyAll(ops, d) == Apply(ops[2], Apply(ops[1], Apply(ops[0], d)))
  {
    assert ops == [ops[0]] + [ops[1]] + [ops[2]];
    ApplyAllSnoc([ops[0]] + [ops[1]], ops[2], d);
    ApplyAllSnoc([ops[0]], ops[1], d);
    ApplyAllSnoc([], ops[0], d);
  }

  // ---- Optional members can be lost ----

  /** What a complete transfer reports. */
  function FetchedOutcome(c: Codec, q: Request): DownloadOutcome
    requires q.reply.Complete?
  {
    DownloadOutcome(c.size(q.reply.zip), c.sha256(q.reply.zip), q.reply.etag, q.reply.lastModified)
  }

  /** The disk with an archive and all of its members extracted. */
  function ExtractedDisk(zip: ZipFile): Disk
    requires zip.Readable?
  {
    Disk(false, Some(zip), Some(FullExtraction(zip.entries)), None, None)
  }

  /** Nothing fails but, perhaps, the conversion. */
  predicate OnlyConversionFails(q: Request)
  {
    q.faults.(convertAt := None) == NO_FAULTS
  }

  /** The first operations of a run from an empty disk on a sound archive, and what is left then. */
  lemma ScratchPlanStart(c: Codec, q: Request, zip: ZipFile) returns (rest: seq<Op>)
    requires OnlyConversionFails(q) && q.reply.Complete? && q.reply.zip == zip
    requires Extractable(c.lists, zip) && HashAccepted(q.resource.upstreamHash, c.sha256(zip))
    ensures RunPlan(c, q, EMPTY_DISK).ops
      == [DeletePart] + ([WritePart, PromotePart(zip)] + (([MakeExtraction] + MemberWrites(zip.entries)) + rest))
    ensures rest == PlanFrom(c, q, Converting(FromScratch, FetchedOutcome(c, q)), ExtractedDisk(zip)).ops
  {
    var outcome := FetchedOutcome(c, q);
    var d0 := Apply(DeletePart, EMPTY_DISK);
    var fetched := [WritePart, PromotePart(zip)];
    StageSkips(c, q, Discarding(FromScratch), Fetching(FromScratch), d0);
    StageGoes(c, q, Fetching(FromScratch), fetched, Verifying(FromScratch, outcome), d0);
    FetchedDisk(zip);
    rest := FetchedPlanStart(c, q, zip, outcome, EMPTY_DISK.(zip := Some(zip)));
  }

  lemma FetchedDisk(zip: ZipFile)
    ensures ApplyAll([WritePart, PromotePart(zip)], Apply(DeletePart, EMPTY_DISK)) == EMPTY_DISK.(zip := Some(zip))
  {
    var d0 := Apply(DeletePart, EMPTY_DISK);
    ApplyAllSnoc([WritePart], PromotePart(zip), d0);
    ApplyAllSnoc([], WritePart, d0);
    assert [WritePart] + [PromotePart(zip)] == [WritePart, PromotePart(zip)];
  }

  /** The plan from a verified fresh download. */
  lemma FetchedPlanStart(c: Codec, q: Request, zip: ZipFile, outcome: DownloadOutcome, d: Disk) returns (rest: seq<Op>)
    requires OnlyConversionFails(q) && Extractable(c.lists, zip)
    requires HashAccepted(q.resource.upstreamHash, outcome.sha256)
    requires d == EMPTY_DISK.(zip := Some(zip))
    ensures PlanFrom(c, q, Verifying(FromScratch, outcome), d).ops
      == [MakeExtraction] + MemberWrites(zip.entries) + rest
    ensures rest == PlanFrom(c, q, Converting(FromScratch, outcome), ExtractedDisk(zip)).ops
  {
    var writes := [MakeExtraction] + MemberWrites(zip.entries);
    StageSkips(c, q, Verifying(FromScratch, outcome), Extracting(FromScratch, outcome), d);
    StageGoes(c, q, Extracting(FromScratch, outcome), writes, Converting(FromScratch, outcome), d);
    ApplyAllConcat([MakeExtraction], MemberWrites(zip.entries), d);
    ApplyAllSnoc([], MakeExtraction, d);
    FullExtractionOnDisk(zip.entries, d.(extraction := Some(map[])));
    rest := PlanFrom(c, q, Converting(FromScratch, outcome), ExtractedDisk(zip)).ops;
  }

  /** The disk once the extraction directory has been made. */
  lemma StartDisk(zip: ZipFile)
    ensures ApplyAll([DeletePart, WritePart, PromotePart(zip), MakeExtraction], EMPTY_DISK)
      == Disk(false, Some(zip), Some(map[]), None, None)
  {
    assert [DeletePart, WritePart, PromotePart(zip), MakeExtraction]
      == [DeletePart] + [WritePart] + [PromotePart(zip)] + [MakeExtraction];
    ApplyAllSnoc([DeletePart] + [WritePart] + [PromotePart(zip)], MakeExtraction, EMPTY_DISK);
    ApplyAllSnoc([DeletePart] + [WritePart], PromotePart(zip), EMPTY_DISK);
    ApplyAllSnoc([DeletePart], WritePart, EMPTY_DISK);
    ApplyAllSnoc([], DeletePart, EMPTY_DISK);
  }

  lemma PrefixShape(zip: ZipFile, k: nat, rest: seq<Op>, ops: seq<Op>)
    requires zip.Readable? && k < |zip.entries|
    requires ops == [DeletePart] + ([WritePart, PromotePart(zip)] + (([MakeExtraction] + MemberWrites(zip.entries)) + rest))
    ensures 4 + k < |ops|
    ensures ops[..4 + k] == [DeletePart, WritePart, PromotePart(zip), MakeExtraction] + MemberWrites(zip.entries[..k])
  {
  }

  /** The disk after a crash just before the k-th member is written. */
  lemma CrashDuringExtraction(c: Codec, q: Request, zip: ZipFile, k: nat)
    requires q.faults == NO_FAULTS && q.reply.Complete? && q.reply.zip == zip
    requires Extractable(c.lists, zip) && HashAccepted(q.resource.upstreamHash, c.sha256(zip))
    requires k < |zip.entries|
    ensures AfterSession(c, Session(q, 4 + k), EMPTY_DISK)
      == Disk(false, Some(zip), Some(FullExtraction(zip.entries[..k])), None, None)
  {
    var rest := ScratchPlanStart(c, q, zip);
    var start := [DeletePart, WritePart, PromotePart(zip), MakeExtraction];
    PrefixShape(zip, k, rest, RunPlan(c, q, EMPTY_DISK).ops);
    ApplyAllConcat(start, MemberWrites(zip.entries[..k]), EMPTY_DISK);
    StartDisk(zip);
    FullExtractionOnDisk(zip.entries[..k], Disk(false, Some(zip), Some(map[]), None, None));
  }

  lemma {:induction false} ConvertedOverOnlyListed(c: Codec, dir: Files, names: seq<string>, base: Files, f: string)
    requires forall n :: n in names ==> n in dir
    requires f !in base && forall n :: n in dir && IsTxt(n) ==> ParquetName(n) != f
    ensures f !in ConvertedOver(c, dir, names, base)
    decreases |names|
  {
    if names != [] {
      if IsTxt(names[0]) {
        match c.convert(dir[names[0]])
        case None =>
        case Some(out) => ConvertedOverOnlyListed(c, dir, names[1..], base[ParquetName(names[0]) := out], f);
      } else {
        ConvertedOverOnlyListed(c, dir, names[1..], base, f);
      }
    }
  }

  /** A resume from a valid extraction publishes the conversion of just what was extracted. */
  lemma ExtractedResumePublishes(c: Codec, q: Request, zip: ZipFile, d: Disk)
    requires RequiredNamesTxt(c.lists) && ValidRequest(q) && Favourable(c, q, zip) && DiskInv(c, d) && !Installed(d)
    requires d.zip == Some(zip) && d.parquet.None? && d.extraction.Some? && RequiredOnDisk(c.lists, d.extraction.value)
    ensures RunPlan(c, q, d).result.Ok? && Installed(RunEnd(c, q, d))
    ensures RunEnd(c, q, d).published.value.files == Conversion(c, q, d.extraction.value)
  {
    SightIsNeverMisled(c, NOTHING_MISSED, d);
    RunGood(c, q, d);
  }

  /**
   Completeness is only promised for required members: once the required ones are on disk, a
   crash right there loses the conversion of every later member whose stem is new, although
   the next run succeeds without any fault.
   */
  lemma LaterMemberCanBeLost(c: Codec, q: Request, zip: ZipFile, k: nat, i: nat)
    requires RequiredNamesTxt(c.lists) && ValidRequest(q) && Favourable(c, q, zip)
    requires q.reply.Complete? && q.reply.zip == zip && k <= i < |zip.entries|
    requires RequiredOnDisk(c.lists, FullExtraction(zip.entries[..k]))
    requires IsTxt(zip.entries[i].name)
    requires forall j :: 0 <= j < k && IsTxt(zip.entries[j].name) ==>
      ParquetName(zip.entries[j].name) != ParquetName(zip.entries[i].name)
    ensures var crashed := AfterSession(c, Session(q, 4 + k), EMPTY_DISK);
      && !Installed(crashed)
      && RunPlan(c, q, crashed).result.Ok?
      && Installed(RunEnd(c, q, crashed))
      && ParquetName(zip.entries[i].name) !in RunEnd(c, q, crashed).published.value.files
  {
    CrashDuringExtraction(c, q, zip, k);
    var crashed := AfterSession(c, Session(q, 4 + k), EMPTY_DISK);
    SessionKeepsInvariant(c, Session(q, 4 + k), EMPTY_DISK);
    ExtractedResumePublishes(c, q, zip, crashed);
    EarlierMembersOnly(c, q, zip, k, ParquetName(zip.entries[i].name));
  }

  lemma EarlierMembersOnly(c: Codec, q: Request, zip: ZipFile, k: nat, f: string)
    requires zip.Readable? && k <= |zip.entries|
    requires forall j :: 0 <= j < k && IsTxt(zip.entries[j].name) ==> ParquetName(zip.entries[j].name) != f
    ensures f !in Conversion(c, q, FullExtraction(zip.entries[..k]))
  {
    var dir := FullExtraction(zip.entries[..k]);
    ExtractedFromArchive(zip.entries[..k], k);
    assert zip.entries[..k][..k] == zip.entries[..k];
    forall n | n in dir && IsTxt(n) ensures ParquetName(n) != f {
      assert HasEntry(Readable(zip.entries[..k]), n, dir[n]);
    }
    ConvertedOverOnlyListed(c, dir, Listed(q, dir), map[], f);
  }
}
