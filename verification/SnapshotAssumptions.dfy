/**
 Why two more assumptions are needed: a clean-up whose result is ignored must succeed, and
 the existence tests that guard a removal must see what is there. Every disk here is
 reached from an empty one.
 */
module SnapshotAssumptions {
  import opened Wrappers
  import opened Domain
  import opened Archive
  import opened Snapshot
  import opened SnapshotSafety
  import opened SnapshotRecovery
  import opened SnapshotLimits
  import opened SnapshotTearing
  import opened SnapshotInspection

  // ---- Clean-up that fails unnoticed ----

  /** The operations of a run without those that fail unnoticed. */
  function Without(ops: seq<Op>, failed: set<Op>): seq<Op>
  {
    if ops == [] then []
    else (if ops[0] in failed then [] else [ops[0]]) + Without(ops[1..], failed)
  }

  function AfterSilentFailures(c: Codec, q: Request, failed: set<Op>, d: Disk): Disk
  {
    ApplyAll(Without(RunPlan(c, q, d).ops, failed), d)
  }

  lemma {:induction false} WithoutLater(a: seq<Op>, b: seq<Op>, failed: set<Op>)
    requires forall op :: op in a ==> op !in failed
    ensures Without(a + b, failed) == a + Without(b, failed)
  {
    if a == [] {
      assert a + b == b;
    } else {
      assert (a + b)[1..] == a[1..] + b;
      WithoutLater(a[1..], b, failed);
      assert [a[0]] + (a[1..] + Without(b, failed)) == a + Without(b, failed);
    }
  }

  lemma OnlyTheExtractionGoes()
    ensures Without([DeleteZip, DeleteExtraction, DeleteParquet], {DeleteZip, DeleteParquet}) == [DeleteExtraction]
  {
    var ops, failed := [DeleteZip, DeleteExtraction, DeleteParquet], {DeleteZip, DeleteParquet};
    assert ops[1..] == [DeleteExtraction, DeleteParquet] && ops[1..][1..] == [DeleteParquet] && ops[1..][1..][1..] == [];
    assert Without(ops[1..][1..], failed) == [];
    assert Without(ops[1..], failed) == [DeleteExtraction];
  }

  /** A run from an empty disk whose conversion fails after one file. */
  lemma FailsAfterOne(c: Codec, q: Request, zip: ZipFile, m: string) returns (f: string, out: string)
    requires RequiredNamesTxt(c.lists) && ValidRequest(q) && q.faults == NO_FAULTS.(convertAt := Some(1))
    requires Processable(c, zip) && HashAccepted(q.resource.upstreamHash, c.sha256(zip))
    requires q.reply.Complete? && q.reply.zip == zip && m in c.lists.required
    ensures RunPlan(c, q, EMPTY_DISK).ops
      == (ExtractOps(zip) + [MakeParquet, WriteParquet(f, out)]) + [DeleteZip, DeleteExtraction, DeleteParquet]
  {
    var dir, s := FullExtraction(zip.entries), Converting(FromScratch, FetchedOutcome(c, q));
    var writes := ParquetWrites(c, dir, Listed(q, dir));
    var rest := ScratchPlanStart(c, q, zip);
    ExtractedDiskGood(c, zip);
    ProcessableConverts(c, zip, dir);
    assert MemberOnDisk(dir, m) && IsListing(q.listing(dir), dir);
    var n := FirstWrite(c, dir, Listed(q, dir), m);
    f, out := ParquetName(n), c.convert(dir[n]).value;
    assert [MakeParquet] + writes[..1] == [MakeParquet, WriteParquet(f, out)];
    assert RunStage(c, q, s, ExtractedDisk(zip))
      == Stop([MakeParquet] + writes[..1] + [DeleteZip, DeleteExtraction, DeleteParquet], ParquetFailed);
    Regrouped(zip, [MakeParquet, WriteParquet(f, out)], [DeleteZip, DeleteExtraction, DeleteParquet]);
  }

  lemma Regrouped(zip: ZipFile, fill: seq<Op>, tail: seq<Op>)
    requires zip.Readable?
    ensures [DeletePart] + ([WritePart, PromotePart(zip)] + (([MakeExtraction] + MemberWrites(zip.entries)) + (fill + tail)))
      == (ExtractOps(zip) + fill) + tail
  {
  }

  lemma NothingDeleted(zip: ZipFile, f: string, out: string)
    requires zip.Readable?
    ensures forall op :: op in ExtractOps(zip) + [MakeParquet, WriteParquet(f, out)] ==> op !in {DeleteZip, DeleteParquet}
  {
  }

  lemma LeftByCleanUp(zip: ZipFile, f: string, out: string)
    requires zip.Readable?
    ensures var ops := (ExtractOps(zip) + [MakeParquet, WriteParquet(f, out)]) + [DeleteZip, DeleteExtraction, DeleteParquet];
      ApplyAll(Without(ops, {DeleteZip, DeleteParquet}), EMPTY_DISK)
        == Disk(false, Some(zip), None, Some(map[f := out]), None)
  {
    var done := ExtractOps(zip) + [MakeParquet, WriteParquet(f, out)];
    NothingDeleted(zip, f, out);
    WithoutLater(done, [DeleteZip, DeleteExtraction, DeleteParquet], {DeleteZip, DeleteParquet});
    OnlyTheExtractionGoes();
    ApplyAllSnoc(done, DeleteExtraction, EMPTY_DISK);
    OneConvertedDisk(zip, f, out);
  }

  /**
   The clean-up after a failed conversion must succeed. From an empty disk: a run whose
   conversion fails after one file and whose clean-up, unnoticed, removes neither the archive
   nor the conversion, and then a run without any fault publish an incomplete conversion.
   */
  lemma SilentCleanUpDefeatsRecovery(c: Codec, q: Request, last: Request, zip: ZipFile, a: string, b: string)
    requires RequiredNamesTxt(c.lists) && ValidRequest(q) && q.faults == NO_FAULTS.(convertAt := Some(1))
    requires Processable(c, zip) && HashAccepted(q.resource.upstreamHash, c.sha256(zip))
    requires q.reply.Complete? && q.reply.zip == zip && TwoRequired(c.lists, a, b)
    requires last.faults == NO_FAULTS && HashAccepted(last.resource.upstreamHash, c.sha256(zip))
    ensures PublishesTooLittle(c, last, AfterSilentFailures(c, q, {DeleteZip, DeleteParquet}, EMPTY_DISK))
  {
    var f, out := FailsAfterOne(c, q, zip, a);
    LeftByCleanUp(zip, f, out);
    OneFileIsNotAll(c, a, b, f, out);
    assert f in map[f := out];
    LeftAloneIsPublished(c, last, zip, map[f := out]);
  }

  // ---- Leftovers that are overlooked ----

  /** A run whose existence tests before the two removals find nothing. */
  function OverlookingPlan(c: Codec, q: Request, d: Disk): Plan
  {
    var d0 := Apply(DeletePart, d);
    Prepend([DeletePart], PlanFrom(c, q, Fetching(FindResumePoint(c, q.faults.missed, d0)), d0))
  }

  function AfterOverlooking(c: Codec, s: Session, d: Disk): Disk
  {
    var ops := OverlookingPlan(c, s.request, d).ops;
    ApplyAll(if s.stop < |ops| then ops[..s.stop] else ops, d)
  }

  /** What is left of an archive that upstream has replaced: the next run drops it, but not its extraction. */
  lemma ReplacedArchiveIsDropped(c: Codec, q: Request, zip: ZipFile)
    requires Extractable(c.lists, zip) && q.faults == NO_FAULTS && !HashAccepted(q.resource.upstreamHash, c.sha256(zip))
    ensures RunEnd(c, q, ExtractedDisk(zip)) == ExtractedDisk(zip).(zip := None)
  {
    var d := ExtractedDisk(zip);
    var outcome := RecomputedOutcome(c, zip);
    var resume := Extracted(outcome);
    assert Apply(DeletePart, d) == d && FindResumePoint(c, NOTHING_MISSED, d) == resume;
    StageSkips(c, q, Fetching(resume), Verifying(resume, outcome), d);
    StageSkips(c, q, Discarding(resume), Fetching(resume), d);
    assert PlanFrom(c, q, Verifying(resume, outcome), d).ops == [DeleteZip];
    assert RunPlan(c, q, d).ops == [DeletePart] + [DeleteZip];
    ApplyAllSnoc([DeletePart], DeleteZip, d);
    ApplyAllSnoc([], DeletePart, d);
  }

  /** A run that overlooks the extraction downloads the new archive beside it. */
  lemma OverlookingDownload(c: Codec, q: Request, zip: ZipFile, dir: Files)
    requires q.faults == NO_FAULTS && q.reply.Complete? && q.reply.zip == zip
    ensures AfterOverlooking(c, Session(q, 3), Disk(false, None, Some(dir), None, None))
      == Disk(false, Some(zip), Some(dir), None, None)
  {
    var d := Disk(false, None, Some(dir), None, None);
    var fetched := [WritePart, PromotePart(zip)];
    assert Apply(DeletePart, d) == d;
    StageGoes(c, q, Fetching(FromScratch), fetched, Verifying(FromScratch, FetchedOutcome(c, q)), d);
    var rest := PlanFrom(c, q, Verifying(FromScratch, FetchedOutcome(c, q)), ApplyAll(fetched, d)).ops;
    assert OverlookingPlan(c, q, d).ops == [DeletePart, WritePart, PromotePart(zip)] + rest;
    ApplyThree([DeletePart, WritePart, PromotePart(zip)], d);
    assert ([DeletePart, WritePart, PromotePart(zip)] + rest)[..3] == [DeletePart, WritePart, PromotePart(zip)];
  }

  lemma {:induction false} ParquetWritesDisk(c: Codec, dir: Files, names: seq<string>, d: Disk)
    requires (forall n :: n in names ==> n in dir) && d.parquet.Some?
    ensures ApplyAll(ParquetWrites(c, dir, names), d)
      == d.(parquet := Some(ConvertedOver(c, dir, names, d.parquet.value)))
    decreases |names|
  {
    if names != [] {
      if IsTxt(names[0]) {
        match c.convert(dir[names[0]])
        case None =>
        case Some(out) => ParquetWritesDisk(c, dir, names[1..], Apply(WriteParquet(ParquetName(names[0]), out), d));
      } else {
        ParquetWritesDisk(c, dir, names[1..], d);
      }
    }
  }

  /** Converting whatever is extracted. */
  lemma ConvertDisk(c: Codec, q: Request, d: Disk)
    requires d.extraction.Some?
    ensures ApplyAll([MakeParquet] + ParquetWrites(c, d.extraction.value, Listed(q, d.extraction.value)) + [DeleteExtraction], d)
      == d.(parquet := Some(Conversion(c, q, d.extraction.value)), extraction := None)
  {
    var writes := ParquetWrites(c, d.extraction.value, Listed(q, d.extraction.value));
    ApplyAllSnoc([MakeParquet] + writes, DeleteExtraction, d);
    ApplyAllConcat([MakeParquet], writes, d);
    ApplyAllSnoc([], MakeParquet, d);
    ParquetWritesDisk(c, d.extraction.value, Listed(q, d.extraction.value), Apply(MakeParquet, d));
  }

  /** A resume from a valid extraction converts and publishes it under the hash of the archive beside it. */
  lemma ExtractedIsPublishedAsIs(c: Codec, q: Request, zip: ZipFile, dir: Files)
    requires q.faults == NO_FAULTS && HashAccepted(q.resource.upstreamHash, c.sha256(zip))
    requires RequiredOnDisk(c.lists, dir) && AllConvert(c, dir)
    ensures RunEnd(c, q, Disk(false, Some(zip), Some(dir), None, None)).published
      == Some(FinalDir(Conversion(c, q, dir), Some(MetaFor(q, RecomputedOutcome(c, zip)))))
  {
    var d := Disk(false, Some(zip), Some(dir), None, None);
    var outcome := RecomputedOutcome(c, zip);
    var resume := Extracted(outcome);
    var ops := [MakeParquet] + ParquetWrites(c, dir, Listed(q, dir)) + [DeleteExtraction];
    assert Apply(DeletePart, d) == d && FindResumePoint(c, NOTHING_MISSED, d) == resume;
    StageGoes(c, q, Converting(resume, outcome), ops, Publishing(outcome), d);
    StageSkips(c, q, Extracting(resume, outcome), Converting(resume, outcome), d);
    StageSkips(c, q, Verifying(resume, outcome), Extracting(resume, outcome), d);
    StageSkips(c, q, Fetching(resume), Verifying(resume, outcome), d);
    StageSkips(c, q, Discarding(resume), Fetching(resume), d);
    ConvertDisk(c, q, d);
    var d1 := ApplyAll(ops, d);
    FaultFreePublish(c, q, outcome, d1);
    ApplyAllConcat(ops, PlanFrom(c, q, Publishing(outcome), d1).ops, d);
    ApplyAllConcat([DeletePart], PlanFrom(c, q, Discarding(resume), d).ops, d);
    ApplyAllSnoc([], DeletePart, d);
  }

  /** No member of the two archives is converted alike. */
  ghost predicate NothingInCommon(c: Codec, a: ZipFile, b: ZipFile)
  {
    forall f, out :: HasConversion(c, a, f, out) ==> !HasConversion(c, b, f, out)
  }

  /**
   The existence tests must see what is there. From an empty disk: a run that crashes once
   everything is extracted; upstream replaces the archive, and the next run drops the old one;
   a run that overlooks its extraction crashes once the new archive is there; and then a run
   without any fault publishes the old members under the size and hash of the new archive.
   */
  lemma OverlookedExtractionDefeatsRecovery(c: Codec, q: Request, changed: Request, was: ZipFile, now: ZipFile, m: string)
    requires RequiredNamesTxt(c.lists) && ValidRequest(q) && Favourable(c, q, was) && m in c.lists.required
    requires q.reply.Complete? && q.reply.zip == was
    requires ValidRequest(changed) && changed.faults == NO_FAULTS && changed.reply.Complete? && changed.reply.zip == now
    requires !HashAccepted(changed.resource.upstreamHash, c.sha256(was))
    requires HashAccepted(changed.resource.upstreamHash, c.sha256(now)) && NothingInCommon(c, was, now)
    ensures var dropped := RunEnd(c, changed, AfterSession(c, Session(q, |ExtractOps(was)|), EMPTY_DISK));
      var end := RunEnd(c, changed, AfterOverlooking(c, Session(changed, 3), dropped));
      && Installed(end)
      && end.published.value.sidecar.value.archiveSha256 == c.sha256(now)
      && !ConvertedFrom(c, now, end.published.value.files)
  {
    var dir := FullExtraction(was.entries);
    CrashAfterExtraction(c, q, was);
    ReplacedArchiveIsDropped(c, changed, was);
    OverlookingDownload(c, changed, now, dir);
    ExtractedDiskGood(c, was);
    ProcessableConverts(c, was, dir);
    ExtractedIsPublishedAsIs(c, changed, now, dir);
    OldMembersShow(c, changed, was, now, m);
  }

  lemma CrashAfterExtraction(c: Codec, q: Request, zip: ZipFile)
    requires Favourable(c, q, zip) && q.reply.Complete? && q.reply.zip == zip
    ensures AfterSession(c, Session(q, |ExtractOps(zip)|), EMPTY_DISK) == ExtractedDisk(zip)
  {
    var rest := ScratchPlan(c, q, zip);
    ExtractOpsDisk(zip);
    var later := FillOps(c, q, zip) + ([DeleteExtraction] + rest);
    assert (ExtractOps(zip) + later)[..|ExtractOps(zip)|] == ExtractOps(zip);
  }

  lemma OldMembersShow(c: Codec, q: Request, was: ZipFile, now: ZipFile, m: string)
    requires RequiredNamesTxt(c.lists) && ValidRequest(q) && Processable(c, was) && m in c.lists.required
    requires NothingInCommon(c, was, now)
    ensures !ConvertedFrom(c, now, Conversion(c, q, FullExtraction(was.entries)))
  {
    var dir := FullExtraction(was.entries);
    var d := ExtractedDisk(was);
    ExtractedDiskGood(c, was);
    ProcessableConverts(c, was, dir);
    ConversionIsComplete(c, q, dir);
    FillSafe(c, q, was, d);
    SafeEnd(c, FillOps(c, q, was), d);
    assert ConvertedFrom(c, was, Conversion(c, q, dir));
    assert ParquetName(m) in Conversion(c, q, dir);
  }
}
