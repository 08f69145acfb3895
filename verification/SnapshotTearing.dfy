/**
 Why the granularity matters: a file write or a directory removal that stops half-way can
 defeat crash recovery. Every disk here is reached from an empty one by runs of the plan.
 */
module SnapshotTearing {
  import opened Wrappers
  import opened Domain
  import opened Archive
  import opened Snapshot
  import opened SnapshotSafety
  import opened SnapshotRecovery
  import opened SnapshotLimits

  // ---- Operations that stop half-way ----

  /** How far an operation got: the files a removal has left, or the length a write has reached. */
  datatype Tear = Keeping(files: set<string>) | Truncated(length: nat)

  function Kept(dir: Files, files: set<string>): Files
  {
    map n | n in dir && n in files :: dir[n]
  }

  function Cut(content: string, length: nat): string
  {
    if length < |content| then content[..length] else content
  }

  /** The disk when this operation stops half-way; only removals and Parquet writes are torn. */
  function Torn(op: Op, tear: Tear, d: Disk): Disk
  {
    match op
    case DeleteExtraction =>
      if tear.Keeping? && d.extraction.Some? then d.(extraction := Some(Kept(d.extraction.value, tear.files))) else d
    case DeleteParquet =>
      if tear.Keeping? && d.parquet.Some? then d.(parquet := Some(Kept(d.parquet.value, tear.files))) else d
    case WriteParquet(name, content) =>
      if tear.Truncated? then Apply(WriteParquet(name, Cut(content, tear.length)), d) else d
    case _ => d
  }

  /** A run whose operation `k` stops half-way. */
  function AfterTornRun(c: Codec, q: Request, k: nat, tear: Tear, d: Disk): Disk
  {
    var ops := RunPlan(c, q, d).ops;
    if k < |ops| then Torn(ops[k], tear, ApplyAll(ops[..k], d)) else ApplyAll(ops, d)
  }

  lemma TornAfter(c: Codec, q: Request, before: seq<Op>, op: Op, rest: seq<Op>, tear: Tear, d: Disk)
    requires RunPlan(c, q, d).ops == before + ([op] + rest)
    ensures AfterTornRun(c, q, |before|, tear, d) == Torn(op, tear, ApplyAll(before, d))
  {
    assert (before + ([op] + rest))[..|before|] == before;
  }

  // ---- The plan of a run from an empty disk, up to the sweep ----

  function ExtractOps(zip: ZipFile): seq<Op>
    requires zip.Readable?
  {
    [DeletePart, WritePart, PromotePart(zip), MakeExtraction] + MemberWrites(zip.entries)
  }

  function FillOps(c: Codec, q: Request, zip: ZipFile): seq<Op>
    requires zip.Readable?
  {
    var dir := FullExtraction(zip.entries);
    [MakeParquet] + ParquetWrites(c, dir, Listed(q, dir))
  }

  lemma ExtractOpsDisk(zip: ZipFile)
    requires zip.Readable?
    ensures ApplyAll(ExtractOps(zip), EMPTY_DISK) == ExtractedDisk(zip)
  {
    var start := [DeletePart, WritePart, PromotePart(zip), MakeExtraction];
    StartDisk(zip);
    ApplyAllConcat(start, MemberWrites(zip.entries), EMPTY_DISK);
    FullExtractionOnDisk(zip.entries, Disk(false, Some(zip), Some(map[]), None, None));
  }

  lemma ExtractedDiskGood(c: Codec, zip: ZipFile)
    requires Extractable(c.lists, zip)
    ensures DiskInv(c, ExtractedDisk(zip)) && !Installed(ExtractedDisk(zip))
  {
    ExtractedFromArchive(zip.entries, |zip.entries|);
    assert zip.entries[..|zip.entries|] == zip.entries;
  }

  lemma FillOpsDisk(c: Codec, q: Request, zip: ZipFile)
    requires Extractable(c.lists, zip)
    ensures ApplyAll(FillOps(c, q, zip), ExtractedDisk(zip))
      == ExtractedDisk(zip).(parquet := Some(Conversion(c, q, FullExtraction(zip.entries))))
  {
    ExtractedDiskGood(c, zip);
    FillSafe(c, q, zip, ExtractedDisk(zip));
  }

  /** The convert stage fills the Parquet staging and sweeps the extraction. */
  lemma FillThenSweep(c: Codec, q: Request, zip: ZipFile, outcome: DownloadOutcome) returns (rest: seq<Op>)
    requires q.faults == NO_FAULTS && Processable(c, zip)
    ensures PlanFrom(c, q, Converting(FromScratch, outcome), ExtractedDisk(zip)).ops
      == FillOps(c, q, zip) + ([DeleteExtraction] + rest)
  {
    var s, d := Converting(FromScratch, outcome), ExtractedDisk(zip);
    var ops := FillOps(c, q, zip) + [DeleteExtraction];
    ExtractedDiskGood(c, zip);
    ProcessableConverts(c, zip, FullExtraction(zip.entries));
    assert RunStage(c, q, s, d) == Go(ops, Publishing(outcome));
    StageGoes(c, q, s, ops, Publishing(outcome), d);
    rest := PlanFrom(c, q, Publishing(outcome), ApplyAll(ops, d)).ops;
    assert ops + rest == FillOps(c, q, zip) + ([DeleteExtraction] + rest);
  }

  lemma ScratchPlan(c: Codec, q: Request, zip: ZipFile) returns (rest: seq<Op>)
    requires Favourable(c, q, zip) && q.reply.Complete? && q.reply.zip == zip
    ensures RunPlan(c, q, EMPTY_DISK).ops == ExtractOps(zip) + (FillOps(c, q, zip) + ([DeleteExtraction] + rest))
  {
    var left := ScratchPlanStart(c, q, zip);
    rest := FillThenSweep(c, q, zip, FetchedOutcome(c, q));
    assert [DeletePart] + ([WritePart, PromotePart(zip)] + (([MakeExtraction] + MemberWrites(zip.entries)) + left))
      == ExtractOps(zip) + left;
  }

  // ---- A torn write ----

  lemma {:induction false} ConvertedOverNonEmpty(c: Codec, dir: Files, names: seq<string>, base: Files)
    requires forall n :: n in names ==> n in dir
    requires forall x :: c.convert(x) != Some("")
    requires forall f :: f in base ==> base[f] != ""
    ensures forall f :: f in ConvertedOver(c, dir, names, base) ==> ConvertedOver(c, dir, names, base)[f] != ""
    decreases |names|
  {
    if names != [] {
      if IsTxt(names[0]) {
        match c.convert(dir[names[0]])
        case None =>
        case Some(out) =>
          assert c.convert(dir[names[0]]) != Some("");
          ConvertedOverNonEmpty(c, dir, names[1..], base[ParquetName(names[0]) := out]);
      } else {
        ConvertedOverNonEmpty(c, dir, names[1..], base);
      }
    }
  }

  /** A complete conversion but for one torn, non-empty file is trusted and published as it is. */
  lemma TornConversionIsPublished(c: Codec, q: Request, zip: ZipFile, dir: Files, n: string, torn: string)
    requires RequiredNamesTxt(c.lists) && ValidRequest(q) && q.faults == NO_FAULTS
    requires HashAccepted(q.resource.upstreamHash, c.sha256(zip))
    requires forall x :: c.convert(x) != Some("")
    requires FromArchive(zip, dir) && RequiredOnDisk(c.lists, dir) && AllConvert(c, dir)
    requires n in dir && IsTxt(n) && torn != "" && forall x :: c.convert(x) != Some(torn)
    ensures var files := Conversion(c, q, dir)[ParquetName(n) := torn];
      var end := RunEnd(c, q, Disk(false, Some(zip), Some(dir), Some(files), None));
      Installed(end) && end.published.value.files == files && !ConvertedFrom(c, zip, files)
  {
    var files := Conversion(c, q, dir)[ParquetName(n) := torn];
    var d := Disk(false, Some(zip), Some(dir), Some(files), None);
    assert IsListing(q.listing(dir), dir);
    ConvertedOverCovers(c, dir, Listed(q, dir), map[]);
    ConvertedOverNonEmpty(c, dir, Listed(q, dir), map[]);
    forall x | x in dir && IsTxt(x) ensures NonEmptyFile(files, ParquetName(x)) {
    }
    assert PassesForConverted(NOTHING_MISSED, d);
    TrustedAsIs(c, q, zip, d);
    assert !HasConversion(c, zip, ParquetName(n), torn);
    assert files[ParquetName(n)] == torn;
  }

  /** The last file a conversion writes. */
  lemma {:induction false} LastWrite(c: Codec, dir: Files, names: seq<string>, m: string) returns (n: string)
    requires (forall x :: x in names ==> x in dir) && AllConvert(c, dir) && m in names && IsTxt(m)
    ensures var writes := ParquetWrites(c, dir, names);
      && n in dir && IsTxt(n) && writes != []
      && writes[|writes| - 1] == WriteParquet(ParquetName(n), c.convert(dir[n]).value)
    decreases |names|
  {
    var tail := names[1..];
    if x :| x in tail && IsTxt(x) {
      n := LastWrite(c, dir, tail, x);
    } else {
      n := names[0];
      NoTxtNoWrites(c, dir, tail);
    }
  }

  lemma {:induction false} NoTxtNoWrites(c: Codec, dir: Files, names: seq<string>)
    requires (forall x :: x in names ==> x in dir) && forall x :: x in names ==> !IsTxt(x)
    ensures ParquetWrites(c, dir, names) == []
    decreases |names|
  {
    if names != [] {
      NoTxtNoWrites(c, dir, names[1..]);
    }
  }

  /** A truncated file passes for non-empty, but is shorter than any conversion. */
  ghost predicate TruncationShows(c: Codec, length: nat)
  {
    length > 0 && forall x :: c.convert(x).Some? ==> |c.convert(x).value| > length
  }

  /** Tearing the last write of a conversion leaves all the others and the torn file. */
  lemma TornLastWrite(c: Codec, q: Request, zip: ZipFile, m: string, length: nat) returns (k: nat, n: string)
    requires RequiredNamesTxt(c.lists) && ValidRequest(q) && Favourable(c, q, zip)
    requires q.reply.Complete? && q.reply.zip == zip && m in c.lists.required
    ensures var dir := FullExtraction(zip.entries);
      && n in dir && IsTxt(n) && c.convert(dir[n]).Some?
      && AfterTornRun(c, q, k, Truncated(length), EMPTY_DISK)
         == ExtractedDisk(zip).(parquet :=
              Some(Conversion(c, q, dir)[ParquetName(n) := Cut(c.convert(dir[n]).value, length)]))
  {
    var dir := FullExtraction(zip.entries);
    var names := Listed(q, dir);
    var writes := ParquetWrites(c, dir, names);
    ExtractedDiskGood(c, zip);
    ProcessableConverts(c, zip, dir);
    assert MemberOnDisk(dir, m) && IsListing(q.listing(dir), dir);
    n := LastWrite(c, dir, names, m);
    var fill, last := [MakeParquet] + writes[..|writes| - 1], writes[|writes| - 1];
    assert FillOps(c, q, zip) == fill + [last];
    k := |ExtractOps(zip) + fill|;
    TornInFill(c, q, zip, fill, last, length);
    FillOpsDisk(c, q, zip);
    ApplyAllSnoc(fill, last, ExtractedDisk(zip));
    TornWriteDisk(c, ApplyAll(fill, ExtractedDisk(zip)), n, c.convert(dir[n]).value, length);
  }

  lemma Regroup(a: seq<Op>, b: seq<Op>, op: Op, rest: seq<Op>)
    ensures a + ((b + [op]) + rest) == (a + b) + ([op] + rest)
  {
  }

  lemma TornInFill(c: Codec, q: Request, zip: ZipFile, fill: seq<Op>, last: Op, length: nat)
    requires Favourable(c, q, zip) && q.reply.Complete? && q.reply.zip == zip
    requires FillOps(c, q, zip) == fill + [last]
    ensures AfterTornRun(c, q, |ExtractOps(zip) + fill|, Truncated(length), EMPTY_DISK)
      == Torn(last, Truncated(length), ApplyAll(fill, ExtractedDisk(zip)))
  {
    var before := ExtractOps(zip) + fill;
    var rest := ScratchPlan(c, q, zip);
    Regroup(ExtractOps(zip), fill, last, [DeleteExtraction] + rest);
    TornAfter(c, q, before, last, [DeleteExtraction] + rest, Truncated(length), EMPTY_DISK);
    ExtractOpsDisk(zip);
    ApplyAllConcat(ExtractOps(zip), fill, EMPTY_DISK);
  }

  lemma TornWriteDisk(c: Codec, d: Disk, n: string, out: string, length: nat)
    requires |n| > 4 && Apply(WriteParquet(ParquetName(n), out), d).parquet.Some?
    ensures var whole := Apply(WriteParquet(ParquetName(n), out), d);
      Torn(WriteParquet(ParquetName(n), out), Truncated(length), d)
        == whole.(parquet := Some(whole.parquet.value[ParquetName(n) := Cut(out, length)]))
  {
    var f, cut := ParquetName(n), Cut(out, length);
    assert d.parquet.Some? && d.parquet.value[f := out][f := cut] == d.parquet.value[f := cut];
  }

  /**
   Member writes must be atomic. From an empty disk: a run whose last Parquet write stops
   half-way, and then a run without any fault, publish the torn file, which is a conversion
   of no member of the archive.
   */
  lemma TornWriteDefeatsRecovery(c: Codec, q: Request, zip: ZipFile, m: string, length: nat) returns (k: nat)
    requires RequiredNamesTxt(c.lists) && ValidRequest(q) && Favourable(c, q, zip)
    requires q.reply.Complete? && q.reply.zip == zip && m in c.lists.required && TruncationShows(c, length)
    ensures var end := RunEnd(c, q, AfterTornRun(c, q, k, Truncated(length), EMPTY_DISK));
      Installed(end) && !ConvertedFrom(c, zip, end.published.value.files)
  {
    var dir, n := FullExtraction(zip.entries), "";
    k, n := TornLastWrite(c, q, zip, m, length);
    ExtractedDiskGood(c, zip);
    ProcessableConverts(c, zip, dir);
    TornConversionIsPublished(c, q, zip, dir, n, Cut(c.convert(dir[n]).value, length));
  }

  // ---- Torn removals ----

  /** The sweep after a complete conversion stops when no `*.txt` file, but the directory itself, is left. */
  lemma TornSweep(c: Codec, q: Request, zip: ZipFile, names: set<string>) returns (k: nat)
    requires Favourable(c, q, zip) && q.reply.Complete? && q.reply.zip == zip
    ensures var dir := FullExtraction(zip.entries);
      AfterTornRun(c, q, k, Keeping(names), EMPTY_DISK)
        == Disk(false, Some(zip), Some(Kept(dir, names)), Some(Conversion(c, q, dir)), None)
  {
    var rest := ScratchPlan(c, q, zip);
    var before := ExtractOps(zip) + FillOps(c, q, zip);
    k := |before|;
    assert RunPlan(c, q, EMPTY_DISK).ops == before + ([DeleteExtraction] + rest);
    TornAfter(c, q, before, DeleteExtraction, rest, Keeping(names), EMPTY_DISK);
    ExtractOpsDisk(zip);
    ApplyAllConcat(ExtractOps(zip), FillOps(c, q, zip), EMPTY_DISK);
    FillOpsDisk(c, q, zip);
  }

  /** The next run removes the extraction first and then the conversion; the latter stops half-way. */
  lemma TornDiscard(c: Codec, q: Request, zip: ZipFile, rest: Files, files: Files, m: string, kept: set<string>)
    requires RequiredNamesTxt(c.lists) && m in c.lists.required && (forall n :: n in rest ==> !IsTxt(n))
    requires q.faults == NO_FAULTS
    ensures AfterTornRun(c, q, 2, Keeping(kept), Disk(false, Some(zip), Some(rest), Some(files), None))
      == Disk(false, Some(zip), None, Some(Kept(files, kept)), None)
  {
    var d := Disk(false, Some(zip), Some(rest), Some(files), None);
    var resume := FindResumePoint(c, NOTHING_MISSED, d);
    assert !MemberOnDisk(rest, m) && resume.Downloaded?;
    var discard := [DeleteExtraction, DeleteParquet];
    assert [DeleteExtraction] + [DeleteParquet] == discard;
    assert Apply(DeletePart, d) == d;
    StageGoes(c, q, Discarding(resume), discard, Fetching(resume), d);
    var left := PlanFrom(c, q, Fetching(resume), ApplyAll(discard, d)).ops;
    var before := [DeletePart, DeleteExtraction];
    assert RunPlan(c, q, d).ops == before + ([DeleteParquet] + left);
    TornAfter(c, q, before, DeleteParquet, left, Keeping(kept), d);
    ApplyAllSnoc([DeletePart], DeleteExtraction, d);
    ApplyAllSnoc([], DeletePart, d);
    assert [DeletePart] + [DeleteExtraction] == before;
  }

  /**
   Directory removals must be atomic. From an empty disk: a run whose sweep stops when every
   `*.txt` file but not the directory is gone, a run whose removal of the conversion stops
   half-way, and then a run without any fault, publish an incomplete conversion.
   */
  lemma HalfRemovalDefeatsRecovery(c: Codec, q: Request, zip: ZipFile, names: set<string>, kept: set<string>, m: string)
      returns (k: nat)
    requires RequiredNamesTxt(c.lists) && Favourable(c, q, zip) && q.reply.Complete? && q.reply.zip == zip
    requires m in c.lists.required && ParquetName(m) !in kept
    requires (forall n :: n in names ==> !IsTxt(n)) && kept * Conversion(c, q, FullExtraction(zip.entries)).Keys != {}
    ensures var swept := AfterTornRun(c, q, k, Keeping(names), EMPTY_DISK);
      var halved := AfterTornRun(c, q, 2, Keeping(kept), swept);
      var end := RunEnd(c, q, halved);
      Installed(end) && !AllRequiredConverted(c, end.published.value.files)
  {
    var dir := FullExtraction(zip.entries);
    var files := Conversion(c, q, dir);
    k := TornSweep(c, q, zip, names);
    TornDiscard(c, q, zip, Kept(dir, names), files, m, kept);
    var f :| f in kept * files.Keys;
    assert f in Kept(files, kept);
    TrustedAsIs(c, q, zip, Disk(false, Some(zip), None, Some(Kept(files, kept)), None));
  }
}
