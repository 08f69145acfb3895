/**
 Crash safety of staged publication: every prefix of every run keeps the disk invariant,
 a run publishes exactly when it succeeds, and what it publishes is a complete conversion
 of one archive that passed the upstream-hash check.
 */
module SnapshotSafety {
  import opened Wrappers
  import opened Domain
  import opened Paths
  import opened Archive
  import opened Manifest
  import opened Snapshot

  /** `outcome` describes this very archive. */
  predicate OutcomeOf(c: Codec, zip: ZipFile, outcome: DownloadOutcome)
  {
    outcome.bytes == c.size(zip) && outcome.sha256 == c.sha256(zip)
  }

  /** The sidecar names the version, the directory it was published under, and a verified archive. */
  ghost predicate MetaMatches(q: Request, meta: SnapshotMeta)
  {
    && meta.version == q.resource.version
    && meta.extractPath == ArtifactPath(q.layout, Final, SnapshotDirName(q.resource.namePrefix, q.resource.version))
    && meta.status == Verified
  }

  lemma SafeStep(c: Codec, op: Op, rest: seq<Op>, d: Disk)
    requires DiskInv(c, d) && !Installed(d) && Safe(c, rest, Apply(op, d))
    ensures Safe(c, [op] + rest, d)
    ensures ApplyAll([op] + rest, d) == ApplyAll(rest, Apply(op, d))
  {
    assert ([op] + rest)[1..] == rest;
  }

  lemma SafeOne(c: Codec, op: Op, d: Disk)
    requires DiskInv(c, d) && !Installed(d) && DiskInv(c, Apply(op, d))
    ensures Safe(c, [op], d) && ApplyAll([op], d) == Apply(op, d)
  {
    SafeStep(c, op, [], d);
    assert [op] + [] == [op];
  }

  /** Operations that can create neither a `.zip` nor a sidecar. */
  predicate Harmless(op: Op)
  {
    !op.PromotePart? && !op.WriteSidecar? && !op.RenameToFinal?
  }

  /** Once the `.zip` is gone nothing in staging is trusted, so anything harmless is safe. */
  lemma {:induction false} NoZipSafe(c: Codec, ops: seq<Op>, d: Disk)
    requires d.zip.None? && !Installed(d)
    requires forall op :: op in ops ==> Harmless(op)
    ensures Safe(c, ops, d) && !Installed(ApplyAll(ops, d))
    decreases |ops|
  {
    if ops != [] {
      assert Harmless(ops[0]);
      NoZipSafe(c, ops[1..], Apply(ops[0], d));
    }
  }

  /** A failing stage that first drops the `.zip` ends safely and uninstalled. */
  lemma AbandonSafe(c: Codec, ops: seq<Op>, tail: seq<Op>, d: Disk)
    requires Safe(c, ops, d) && !Installed(ApplyAll(ops, d))
    requires forall op :: op in tail ==> Harmless(op)
    ensures Safe(c, ops + ([DeleteZip] + tail), d) && !Installed(ApplyAll(ops + ([DeleteZip] + tail), d))
  {
    var m := ApplyAll(ops, d);
    SafeEnd(c, ops, d);
    NoZipSafe(c, tail, Apply(DeleteZip, m));
    SafeStep(c, DeleteZip, tail, m);
    SafeConcat(c, ops, [DeleteZip] + tail, d);
    ApplyAllConcat(ops, [DeleteZip] + tail, d);
  }

  lemma SafeEnd(c: Codec, ops: seq<Op>, d: Disk)
    requires Safe(c, ops, d)
    ensures DiskInv(c, ApplyAll(ops, d))
  {
    SafeAtEveryPrefix(c, ops, d, |ops|);
    assert ops[..|ops|] == ops;
  }

  /** The files a conversion in this listing order leaves over `base`. */
  function ConvertedOver(c: Codec, dir: Files, names: seq<string>, base: Files): Files
    requires forall n :: n in names ==> n in dir
  {
    if names == [] then base
    else if !IsTxt(names[0]) then ConvertedOver(c, dir, names[1..], base)
    else
      match c.convert(dir[names[0]])
      case None => base
      case Some(out) => ConvertedOver(c, dir, names[1..], base[ParquetName(names[0]) := out])
  }

  lemma {:induction false} ParquetWritesSafe(c: Codec, dir: Files, names: seq<string>, zip: ZipFile, d: Disk)
    requires forall n :: n in names ==> n in dir
    requires DiskInv(c, d) && !Installed(d)
    requires d.zip == Some(zip) && d.extraction == Some(dir) && d.parquet.Some?
    ensures Safe(c, ParquetWrites(c, dir, names), d)
    ensures ApplyAll(ParquetWrites(c, dir, names), d)
      == d.(parquet := Some(ConvertedOver(c, dir, names, d.parquet.value)))
    decreases |names|
  {
    if names != [] {
      if IsTxt(names[0]) {
        match c.convert(dir[names[0]])
        case None =>
        case Some(out) =>
          var op := WriteParquet(ParquetName(names[0]), out);
          assert HasEntry(zip, names[0], dir[names[0]]);
          assert HasConversion(c, zip, ParquetName(names[0]), out);
          ParquetWritesSafe(c, dir, names[1..], zip, Apply(op, d));
          SafeStep(c, op, ParquetWrites(c, dir, names[1..]), d);
      } else {
        ParquetWritesSafe(c, dir, names[1..], zip, d);
      }
    }
  }

  /** When every member converts, the result holds a file for each listed `*.txt` name. */
  lemma {:induction false} ConvertedOverCovers(c: Codec, dir: Files, names: seq<string>, base: Files)
    requires forall n :: n in names ==> n in dir
    requires AllConvert(c, dir)
    ensures forall f :: f in base ==> f in ConvertedOver(c, dir, names, base)
    ensures forall n :: n in names && IsTxt(n) ==> ParquetName(n) in ConvertedOver(c, dir, names, base)
    decreases |names|
  {
    if names != [] {
      if IsTxt(names[0]) {
        var f, out := ParquetName(names[0]), c.convert(dir[names[0]]).value;
        ConvertedOverCovers(c, dir, names[1..], base[f := out]);
        assert f in base[f := out];
      } else {
        ConvertedOverCovers(c, dir, names[1..], base);
      }
      assert forall n :: n in names ==> n == names[0] || n in names[1..];
    }
  }

  // ---- Extraction ----

  lemma {:induction false} MemberWritesSafe(c: Codec, zip: ZipFile, lo: nat, hi: nat, d: Disk)
    requires zip.Readable? && lo <= hi <= |zip.entries|
    requires !Installed(d) && d.zip == Some(zip) && d.parquet.None?
    requires d.extraction == Some(FullExtraction(zip.entries[..lo]))
    ensures Safe(c, MemberWrites(zip.entries[lo..hi]), d)
    ensures ApplyAll(MemberWrites(zip.entries[lo..hi]), d) == d.(extraction := Some(FullExtraction(zip.entries[..hi])))
    decreases hi - lo
  {
    ExtractedFromArchive(zip.entries, lo);
    if lo < hi {
      var e := zip.entries[lo];
      var op := WriteMember(e.name, e.content);
      assert zip.entries[..lo + 1][..lo] == zip.entries[..lo];
      MemberWritesSafe(c, zip, lo + 1, hi, Apply(op, d));
      var rest := MemberWrites(zip.entries[lo + 1..hi]);
      SafeStep(c, op, rest, d);
      assert MemberWrites(zip.entries[lo..hi]) == [op] + rest;
    }
  }

  // ---- Stage by stage ----

  /** The archive a run works from: the one in staging if it can be read back, else the one the server sends. */
  function SourceArchive(q: Request, d: Disk): ZipFile
  {
    if d.zip.Some? && !q.faults.missed.archive then d.zip.value
    else if q.reply.Complete? then q.reply.zip
    else Unreadable("")
  }

  /** What is to be redone has been discarded, and what is not is valid. */
  ghost predicate StagedFor(c: Codec, resume: ResumePoint, d: Disk)
  {
    && (NeedExtract(resume) ==> d.extraction.None?)
    && (NeedConvert(resume) ==> d.parquet.None?)
    && (NeedConvert(resume) && !NeedExtract(resume) ==> d.extraction.Some? && RequiredOnDisk(c.lists, d.extraction.value))
    && (!NeedConvert(resume) ==> d.parquet.Some? && AllRequiredConverted(c, d.parquet.value))
  }

  /** The verified archive is in staging. */
  ghost predicate HasArchive(c: Codec, q: Request, zip: ZipFile, outcome: DownloadOutcome, d: Disk)
  {
    && d.zip == Some(zip)
    && OutcomeOf(c, zip, outcome)
    && HashAccepted(q.resource.upstreamHash, outcome.sha256)
  }

  /** The state in which stage `s` may start, when `zip` is the archive of this run. */
  ghost predicate Ready(c: Codec, q: Request, s: Stage, zip: ZipFile, d: Disk)
  {
    && RequiredNamesTxt(c.lists) && ValidRequest(q)
    && DiskInv(c, d) && !Installed(d)
    && match s
       case Discarding(resume) =>
         && resume == FindResumePoint(c, q.faults.missed, d) && !Misled(c, q.faults.missed, d)
         && zip == SourceArchive(q, d)
       case Fetching(resume) =>
         && StagedFor(c, resume, d)
         && (NeedDownload(resume) && q.reply.Complete? ==> zip == q.reply.zip)
         && (!NeedDownload(resume) ==> d.zip == Some(zip) && resume.outcome == RecomputedOutcome(c, zip))
       case Verifying(resume, outcome) =>
         StagedFor(c, resume, d) && d.zip == Some(zip) && OutcomeOf(c, zip, outcome)
       case Extracting(resume, outcome) =>
         StagedFor(c, resume, d) && HasArchive(c, q, zip, outcome, d)
       case Converting(resume, outcome) =>
         && HasArchive(c, q, zip, outcome, d)
         && if NeedConvert(resume) then
              d.extraction.Some? && RequiredOnDisk(c.lists, d.extraction.value) && d.parquet.None?
            else d.parquet.Some? && AllRequiredConverted(c, d.parquet.value)
       case Publishing(outcome) =>
         && HasArchive(c, q, zip, outcome, d)
         && d.parquet.Some? && AllRequiredConverted(c, d.parquet.value)
  }

  /** The conversion of everything in `dir` in this run's listing order. */
  function Conversion(c: Codec, q: Request, dir: Files): Files
  {
    ConvertedOver(c, dir, Listed(q, dir), map[])
  }

  /** The files that will be published if the run succeeds from here. */
  function Expected(c: Codec, q: Request, s: Stage, zip: ZipFile, d: Disk): Files
  {
    if s.Publishing? || !NeedConvert(s.resume) then if d.parquet.Some? then d.parquet.value else map[]
    else if s.Converting? || !NeedExtract(s.resume) then
      if d.extraction.Some? then Conversion(c, q, d.extraction.value) else map[]
    else if zip.Readable? then Conversion(c, q, FullExtraction(zip.entries)) else map[]
  }

  /** The extraction that will be left in staging if the run succeeds from here. */
  function LeftBehind(q: Request, s: Stage, zip: ZipFile, d: Disk): Option<Files>
  {
    if s.Publishing? || !NeedConvert(s.resume) then d.extraction
    else if !q.faults.unseenSweep then None
    else if s.Converting? || !NeedExtract(s.resume) then d.extraction
    else Some(if zip.Readable? then FullExtraction(zip.entries) else map[])
  }

  /** The disk a successful run leaves. */
  ghost predicate Finished(c: Codec, q: Request, zip: ZipFile, meta: SnapshotMeta, files: Files, left: Option<Files>,
          d: Disk)
  {
    && d.published == Some(FinalDir(files, Some(meta)))
    && PublishedFrom(c, zip, files, meta)
    && HashAccepted(q.resource.upstreamHash, meta.archiveSha256)
    && MetaMatches(q, meta)
    && d.zip.None? && d.parquet.None? && d.extraction == left
  }

  /** What a fault-free run needs of the archive: extraction accepts it and every `*.txt` member converts. */
  ghost predicate Processable(c: Codec, zip: ZipFile)
  {
    && Extractable(c.lists, zip)
    && forall i :: 0 <= i < |zip.entries| && IsTxt(zip.entries[i].name) ==> c.convert(zip.entries[i].content).Some?
  }

  /** A fault-free run on a processable archive whose hash is accepted. */
  ghost predicate Favourable(c: Codec, q: Request, zip: ZipFile)
  {
    && q.faults == NO_FAULTS
    && Processable(c, zip)
    && HashAccepted(q.resource.upstreamHash, c.sha256(zip))
  }

  /** The server is only needed when nothing usable is staged. */
  predicate ServedIfNeeded(q: Request, s: Stage)
  {
    (s.Discarding? || s.Fetching?) && NeedDownload(s.resume) ==> q.reply.Complete?
  }

  /** What one stage guarantees. */
  ghost predicate StageGood(c: Codec, q: Request, s: Stage, zip: ZipFile, d: Disk)
  {
    var r := RunStage(c, q, s, d);
    var end := ApplyAll(r.ops, d);
    && Safe(c, r.ops, d)
    && (Favourable(c, q, zip) && ServedIfNeeded(q, s) ==> !r.Stop?)
    && match r
       case Go(_, next) =>
         && Ready(c, q, next, zip, end)
         && Expected(c, q, next, zip, end) == Expected(c, q, s, zip, d)
         && LeftBehind(q, next, zip, end) == LeftBehind(q, s, zip, d)
         && (ServedIfNeeded(q, s) ==> ServedIfNeeded(q, next))
       case Stop(_, _) => !Installed(end)
       case Finish(_, meta) => Finished(c, q, zip, meta, Expected(c, q, s, zip, d), LeftBehind(q, s, zip, d), end)
  }

  /** A conversion that an inspection sees whole and accepts does cover every required member. */
  lemma TrustedConversionIsComplete(c: Codec, d: Disk)
    requires RequiredNamesTxt(c.lists) && DiskInv(c, d) && FindResumePoint(c, NOTHING_MISSED, d).Converted?
    ensures d.parquet.Some? && AllRequiredConverted(c, d.parquet.value)
  {
    if d.extraction.Some? {
      var dir := d.extraction.value;
      forall m | m in c.lists.required ensures |m| > 4 && ParquetName(m) in d.parquet.value {
        assert MemberOnDisk(dir, m);
      }
    }
  }

  /** The disk once everything that is to be redone has been discarded. */
  function Discarded(resume: ResumePoint, d: Disk): Disk
  {
    var d1 := if NeedExtract(resume) then d.(extraction := None) else d;
    if NeedConvert(resume) then d1.(parquet := None) else d1
  }

  lemma DropExtractionSafe(c: Codec, m: Missed, d: Disk)
    requires DiskInv(c, d) && !Installed(d) && NeedExtract(FindResumePoint(c, m, d)) && d.extraction.Some?
    requires !Misled(c, m, d)
    ensures Safe(c, [DeleteExtraction], d) && ApplyAll([DeleteExtraction], d) == d.(extraction := None)
  {
    SafeOne(c, DeleteExtraction, d);
  }

  /** Without a misleading inspection the extraction can go first. */
  lemma DiscardSafe(c: Codec, m: Missed, stale: seq<Op>, d: Disk)
    requires DiskInv(c, d) && !Installed(d) && !Misled(c, m, d)
    requires stale == if NeedExtract(FindResumePoint(c, m, d)) && d.extraction.Some? then [DeleteExtraction] else []
    ensures Safe(c, stale, d) && !Installed(ApplyAll(stale, d))
    ensures ApplyAll(stale, d) == if NeedExtract(FindResumePoint(c, m, d)) then d.(extraction := None) else d
  {
    if stale != [] {
      DropExtractionSafe(c, m, d);
    }
  }

  lemma DropParquetSafe(c: Codec, stale: seq<Op>, d: Disk, d1: Disk)
    requires Safe(c, stale, d) && d1 == ApplyAll(stale, d) && !Installed(d1)
    ensures Safe(c, stale + [DeleteParquet], d) && ApplyAll(stale + [DeleteParquet], d) == d1.(parquet := None)
  {
    SafeEnd(c, stale, d);
    SafeOne(c, DeleteParquet, d1);
    SafeConcat(c, stale, [DeleteParquet], d);
    ApplyAllSnoc(stale, DeleteParquet, d);
  }

  /** Discarding leaves everything the next stage needs. */
  lemma DiscardReady(c: Codec, q: Request, resume: ResumePoint, zip: ZipFile, d: Disk)
    requires Ready(c, q, Discarding(resume), zip, d)
    ensures var end := Discarded(resume, d);
      && (DiskInv(c, end) ==> Ready(c, q, Fetching(resume), zip, end))
      && Expected(c, q, Fetching(resume), zip, end) == Expected(c, q, Discarding(resume), zip, d)
      && LeftBehind(q, Fetching(resume), zip, end) == LeftBehind(q, Discarding(resume), zip, d)
  {
  }

  lemma DiscardGood(c: Codec, q: Request, resume: ResumePoint, zip: ZipFile, d: Disk)
    requires Ready(c, q, Discarding(resume), zip, d)
    ensures StageGood(c, q, Discarding(resume), zip, d)
  {
    var stale := if NeedExtract(resume) && d.extraction.Some? then [DeleteExtraction] else [];
    DiscardReady(c, q, resume, zip, d);
    DiscardSafe(c, q.faults.missed, stale, d);
    if NeedConvert(resume) && d.parquet.Some? {
      DropParquetSafe(c, stale, d, ApplyAll(stale, d));
      SafeEnd(c, stale + [DeleteParquet], d);
    } else {
      SafeEnd(c, stale, d);
    }
    assert RunStage(c, q, Discarding(resume), d).Go? ==> ApplyAll(RunStage(c, q, Discarding(resume), d).ops, d) == Discarded(resume, d);
  }

  lemma PartSafe(c: Codec, d: Disk)
    requires DiskInv(c, d) && !Installed(d)
    ensures Safe(c, [WritePart], d) && Safe(c, [WritePart, DeletePart], d)
    ensures ApplyAll([WritePart], d) == Apply(WritePart, d) && !Installed(ApplyAll([WritePart, DeletePart], d))
  {
    var d1 := Apply(WritePart, d);
    SafeOne(c, WritePart, d);
    SafeOne(c, DeletePart, d1);
    SafeStep(c, WritePart, [DeletePart], d);
    assert [WritePart] + [DeletePart] == [WritePart, DeletePart];
  }

  lemma FetchGood(c: Codec, q: Request, resume: ResumePoint, zip: ZipFile, d: Disk)
    requires Ready(c, q, Fetching(resume), zip, d)
    ensures StageGood(c, q, Fetching(resume), zip, d)
  {
    if NeedDownload(resume) {
      PartSafe(c, d);
      match q.reply
      case Complete(sent, etag, lastModified) =>
        var d1 := Apply(WritePart, d);
        SafeOne(c, PromotePart(sent), d1);
        SafeStep(c, WritePart, [PromotePart(sent)], d);
        assert [WritePart] + [PromotePart(sent)] == [WritePart, PromotePart(sent)];
      case _ =>
    }
  }

  lemma VerifyGood(c: Codec, q: Request, resume: ResumePoint, outcome: DownloadOutcome, zip: ZipFile, d: Disk)
    requires Ready(c, q, Verifying(resume, outcome), zip, d)
    ensures StageGood(c, q, Verifying(resume, outcome), zip, d)
  {
    SafeOne(c, DeleteZip, d);
  }

  /** Extracting the entries that reach the disk, all or some of them. */
  lemma ExtractWritesSafe(c: Codec, q: Request, zip: ZipFile, written: seq<Entry>, d: Disk)
    requires DiskInv(c, d) && !Installed(d) && d.zip == Some(zip) && d.parquet.None?
    requires written == WrittenEntries(c.lists, zip, q.faults)
    ensures var ops := [MakeExtraction] + MemberWrites(written);
      Safe(c, ops, d) && ApplyAll(ops, d) == d.(extraction := Some(FullExtraction(written)))
  {
    var d1 := Apply(MakeExtraction, d);
    var writes := MemberWrites(written);
    if written == [] {
      assert writes == [];
    } else {
      assert written == zip.entries[..|written|] == zip.entries[0..|written|];
      MemberWritesSafe(c, zip, 0, |written|, d1);
    }
    SafeStep(c, MakeExtraction, writes, d);
  }

  lemma ExtractGood(c: Codec, q: Request, resume: ResumePoint, outcome: DownloadOutcome, zip: ZipFile, d: Disk)
    requires Ready(c, q, Extracting(resume, outcome), zip, d)
    ensures StageGood(c, q, Extracting(resume, outcome), zip, d)
  {
    if NeedExtract(resume) {
      var written := WrittenEntries(c.lists, zip, q.faults);
      var ops := [MakeExtraction] + MemberWrites(written);
      ExtractWritesSafe(c, q, zip, written, d);
      if ExtractSucceeds(c.lists, zip, q.faults) {
        SafeEnd(c, ops, d);
      } else {
        AbandonSafe(c, ops, [DeleteExtraction], d);
        assert [DeleteZip] + [DeleteExtraction] == [DeleteZip, DeleteExtraction];
      }
    }
  }

  lemma ProcessableConverts(c: Codec, zip: ZipFile, dir: Files)
    requires Processable(c, zip) && FromArchive(zip, dir)
    ensures AllConvert(c, dir)
  {
    forall n | n in dir && IsTxt(n) ensures c.convert(dir[n]).Some? {
      assert HasEntry(zip, n, dir[n]);
    }
  }

  lemma ConversionIsComplete(c: Codec, q: Request, dir: Files)
    requires RequiredNamesTxt(c.lists) && ValidRequest(q) && RequiredOnDisk(c.lists, dir) && AllConvert(c, dir)
    ensures AllRequiredConverted(c, Conversion(c, q, dir))
  {
    assert IsListing(q.listing(dir), dir);
    ConvertedOverCovers(c, dir, Listed(q, dir), map[]);
    forall m | m in c.lists.required ensures |m| > 4 && ParquetName(m) in Conversion(c, q, dir) {
      assert MemberOnDisk(dir, m);
    }
  }

  lemma {:induction false} SafePrefix(c: Codec, ops: seq<Op>, k: nat, d: Disk)
    requires Safe(c, ops, d) && k <= |ops|
    ensures Safe(c, ops[..k], d)
    decreases k
  {
    if k > 0 {
      assert ops[..k][1..] == ops[1..][..k - 1];
      SafePrefix(c, ops[1..], k - 1, Apply(ops[0], d));
    } else {
      assert ops[..0] == [];
    }
  }

  /** Filling a fresh Parquet staging from a valid extraction. */
  lemma FillSafe(c: Codec, q: Request, zip: ZipFile, d: Disk)
    requires DiskInv(c, d) && !Installed(d)
    requires d.zip == Some(zip) && d.extraction.Some? && RequiredOnDisk(c.lists, d.extraction.value)
    ensures var dir := d.extraction.value;
      var ops := [MakeParquet] + ParquetWrites(c, dir, Listed(q, dir));
      Safe(c, ops, d) && ApplyAll(ops, d) == d.(parquet := Some(Conversion(c, q, dir)))
  {
    var dir := d.extraction.value;
    var d1 := Apply(MakeParquet, d);
    ParquetWritesSafe(c, dir, Listed(q, dir), zip, d1);
    SafeStep(c, MakeParquet, ParquetWrites(c, dir, Listed(q, dir)), d);
  }

  /** Or from some of it. */
  lemma PartialFillSafe(c: Codec, q: Request, zip: ZipFile, d: Disk)
    requires DiskInv(c, d) && !Installed(d)
    requires d.zip == Some(zip) && d.extraction.Some? && RequiredOnDisk(c.lists, d.extraction.value)
    ensures var ops := [MakeParquet] + FillWrites(c, q, d.extraction.value);
      Safe(c, ops, d) && !Installed(ApplyAll(ops, d))
  {
    var dir := d.extraction.value;
    var writes := ParquetWrites(c, dir, Listed(q, dir));
    var all, ops := [MakeParquet] + writes, [MakeParquet] + FillWrites(c, q, dir);
    FillSafe(c, q, zip, d);
    assert ops == all[..|ops|];
    assert |ops| == |all| ==> ops == all;
    SafePrefix(c, all, |ops|, d);
    SafeAtEveryPrefix(c, all, d, |ops|);
  }

  /** Once everything is converted the extraction may go. */
  lemma SweepSafe(c: Codec, q: Request, ops: seq<Op>, d: Disk)
    requires RequiredNamesTxt(c.lists) && ValidRequest(q) && !Installed(d)
    requires d.zip.Some? && d.extraction.Some? && RequiredOnDisk(c.lists, d.extraction.value)
    requires AllConvert(c, d.extraction.value)
    requires Safe(c, ops, d) && ApplyAll(ops, d) == d.(parquet := Some(Conversion(c, q, d.extraction.value)))
    ensures Safe(c, ops + [DeleteExtraction], d)
    ensures ApplyAll(ops + [DeleteExtraction], d)
      == d.(parquet := Some(Conversion(c, q, d.extraction.value)), extraction := None)
    ensures AllRequiredConverted(c, Conversion(c, q, d.extraction.value))
  {
    ConversionIsComplete(c, q, d.extraction.value);
    SafeEnd(c, ops, d);
    SafeOne(c, DeleteExtraction, ApplyAll(ops, d));
    SafeConcat(c, ops, [DeleteExtraction], d);
    ApplyAllConcat(ops, [DeleteExtraction], d);
  }

  lemma ConvertFails(c: Codec, q: Request, resume: ResumePoint, outcome: DownloadOutcome, zip: ZipFile, d: Disk)
    requires Ready(c, q, Converting(resume, outcome), zip, d) && NeedConvert(resume)
    requires !ConvertSucceeds(c, q, d.extraction.value)
    ensures StageGood(c, q, Converting(resume, outcome), zip, d)
  {
    var dir := d.extraction.value;
    var ops := [MakeParquet] + FillWrites(c, q, dir);
    PartialFillSafe(c, q, zip, d);
    if Processable(c, zip) {
      ProcessableConverts(c, zip, dir);
    }
    AbandonSafe(c, ops, [DeleteExtraction, DeleteParquet], d);
    assert [DeleteZip] + [DeleteExtraction, DeleteParquet] == [DeleteZip, DeleteExtraction, DeleteParquet];
  }

  /** The disk on which the publish stage starts. */
  function ConvertedDisk(c: Codec, q: Request, d: Disk): Disk
    requires d.extraction.Some?
  {
    var filled := d.(parquet := Some(Conversion(c, q, d.extraction.value)));
    if q.faults.unseenSweep then filled else filled.(extraction := None)
  }

  lemma ConvertReady(c: Codec, q: Request, resume: ResumePoint, outcome: DownloadOutcome, zip: ZipFile, d: Disk,
          end: Disk)
    requires Ready(c, q, Converting(resume, outcome), zip, d) && NeedConvert(resume)
    requires end == ConvertedDisk(c, q, d) && DiskInv(c, end) && AllRequiredConverted(c, end.parquet.value)
    ensures Ready(c, q, Publishing(outcome), zip, end)
    ensures Expected(c, q, Publishing(outcome), zip, end) == Expected(c, q, Converting(resume, outcome), zip, d)
    ensures LeftBehind(q, Publishing(outcome), zip, end) == LeftBehind(q, Converting(resume, outcome), zip, d)
  {
  }

  lemma ConvertCompletes(c: Codec, q: Request, resume: ResumePoint, outcome: DownloadOutcome, zip: ZipFile, d: Disk)
    requires Ready(c, q, Converting(resume, outcome), zip, d) && NeedConvert(resume)
    requires ConvertSucceeds(c, q, d.extraction.value)
    ensures StageGood(c, q, Converting(resume, outcome), zip, d)
  {
    var dir := d.extraction.value;
    var fill := [MakeParquet] + ParquetWrites(c, dir, Listed(q, dir));
    var ops := if q.faults.unseenSweep then fill else fill + [DeleteExtraction];
    FillSafe(c, q, zip, d);
    SweepSafe(c, q, fill, d);
    SafeEnd(c, ops, d);
    ConvertReady(c, q, resume, outcome, zip, d, ApplyAll(ops, d));
  }

  lemma ConvertGood(c: Codec, q: Request, resume: ResumePoint, outcome: DownloadOutcome, zip: ZipFile, d: Disk)
    requires Ready(c, q, Converting(resume, outcome), zip, d)
    ensures StageGood(c, q, Converting(resume, outcome), zip, d)
  {
    if NeedConvert(resume) && ConvertSucceeds(c, q, d.extraction.value) {
      ConvertCompletes(c, q, resume, outcome, zip, d);
    } else if NeedConvert(resume) {
      ConvertFails(c, q, resume, outcome, zip, d);
    }
  }

  lemma RenameSafe(c: Codec, d: Disk)
    requires DiskInv(c, d) && !Installed(d) && d.zip.Some? && d.parquet.Some? && d.published.None?
    ensures Safe(c, [RenameToFinal, DeleteZip], d)
    ensures ApplyAll([RenameToFinal, DeleteZip], d)
      == d.(parquet := None, zip := None, published := Some(FinalDir(d.parquet.value, None)))
  {
    var d1 := Apply(RenameToFinal, d);
    SafeOne(c, DeleteZip, d1);
    SafeStep(c, RenameToFinal, [DeleteZip], d);
    assert [RenameToFinal] + [DeleteZip] == [RenameToFinal, DeleteZip];
  }

  lemma SidecarSafe(c: Codec, zip: ZipFile, meta: SnapshotMeta, d: Disk)
    requires d.zip.None? && d.published.Some? && !Installed(d)
    requires PublishedFrom(c, zip, d.published.value.files, meta)
    ensures Safe(c, [WriteSidecar(meta)], d)
    ensures ApplyAll([WriteSidecar(meta)], d) == d.(published := Some(d.published.value.(sidecar := Some(meta))))
  {
    SafeOne(c, WriteSidecar(meta), d);
  }

  lemma FinishSafe(c: Codec, zip: ZipFile, meta: SnapshotMeta, d: Disk)
    requires DiskInv(c, d) && !Installed(d) && d.zip.Some? && d.parquet.Some? && d.published.None?
    requires PublishedFrom(c, zip, d.parquet.value, meta)
    ensures Safe(c, [RenameToFinal, DeleteZip, WriteSidecar(meta)], d)
    ensures ApplyAll([RenameToFinal, DeleteZip, WriteSidecar(meta)], d)
      == d.(parquet := None, zip := None, published := Some(FinalDir(d.parquet.value, Some(meta))))
  {
    var head := [RenameToFinal, DeleteZip];
    RenameSafe(c, d);
    SidecarSafe(c, zip, meta, ApplyAll(head, d));
    SafeConcat(c, head, [WriteSidecar(meta)], d);
    ApplyAllConcat(head, [WriteSidecar(meta)], d);
    assert head + [WriteSidecar(meta)] == [RenameToFinal, DeleteZip, WriteSidecar(meta)];
  }

  lemma DropStaleFinal(c: Codec, stale: seq<Op>, d: Disk)
    requires DiskInv(c, d) && !Installed(d) && stale == if d.published.Some? then [DeleteFinal] else []
    ensures Safe(c, stale, d) && ApplyAll(stale, d) == d.(published := None) && DiskInv(c, d.(published := None))
  {
    SafeOne(c, DeleteFinal, d);
  }

  /** Every way the publish stage can go, from the disk without a stale directory. */
  lemma PublishSafe(c: Codec, zip: ZipFile, meta: SnapshotMeta, stale: seq<Op>, d: Disk)
    requires DiskInv(c, d) && !Installed(d) && d.zip.Some? && d.parquet.Some?
    requires stale == if d.published.Some? then [DeleteFinal] else []
    requires PublishedFrom(c, zip, d.parquet.value, meta)
    ensures Safe(c, stale, d) && !Installed(ApplyAll(stale, d))
    ensures Safe(c, stale + [RenameToFinal, DeleteZip], d) && !Installed(ApplyAll(stale + [RenameToFinal, DeleteZip], d))
    ensures Safe(c, stale + [RenameToFinal, DeleteZip, WriteSidecar(meta)], d)
    ensures ApplyAll(stale + [RenameToFinal, DeleteZip, WriteSidecar(meta)], d)
      == d.(parquet := None, zip := None, published := Some(FinalDir(d.parquet.value, Some(meta))))
  {
    var d1 := d.(published := None);
    var last := [RenameToFinal, DeleteZip, WriteSidecar(meta)];
    DropStaleFinal(c, stale, d);
    RenameSafe(c, d1);
    SafeConcat(c, stale, [RenameToFinal, DeleteZip], d);
    ApplyAllConcat(stale, [RenameToFinal, DeleteZip], d);
    FinishSafe(c, zip, meta, d1);
    SafeConcat(c, stale, last, d);
    ApplyAllConcat(stale, last, d);
  }

  lemma PublishGood(c: Codec, q: Request, outcome: DownloadOutcome, zip: ZipFile, d: Disk)
    requires Ready(c, q, Publishing(outcome), zip, d)
    ensures StageGood(c, q, Publishing(outcome), zip, d)
  {
    var meta := MetaFor(q, outcome);
    assert PublishedFrom(c, zip, d.parquet.value, meta) && MetaMatches(q, meta);
    PublishSafe(c, zip, meta, if d.published.Some? then [DeleteFinal] else [], d);
  }

  lemma AnyStageGood(c: Codec, q: Request, s: Stage, zip: ZipFile, d: Disk)
    requires Ready(c, q, s, zip, d)
    ensures StageGood(c, q, s, zip, d)
  {
    match s
    case Discarding(resume) => DiscardGood(c, q, resume, zip, d);
    case Fetching(resume) => FetchGood(c, q, resume, zip, d);
    case Verifying(resume, outcome) => VerifyGood(c, q, resume, outcome, zip, d);
    case Extracting(resume, outcome) => ExtractGood(c, q, resume, outcome, zip, d);
    case Converting(resume, outcome) => ConvertGood(c, q, resume, outcome, zip, d);
    case Publishing(outcome) => PublishGood(c, q, outcome, zip, d);
  }

  // ---- Whole plans ----

  /** What a plan from stage `s` on guarantees. */
  ghost predicate PlanGood(c: Codec, q: Request, s: Stage, zip: ZipFile, plan: Plan, d: Disk)
  {
    var end := ApplyAll(plan.ops, d);
    && Safe(c, plan.ops, d)
    && (Favourable(c, q, zip) && ServedIfNeeded(q, s) ==> plan.result.Ok?)
    && match plan.result
       case Err(_) => !Installed(end)
       case Ok(meta) => Finished(c, q, zip, meta, Expected(c, q, s, zip, d), LeftBehind(q, s, zip, d), end)
  }

  lemma {:induction false} PlanFromGood(c: Codec, q: Request, s: Stage, zip: ZipFile, d: Disk)
    requires Ready(c, q, s, zip, d)
    ensures PlanGood(c, q, s, zip, PlanFrom(c, q, s, d), d)
    decreases StagesLeft(s)
  {
    AnyStageGood(c, q, s, zip, d);
    match RunStage(c, q, s, d)
    case Stop(_, _) =>
    case Finish(_, _) =>
    case Go(ops, next) =>
      var d1 := ApplyAll(ops, d);
      PlanFromGood(c, q, next, zip, d1);
      GoGood(c, q, s, next, zip, ops, PlanFrom(c, q, next, d1), d);
  }

  lemma GoGood(c: Codec, q: Request, s: Stage, next: Stage, zip: ZipFile, ops: seq<Op>, plan: Plan, d: Disk)
    requires StageGood(c, q, s, zip, d) && RunStage(c, q, s, d) == Go(ops, next)
    requires PlanGood(c, q, next, zip, plan, ApplyAll(ops, d))
    ensures PlanGood(c, q, s, zip, Prepend(ops, plan), d)
  {
    SafeConcat(c, ops, plan.ops, d);
    ApplyAllConcat(ops, plan.ops, d);
  }
}
