/**
 When crash recovery loses nothing: with one archive that the server always sends, and
 whatever history of crashed runs came before, the exact condition under which a run
 publishes every `*.txt` member, and under which it publishes the very files that an
 uninterrupted run would have published.
 */
module SnapshotConvergence {
  import opened Wrappers
  import opened Archive
  import opened Snapshot
  import opened SnapshotSafety
  import opened SnapshotRecovery
  import opened SnapshotLimits
  import opened SnapshotInspection

  // ---- The condition on the archive ----

  /** No two `*.txt` members are converted to the same file. */
  predicate DistinctStems(zip: ZipFile)
  {
    && zip.Readable?
    && forall i, j :: 0 <= i < j < |zip.entries| && IsTxt(zip.entries[i].name) && IsTxt(zip.entries[j].name) ==>
         ParquetName(zip.entries[i].name) != ParquetName(zip.entries[j].name)
  }

  /** Members converted to the same file, if any, convert to the same content. */
  predicate StemsAgree(c: Codec, zip: ZipFile)
  {
    && zip.Readable?
    && forall i, j :: 0 <= i < j < |zip.entries| && IsTxt(zip.entries[i].name) && IsTxt(zip.entries[j].name) ==>
         ParquetName(zip.entries[i].name) == ParquetName(zip.entries[j].name) ==>
           c.convert(zip.entries[i].content) == c.convert(zip.entries[j].content)
  }

  /** Some `*.txt` member is converted to `f`. */
  predicate HasStem(entries: seq<Entry>, f: string)
  {
    exists j :: 0 <= j < |entries| && IsTxt(entries[j].name) && ParquetName(entries[j].name) == f
  }

  /** Once a partial extraction passes for complete, no `*.txt` member with a new stem follows. */
  predicate NothingLate(c: Codec, zip: ZipFile)
  {
    && zip.Readable?
    && forall k, i :: 0 <= k <= i < |zip.entries| && IsTxt(zip.entries[i].name) ==>
         RequiredOnDisk(c.lists, FullExtraction(zip.entries[..k])) ==>
           HasStem(zip.entries[..k], ParquetName(zip.entries[i].name))
  }

  /** Every `*.txt` member comes before the extraction passes for complete. */
  predicate NoLateTxt(c: Codec, zip: ZipFile)
  {
    && zip.Readable?
    && forall k :: 0 <= k < |zip.entries| && IsTxt(zip.entries[k].name) ==>
         !RequiredOnDisk(c.lists, FullExtraction(zip.entries[..k]))
  }

  /** `files` holds a conversion of every `*.txt` member. */
  predicate CoversAll(zip: ZipFile, files: Files)
  {
    && zip.Readable?
    && forall i :: 0 <= i < |zip.entries| && IsTxt(zip.entries[i].name) ==> ParquetName(zip.entries[i].name) in files
  }

  /** From a valid partial extraction on, only members other than `*.txt` can follow. */
  lemma {:induction false} NoTxtAfter(c: Codec, zip: ZipFile, k: nat, i: nat)
    requires RequiredNamesTxt(c.lists) && NoLateTxt(c, zip)
    requires k <= i < |zip.entries| && RequiredOnDisk(c.lists, FullExtraction(zip.entries[..k]))
    ensures !IsTxt(zip.entries[i].name) && RequiredOnDisk(c.lists, FullExtraction(zip.entries[..i + 1]))
    decreases i
  {
    if k < i {
      NoTxtAfter(c, zip, k, i - 1);
    }
    var before, after := FullExtraction(zip.entries[..i]), FullExtraction(zip.entries[..i + 1]);
    assert zip.entries[..i + 1][..i] == zip.entries[..i];
    forall m | m in c.lists.required ensures MemberOnDisk(after, m) {
      assert MemberOnDisk(before, m) && m != zip.entries[i].name;
    }
  }

  /** With distinct stems the two conditions are the same. */
  lemma NothingLateIff(c: Codec, zip: ZipFile)
    requires RequiredNamesTxt(c.lists) && DistinctStems(zip)
    ensures NothingLate(c, zip) <==> NoLateTxt(c, zip)
  {
    if NoLateTxt(c, zip) {
      forall k, i | 0 <= k <= i < |zip.entries| && RequiredOnDisk(c.lists, FullExtraction(zip.entries[..k]))
        ensures !IsTxt(zip.entries[i].name)
      {
        NoTxtAfter(c, zip, k, i);
      }
    }
    if NothingLate(c, zip) {
      forall k | 0 <= k < |zip.entries| && IsTxt(zip.entries[k].name)
        ensures !RequiredOnDisk(c.lists, FullExtraction(zip.entries[..k]))
      {
        assert !HasStem(zip.entries[..k], ParquetName(zip.entries[k].name));
      }
    }
  }

  /** `dir` is what extraction has written after some number of members. */
  ghost predicate PartlyExtracted(zip: ZipFile, dir: Files)
  {
    zip.Readable? && exists k :: 0 <= k <= |zip.entries| && dir == FullExtraction(zip.entries[..k])
  }

  /** `dir` holds a `*.txt` file that is converted to `f`. */
  predicate DirHasStem(dir: Files, f: string)
  {
    exists n :: n in dir && IsTxt(n) && ParquetName(n) == f
  }

  /** So a partial extraction that passes for complete holds every stem. */
  lemma ValidExtractionHasStems(c: Codec, zip: ZipFile, dir: Files)
    requires NothingLate(c, zip) && PartlyExtracted(zip, dir) && RequiredOnDisk(c.lists, dir)
    ensures forall i :: 0 <= i < |zip.entries| && IsTxt(zip.entries[i].name) ==>
      DirHasStem(dir, ParquetName(zip.entries[i].name))
  {
    var k :| 0 <= k <= |zip.entries| && dir == FullExtraction(zip.entries[..k]);
    ExtractedFromArchive(zip.entries, k);
    forall i | 0 <= i < |zip.entries| && IsTxt(zip.entries[i].name)
      ensures DirHasStem(dir, ParquetName(zip.entries[i].name))
    {
      if k <= i {
        assert HasStem(zip.entries[..k], ParquetName(zip.entries[i].name));
        var j :| 0 <= j < k && IsTxt(zip.entries[j].name)
          && ParquetName(zip.entries[j].name) == ParquetName(zip.entries[i].name);
        assert zip.entries[j].name in dir;
      } else {
        assert zip.entries[i].name in dir;
      }
    }
  }

  /** And its conversion, in any listing order, covers every `*.txt` member. */
  lemma ConversionCovers(c: Codec, q: Request, zip: ZipFile, dir: Files)
    requires NothingLate(c, zip) && ValidRequest(q)
    requires PartlyExtracted(zip, dir) && RequiredOnDisk(c.lists, dir) && AllConvert(c, dir)
    ensures CoversAll(zip, Conversion(c, q, dir))
  {
    ValidExtractionHasStems(c, zip, dir);
    assert IsListing(q.listing(dir), dir);
    ConvertedOverCovers(c, dir, Listed(q, dir), map[]);
    forall i | 0 <= i < |zip.entries| && IsTxt(zip.entries[i].name)
      ensures ParquetName(zip.entries[i].name) in Conversion(c, q, dir)
    {
      var n :| n in dir && IsTxt(n) && ParquetName(n) == ParquetName(zip.entries[i].name);
      assert n in Listed(q, dir);
    }
  }

  // ---- What every crash point keeps beside the disk invariant ----

  /** The staged archive is `zip`, extracted in order, and a conversion without its extraction is of every member. */
  ghost predicate Tracks(zip: ZipFile, d: Disk)
  {
    d.zip.Some? ==>
      && d.zip.value == zip
      && (d.extraction.Some? ==> PartlyExtracted(zip, d.extraction.value))
      && (d.parquet.Some? && d.extraction.None? && d.parquet.value != map[] ==> CoversAll(zip, d.parquet.value))
  }

  /** Every state along the way tracks the archive. */
  ghost predicate TracksThrough(zip: ZipFile, ops: seq<Op>, d: Disk)
    decreases |ops|
  {
    Tracks(zip, d) && (ops != [] ==> TracksThrough(zip, ops[1..], Apply(ops[0], d)))
  }

  lemma {:induction false} TracksConcat(zip: ZipFile, a: seq<Op>, b: seq<Op>, d: Disk)
    requires TracksThrough(zip, a, d) && TracksThrough(zip, b, ApplyAll(a, d))
    ensures TracksThrough(zip, a + b, d)
    decreases |a|
  {
    if a == [] {
      assert a + b == b;
    } else {
      assert (a + b)[1..] == a[1..] + b;
      TracksConcat(zip, a[1..], b, Apply(a[0], d));
    }
  }

  lemma {:induction false} TracksAtEveryPrefix(zip: ZipFile, ops: seq<Op>, d: Disk, k: nat)
    requires TracksThrough(zip, ops, d) && k <= |ops|
    ensures Tracks(zip, ApplyAll(ops[..k], d))
    decreases k
  {
    if k > 0 {
      assert ops[..k][1..] == ops[1..][..k - 1];
      TracksAtEveryPrefix(zip, ops[1..], Apply(ops[0], d), k - 1);
    }
  }

  lemma {:induction false} TracksPrefix(zip: ZipFile, ops: seq<Op>, k: nat, d: Disk)
    requires TracksThrough(zip, ops, d) && k <= |ops|
    ensures TracksThrough(zip, ops[..k], d) && (k == |ops| ==> ops[..k] == ops)
    decreases k
  {
    if k > 0 {
      assert ops[..k][1..] == ops[1..][..k - 1];
      TracksPrefix(zip, ops[1..], k - 1, Apply(ops[0], d));
    }
  }

  lemma TracksEnd(zip: ZipFile, ops: seq<Op>, d: Disk)
    requires TracksThrough(zip, ops, d)
    ensures Tracks(zip, ApplyAll(ops, d))
  {
    TracksAtEveryPrefix(zip, ops, d, |ops|);
    assert ops[..|ops|] == ops;
  }

  lemma TracksStep(zip: ZipFile, op: Op, rest: seq<Op>, d: Disk)
    requires Tracks(zip, d) && TracksThrough(zip, rest, Apply(op, d))
    ensures TracksThrough(zip, [op] + rest, d)
  {
    assert ([op] + rest)[1..] == rest;
  }

  /** Operations that cannot spoil what is tracked, wherever they come. */
  predicate Plain(op: Op)
  {
    || op.WritePart? || op.DeletePart? || op.DeleteZip? || op.DeleteParquet?
    || op.DeleteFinal? || op.RenameToFinal? || op.WriteSidecar?
  }

  lemma {:induction false} PlainTracks(zip: ZipFile, ops: seq<Op>, d: Disk)
    requires Tracks(zip, d) && forall op :: op in ops ==> Plain(op)
    ensures TracksThrough(zip, ops, d)
    decreases |ops|
  {
    if ops != [] {
      assert Plain(ops[0]);
      PlainTracks(zip, ops[1..], Apply(ops[0], d));
    }
  }

  /** Once the archive is gone nothing is claimed until another is promoted. */
  lemma {:induction false} NoZipTracks(zip: ZipFile, ops: seq<Op>, d: Disk)
    requires d.zip.None? && forall op :: op in ops ==> !op.PromotePart?
    ensures TracksThrough(zip, ops, d)
    decreases |ops|
  {
    if ops != [] {
      NoZipTracks(zip, ops[1..], Apply(ops[0], d));
    }
  }

  /** Giving up: the archive goes first. */
  lemma AbandonTracks(zip: ZipFile, ops: seq<Op>, tail: seq<Op>, d: Disk)
    requires TracksThrough(zip, ops, d) && forall op :: op in tail ==> !op.PromotePart?
    ensures TracksThrough(zip, ops + ([DeleteZip] + tail), d)
  {
    var m := ApplyAll(ops, d);
    TracksEnd(zip, ops, d);
    NoZipTracks(zip, tail, Apply(DeleteZip, m));
    TracksStep(zip, DeleteZip, tail, m);
    TracksConcat(zip, ops, [DeleteZip] + tail, d);
  }

  // ---- Stage by stage ----

  /** The server only ever sends this archive, if any. */
  predicate AlwaysSends(zip: ZipFile, q: Request)
  {
    q.reply.Complete? ==> q.reply.zip == zip
  }

  /** An inspection misleads a run about the `*.txt` members: the conversion at stake lacks some of them. */
  predicate MisledOver(c: Codec, m: Missed, zip: ZipFile, d: Disk)
  {
    MisledUnless(c, m, d, d.parquet.Some? && CoversAll(zip, d.parquet.value))
  }

  lemma DiscardTracks(c: Codec, q: Request, resume: ResumePoint, z: ZipFile, zip: ZipFile, d: Disk)
    requires Ready(c, q, Discarding(resume), z, d) && Tracks(zip, d) && !MisledOver(c, q.faults.missed, zip, d)
    ensures TracksThrough(zip, DiscardStage(q, resume, d).ops, d)
  {
    var stale := if NeedExtract(resume) && d.extraction.Some? then [DeleteExtraction] else [];
    if stale != [] {
      TracksStep(zip, DeleteExtraction, [], d);
      assert [DeleteExtraction] + [] == [DeleteExtraction];
    }
    TracksEnd(zip, stale, d);
    PlainTracks(zip, [DeleteParquet], ApplyAll(stale, d));
    TracksConcat(zip, stale, [DeleteParquet], d);
  }

  lemma FetchTracks(c: Codec, q: Request, resume: ResumePoint, z: ZipFile, zip: ZipFile, d: Disk)
    requires Ready(c, q, Fetching(resume), z, d) && Tracks(zip, d) && AlwaysSends(zip, q)
    ensures TracksThrough(zip, FetchStage(c, q, resume).ops, d)
  {
    PlainTracks(zip, [WritePart], d);
    PlainTracks(zip, [WritePart, DeletePart], d);
    if NeedDownload(resume) && q.reply.Complete? {
      var d1 := Apply(WritePart, d);
      TracksStep(zip, PromotePart(zip), [], d1);
      TracksStep(zip, WritePart, [PromotePart(zip)] + [], d);
      assert [WritePart] + ([PromotePart(zip)] + []) == [WritePart, PromotePart(zip)];
    }
  }

  lemma {:induction false} MemberWritesTrack(zip: ZipFile, lo: nat, hi: nat, d: Disk)
    requires zip.Readable? && lo <= hi <= |zip.entries|
    requires d.zip == Some(zip) && d.parquet.None? && d.extraction == Some(FullExtraction(zip.entries[..lo]))
    ensures TracksThrough(zip, MemberWrites(zip.entries[lo..hi]), d)
    decreases hi - lo
  {
    if lo < hi {
      var e := zip.entries[lo];
      var op, rest := WriteMember(e.name, e.content), MemberWrites(zip.entries[lo + 1..hi]);
      assert zip.entries[..lo + 1][..lo] == zip.entries[..lo];
      MemberWritesTrack(zip, lo + 1, hi, Apply(op, d));
      TracksStep(zip, op, rest, d);
      assert MemberWrites(zip.entries[lo..hi]) == [op] + rest;
    } else {
      assert MemberWrites(zip.entries[lo..hi]) == [];
    }
  }

  lemma ExtractTracks(c: Codec, q: Request, resume: ResumePoint, outcome: DownloadOutcome, zip: ZipFile, d: Disk)
    requires Ready(c, q, Extracting(resume, outcome), zip, d) && Tracks(zip, d) && zip.Readable?
    ensures TracksThrough(zip, ExtractStage(c, q, resume, outcome, d).ops, d)
  {
    if NeedExtract(resume) {
      var written := WrittenEntries(c.lists, zip, q.faults);
      var writes := MemberWrites(written);
      assert FullExtraction(zip.entries[..0]) == map[];
      assert written == zip.entries[0..|written|];
      MemberWritesTrack(zip, 0, |written|, Apply(MakeExtraction, d));
      TracksStep(zip, MakeExtraction, writes, d);
      AbandonTracks(zip, [MakeExtraction] + writes, [DeleteExtraction], d);
      assert [DeleteZip] + [DeleteExtraction] == [DeleteZip, DeleteExtraction];
    }
  }

  /** While the extraction is there a conversion may be in any state. */
  lemma {:induction false} ParquetWritesTrack(c: Codec, zip: ZipFile, dir: Files, names: seq<string>, d: Disk)
    requires forall n :: n in names ==> n in dir
    requires Tracks(zip, d) && d.extraction.Some?
    ensures TracksThrough(zip, ParquetWrites(c, dir, names), d)
    decreases |names|
  {
    if names != [] {
      if IsTxt(names[0]) {
        match c.convert(dir[names[0]])
        case None =>
        case Some(out) =>
          var op := WriteParquet(ParquetName(names[0]), out);
          ParquetWritesTrack(c, zip, dir, names[1..], Apply(op, d));
          TracksStep(zip, op, ParquetWrites(c, dir, names[1..]), d);
      } else {
        ParquetWritesTrack(c, zip, dir, names[1..], d);
      }
    }
  }

  /** The sweep after a complete conversion leaves one of every member. */
  lemma SweepTracks(c: Codec, q: Request, zip: ZipFile, ops: seq<Op>, d: Disk)
    requires ValidRequest(q) && NothingLate(c, zip) && TracksThrough(zip, ops, d)
    requires d.zip.Some? && d.extraction.Some? && RequiredOnDisk(c.lists, d.extraction.value)
    requires AllConvert(c, d.extraction.value)
    requires ApplyAll(ops, d) == d.(parquet := Some(Conversion(c, q, d.extraction.value)))
    ensures TracksThrough(zip, ops + [DeleteExtraction], d)
  {
    var m := ApplyAll(ops, d);
    TracksEnd(zip, ops, d);
    ConversionCovers(c, q, zip, d.extraction.value);
    TracksStep(zip, DeleteExtraction, [], m);
    assert [DeleteExtraction] + [] == [DeleteExtraction];
    TracksConcat(zip, ops, [DeleteExtraction], d);
  }

  lemma ConvertTracks(c: Codec, q: Request, resume: ResumePoint, outcome: DownloadOutcome, zip: ZipFile, d: Disk)
    requires Ready(c, q, Converting(resume, outcome), zip, d) && Tracks(zip, d) && NothingLate(c, zip)
    ensures TracksThrough(zip, ConvertStage(c, q, resume, outcome, d).ops, d)
  {
    if NeedConvert(resume) {
      var dir := d.extraction.value;
      var writes, ops := ParquetWrites(c, dir, Listed(q, dir)), [MakeParquet] + FillWrites(c, q, dir);
      ParquetWritesTrack(c, zip, dir, Listed(q, dir), Apply(MakeParquet, d));
      TracksPrefix(zip, writes, |FillWrites(c, q, dir)|, Apply(MakeParquet, d));
      TracksStep(zip, MakeParquet, FillWrites(c, q, dir), d);
      if ConvertSucceeds(c, q, dir) {
        FillSafe(c, q, zip, d);
        SweepTracks(c, q, zip, ops, d);
      } else {
        AbandonTracks(zip, ops, [DeleteExtraction, DeleteParquet], d);
        assert [DeleteZip] + [DeleteExtraction, DeleteParquet] == [DeleteZip, DeleteExtraction, DeleteParquet];
      }
    }
  }

  lemma StageTracks(c: Codec, q: Request, s: Stage, z: ZipFile, zip: ZipFile, d: Disk)
    requires Ready(c, q, s, z, d) && Tracks(zip, d) && AlwaysSends(zip, q) && NothingLate(c, zip)
    requires s.Discarding? ==> !MisledOver(c, q.faults.missed, zip, d)
    ensures TracksThrough(zip, RunStage(c, q, s, d).ops, d)
  {
    match s
    case Discarding(resume) => DiscardTracks(c, q, resume, z, zip, d);
    case Fetching(resume) => FetchTracks(c, q, resume, z, zip, d);
    case Verifying(_, _) => PlainTracks(zip, [DeleteZip], d);
    case Extracting(resume, outcome) => ExtractTracks(c, q, resume, outcome, zip, d);
    case Converting(resume, outcome) => ConvertTracks(c, q, resume, outcome, zip, d);
    case Publishing(outcome) => PlainTracks(zip, PublishStage(q, outcome, d).ops, d);
  }

  // ---- Whole runs and histories ----

  lemma {:induction false} PlanTracks(c: Codec, q: Request, s: Stage, z: ZipFile, zip: ZipFile, d: Disk)
    requires Ready(c, q, s, z, d) && Tracks(zip, d) && AlwaysSends(zip, q) && NothingLate(c, zip)
    requires s.Discarding? ==> !MisledOver(c, q.faults.missed, zip, d)
    ensures TracksThrough(zip, PlanFrom(c, q, s, d).ops, d)
    decreases StagesLeft(s)
  {
    AnyStageGood(c, q, s, z, d);
    StageTracks(c, q, s, z, zip, d);
    match RunStage(c, q, s, d)
    case Go(ops, next) =>
      var d1 := ApplyAll(ops, d);
      TracksEnd(zip, ops, d);
      PlanTracks(c, q, next, z, zip, d1);
      TracksConcat(zip, ops, PlanFrom(c, q, next, d1).ops, d);
    case _ =>
  }

  lemma RunTracks(c: Codec, q: Request, zip: ZipFile, d: Disk)
    requires RequiredNamesTxt(c.lists) && ValidRequest(q) && DiskInv(c, d) && !Installed(d)
    requires !Misled(c, q.faults.missed, d) && !MisledOver(c, q.faults.missed, zip, d)
    requires Tracks(zip, d) && AlwaysSends(zip, q) && NothingLate(c, zip)
    ensures TracksThrough(zip, RunPlan(c, q, d).ops, d)
  {
    var d0 := Apply(DeletePart, d);
    var s := Discarding(FindResumePoint(c, q.faults.missed, d0));
    PartIsIgnored(c, q, d);
    PlanTracks(c, q, s, SourceArchive(q, d0), zip, d0);
    TracksStep(zip, DeletePart, PlanFrom(c, q, s, d0).ops, d);
  }

  /** Runs that were all served this archive, or nothing. */
  ghost predicate Served(zip: ZipFile, sessions: seq<Session>)
  {
    ValidSessions(sessions) && forall i :: 0 <= i < |sessions| ==> AlwaysSends(zip, sessions[i].request)
  }

  /** No run of the history is misled about any `*.txt` member of this archive. */
  predicate NeverMisledOver(c: Codec, zip: ZipFile, sessions: seq<Session>)
  {
    if sessions == [] then true
    else
      var earlier, last := sessions[..|sessions| - 1], sessions[|sessions| - 1];
      var d := AfterSessions(c, earlier, EMPTY_DISK);
      && NeverMisledOver(c, zip, earlier)
      && (Installed(d) ||
          (!Misled(c, last.request.faults.missed, d) && !MisledOver(c, last.request.faults.missed, zip, d)))
  }

  lemma {:induction false} HistoryTracks(c: Codec, sessions: seq<Session>, zip: ZipFile)
    requires RequiredNamesTxt(c.lists) && Served(zip, sessions) && NothingLate(c, zip) && NeverMisledOver(c, zip, sessions)
    ensures NeverMisled(c, sessions) && Tracks(zip, AfterSessions(c, sessions, EMPTY_DISK))
    decreases |sessions|
  {
    if sessions != [] {
      var earlier, last := sessions[..|sessions| - 1], sessions[|sessions| - 1];
      HistoryTracks(c, earlier, zip);
      CrashSafePublication(c, earlier);
      var d := AfterSessions(c, earlier, EMPTY_DISK);
      if !Installed(d) {
        var ops := RunPlan(c, last.request, d).ops;
        RunTracks(c, last.request, zip, d);
        TracksAtEveryPrefix(zip, ops, d, if last.stop < |ops| then last.stop else |ops|);
        assert ops[..|ops|] == ops;
      }
    }
  }

  // ---- What a run publishes after such a history ----

  /** A conversion that is trusted as complete is of every `*.txt` member. */
  lemma TrustedCoversAll(c: Codec, zip: ZipFile, d: Disk)
    requires DiskInv(c, d) && Tracks(zip, d) && NothingLate(c, zip) && d.zip.Some?
    requires PassesForConverted(NOTHING_MISSED, d)
    ensures CoversAll(zip, d.parquet.value)
  {
    if d.extraction.Some? {
      var dir := d.extraction.value;
      ValidExtractionHasStems(c, zip, dir);
      forall i | 0 <= i < |zip.entries| && IsTxt(zip.entries[i].name)
        ensures ParquetName(zip.entries[i].name) in d.parquet.value
      {
        var n :| n in dir && IsTxt(n) && ParquetName(n) == ParquetName(zip.entries[i].name);
        assert NonEmptyFile(d.parquet.value, ParquetName(n));
      }
    }
  }

  lemma FullExtractionValid(c: Codec, zip: ZipFile)
    requires Processable(c, zip)
    ensures var dir := FullExtraction(zip.entries);
      PartlyExtracted(zip, dir) && RequiredOnDisk(c.lists, dir) && AllConvert(c, dir)
  {
    assert zip.entries[..|zip.entries|] == zip.entries;
    ExtractedFromArchive(zip.entries, |zip.entries|);
    ProcessableConverts(c, zip, FullExtraction(zip.entries));
  }

  lemma StagedConversionCovers(c: Codec, q: Request, zip: ZipFile, d: Disk)
    requires ValidRequest(q) && NothingLate(c, zip) && Processable(c, zip)
    requires DiskInv(c, d) && Tracks(zip, d) && d.zip == Some(zip)
    requires d.extraction.Some? && RequiredOnDisk(c.lists, d.extraction.value)
    ensures CoversAll(zip, Conversion(c, q, d.extraction.value))
  {
    ProcessableConverts(c, zip, d.extraction.value);
    ConversionCovers(c, q, zip, d.extraction.value);
  }

  lemma FreshConversionCovers(c: Codec, q: Request, zip: ZipFile)
    requires ValidRequest(q) && NothingLate(c, zip) && Processable(c, zip)
    ensures CoversAll(zip, Conversion(c, q, FullExtraction(zip.entries)))
  {
    FullExtractionValid(c, zip);
    ConversionCovers(c, q, zip, FullExtraction(zip.entries));
  }

  /** Whatever the resume decision, what a successful run will publish covers every `*.txt` member. */
  lemma ExpectedCoversAll(c: Codec, q: Request, zip: ZipFile, d: Disk)
    requires RequiredNamesTxt(c.lists) && ValidRequest(q) && NothingLate(c, zip) && Processable(c, zip)
    requires DiskInv(c, d) && Tracks(zip, d) && SourceArchive(q, d) == zip && q.faults.missed == NOTHING_MISSED
    ensures CoversAll(zip, Expected(c, q, Discarding(FindResumePoint(c, NOTHING_MISSED, d)), zip, d))
  {
    match FindResumePoint(c, NOTHING_MISSED, d)
    case Converted(_) => TrustedCoversAll(c, zip, d);
    case Extracted(_) => StagedConversionCovers(c, q, zip, d);
    case _ => FreshConversionCovers(c, q, zip);
  }

  /** The request of a fault-free run that is served this very archive. */
  ghost predicate GoodRequest(c: Codec, q: Request, zip: ZipFile)
  {
    ValidRequest(q) && Favourable(c, q, zip) && q.reply.Complete? && q.reply.zip == zip
  }

  /** `d` holds an installed conversion of every `*.txt` member of `zip`. */
  ghost predicate HoldsAll(c: Codec, zip: ZipFile, d: Disk)
  {
    && Installed(d)
    && PublishedFrom(c, zip, d.published.value.files, d.published.value.sidecar.value)
    && CoversAll(zip, d.published.value.files)
  }

  lemma RunHoldsAll(c: Codec, q: Request, zip: ZipFile, d: Disk)
    requires RequiredNamesTxt(c.lists) && GoodRequest(c, q, zip) && NothingLate(c, zip)
    requires DiskInv(c, d) && !Installed(d) && Tracks(zip, d)
    ensures HoldsAll(c, zip, RunEnd(c, q, d))
  {
    SightIsNeverMisled(c, NOTHING_MISSED, d);
    RunGood(c, q, d);
    ExpectedCoversAll(c, q, zip, d);
  }

  // ---- The exact condition ----

  /** After this history, if the version is still missing, the run publishes a conversion of every `*.txt` member. */
  ghost predicate LosesNothing(c: Codec, q: Request, zip: ZipFile, sessions: seq<Session>)
  {
    var d := AfterSessions(c, sessions, EMPTY_DISK);
    !Installed(d) ==> HoldsAll(c, zip, RunEnd(c, q, d))
  }

  /** After this history, if the version is still missing, the run publishes what an uninterrupted one would. */
  ghost predicate Converges(c: Codec, q: Request, sessions: seq<Session>)
  {
    var d := AfterSessions(c, sessions, EMPTY_DISK);
    !Installed(d) ==> SamePublished(RunEnd(c, q, d), RunEnd(c, q, EMPTY_DISK))
  }

  predicate SamePublished(a: Disk, b: Disk)
  {
    && Installed(a) && Installed(b)
    && a.published.value.files == b.published.value.files
    && a.published.value.sidecar.value.archiveSha256 == b.published.value.sidecar.value.archiveSha256
  }

  /** A history of runs all served this archive, or nothing, and none misled about it. */
  ghost predicate Unmisled(c: Codec, zip: ZipFile, sessions: seq<Session>)
  {
    Served(zip, sessions) && NeverMisledOver(c, zip, sessions)
  }

  lemma HistoryLosesNothing(c: Codec, q: Request, zip: ZipFile, sessions: seq<Session>)
    requires RequiredNamesTxt(c.lists) && GoodRequest(c, q, zip) && NothingLate(c, zip)
    requires Served(zip, sessions) && NeverMisledOver(c, zip, sessions)
    ensures LosesNothing(c, q, zip, sessions)
  {
    var d := AfterSessions(c, sessions, EMPTY_DISK);
    if !Installed(d) {
      HistoryTracks(c, sessions, zip);
      CrashSafePublication(c, sessions);
      RunHoldsAll(c, q, zip, d);
    }
  }

  lemma SameConversion(c: Codec, zip: ZipFile, f: string, x: string, y: string)
    requires StemsAgree(c, zip) && HasConversion(c, zip, f, x) && HasConversion(c, zip, f, y)
    ensures x == y && HasStem(zip.entries, f)
  {
    var n, a :| HasEntry(zip, n, a) && IsTxt(n) && ParquetName(n) == f && c.convert(a) == Some(x);
    var o, b :| HasEntry(zip, o, b) && IsTxt(o) && ParquetName(o) == f && c.convert(b) == Some(y);
    var i :| 0 <= i < |zip.entries| && zip.entries[i].name == n && zip.entries[i].content == a;
    var j :| 0 <= j < |zip.entries| && zip.entries[j].name == o && zip.entries[j].content == b;
    assert i < j || i == j || j < i;
  }

  /** A conversion of every `*.txt` member is unique. */
  lemma FullConversionIsUnique(c: Codec, zip: ZipFile, a: Files, b: Files)
    requires StemsAgree(c, zip)
    requires ConvertedFrom(c, zip, a) && CoversAll(zip, a) && ConvertedFrom(c, zip, b) && CoversAll(zip, b)
    ensures a == b
  {
    forall f | f in a ensures f in b {
      SameConversion(c, zip, f, a[f], a[f]);
    }
    forall f | f in b ensures f in a {
      SameConversion(c, zip, f, b[f], b[f]);
    }
    forall f | f in a ensures a[f] == b[f] {
      SameConversion(c, zip, f, a[f], b[f]);
    }
  }

  /**
   Convergence: when the server always sends the same archive, members of one stem convert
   alike and no new stem comes late, a run after any history of crashes publishes the very
   files that a run never interrupted would have published, and a conversion of every member.
   */
  lemma RecoveryConverges(c: Codec, q: Request, zip: ZipFile, sessions: seq<Session>)
    requires RequiredNamesTxt(c.lists) && GoodRequest(c, q, zip) && StemsAgree(c, zip)
    requires NothingLate(c, zip) && Served(zip, sessions) && NeverMisledOver(c, zip, sessions)
    ensures LosesNothing(c, q, zip, sessions) && Converges(c, q, sessions)
  {
    var d := AfterSessions(c, sessions, EMPTY_DISK);
    HistoryLosesNothing(c, q, zip, sessions);
    if !Installed(d) {
      UninterruptedHoldsAll(c, q, zip);
      FullConversionIsUnique(c, zip, RunEnd(c, q, d).published.value.files,
                             RunEnd(c, q, EMPTY_DISK).published.value.files);
    }
  }

  /** A run from an empty disk publishes the conversion of the full extraction. */
  lemma UninterruptedPublishes(c: Codec, q: Request, zip: ZipFile)
    requires RequiredNamesTxt(c.lists) && GoodRequest(c, q, zip)
    ensures var end := RunEnd(c, q, EMPTY_DISK);
      && Installed(end) && end.published.value.files == Conversion(c, q, FullExtraction(zip.entries))
      && PublishedFrom(c, zip, end.published.value.files, end.published.value.sidecar.value)
  {
    RunGood(c, q, EMPTY_DISK);
  }

  /** A run that was never interrupted always publishes every `*.txt` member. */
  lemma UninterruptedHoldsAll(c: Codec, q: Request, zip: ZipFile)
    requires RequiredNamesTxt(c.lists) && GoodRequest(c, q, zip)
    ensures HoldsAll(c, zip, RunEnd(c, q, EMPTY_DISK))
  {
    var dir := FullExtraction(zip.entries);
    UninterruptedPublishes(c, q, zip);
    FullExtractionValid(c, zip);
    ExtractedFromArchive(zip.entries, |zip.entries|);
    assert zip.entries[..|zip.entries|] == zip.entries;
    assert IsListing(q.listing(dir), dir);
    ConvertedOverCovers(c, dir, Listed(q, dir), map[]);
  }

  lemma OneSession(c: Codec, s: Session)
    ensures AfterSessions(c, [s], EMPTY_DISK) == AfterSession(c, s, EMPTY_DISK)
  {
    assert [s][..0] == [];
  }

  /** A late `*.txt` member: one crash once the required ones are on disk is enough to lose it. */
  lemma LateMemberIsLost(c: Codec, q: Request, zip: ZipFile, k: nat, i: nat) returns (sessions: seq<Session>)
    requires RequiredNamesTxt(c.lists) && GoodRequest(c, q, zip)
    requires k <= i < |zip.entries| && IsTxt(zip.entries[i].name)
    requires RequiredOnDisk(c.lists, FullExtraction(zip.entries[..k]))
    requires !HasStem(zip.entries[..k], ParquetName(zip.entries[i].name))
    ensures Served(zip, sessions) && NeverMisledOver(c, zip, sessions)
    ensures !LosesNothing(c, q, zip, sessions) && !Converges(c, q, sessions)
  {
    var s := Session(q, 4 + k);
    sessions := [s];
    OneSession(c, s);
    LateRunLoses(c, q, zip, k, i, AfterSession(c, s, EMPTY_DISK));
  }

  lemma LateRunLoses(c: Codec, q: Request, zip: ZipFile, k: nat, i: nat, crashed: Disk)
    requires RequiredNamesTxt(c.lists) && GoodRequest(c, q, zip)
    requires k <= i < |zip.entries| && IsTxt(zip.entries[i].name)
    requires RequiredOnDisk(c.lists, FullExtraction(zip.entries[..k]))
    requires !HasStem(zip.entries[..k], ParquetName(zip.entries[i].name))
    requires crashed == AfterSession(c, Session(q, 4 + k), EMPTY_DISK)
    ensures !Installed(crashed) && !HoldsAll(c, zip, RunEnd(c, q, crashed))
    ensures !SamePublished(RunEnd(c, q, crashed), RunEnd(c, q, EMPTY_DISK))
  {
    forall j | 0 <= j < k && IsTxt(zip.entries[j].name)
      ensures ParquetName(zip.entries[j].name) != ParquetName(zip.entries[i].name)
    {
      assert zip.entries[..k][j] == zip.entries[j];
    }
    LaterMemberCanBeLost(c, q, zip, k, i);
    UninterruptedHoldsAll(c, q, zip);
    LostMemberShows(c, zip, i, RunEnd(c, q, crashed), RunEnd(c, q, EMPTY_DISK));
  }

  lemma LostMemberShows(c: Codec, zip: ZipFile, i: nat, lost: Disk, whole: Disk)
    requires zip.Readable? && i < |zip.entries| && IsTxt(zip.entries[i].name)
    requires Installed(lost) && ParquetName(zip.entries[i].name) !in lost.published.value.files
    requires HoldsAll(c, zip, whole)
    ensures !HoldsAll(c, zip, lost) && !SamePublished(lost, whole)
  {
  }

  /**
   The exact condition, for a fault-free run served a processable archive. After every
   history of runs served this archive it publishes every `*.txt` member, if and only if no
   new stem comes after the required members are complete. When members of one stem convert
   alike, that is also exactly when it always publishes just what an uninterrupted run would.
   With distinct stems the condition is that no `*.txt` member at all comes that late.
   */
  lemma RecoveryConvergesIff(c: Codec, q: Request, zip: ZipFile)
    requires RequiredNamesTxt(c.lists) && GoodRequest(c, q, zip)
    ensures (forall sessions :: Unmisled(c, zip, sessions) ==> LosesNothing(c, q, zip, sessions)) <==> NothingLate(c, zip)
    ensures StemsAgree(c, zip) ==>
      ((forall sessions :: Unmisled(c, zip, sessions) ==> Converges(c, q, sessions)) <==> NothingLate(c, zip))
    ensures DistinctStems(zip) ==> StemsAgree(c, zip) && (NothingLate(c, zip) <==> NoLateTxt(c, zip))
  {
    if DistinctStems(zip) {
      NothingLateIff(c, zip);
    }
    if NothingLate(c, zip) {
      forall sessions | Unmisled(c, zip, sessions)
        ensures LosesNothing(c, q, zip, sessions) && (StemsAgree(c, zip) ==> Converges(c, q, sessions))
      {
        HistoryLosesNothing(c, q, zip, sessions);
        if StemsAgree(c, zip) {
          RecoveryConverges(c, q, zip, sessions);
        }
      }
    } else {
      var k, i :| 0 <= k <= i < |zip.entries| && IsTxt(zip.entries[i].name)
        && RequiredOnDisk(c.lists, FullExtraction(zip.entries[..k]))
        && !HasStem(zip.entries[..k], ParquetName(zip.entries[i].name));
      var sessions := LateMemberIsLost(c, q, zip, k, i);
      assert Unmisled(c, zip, sessions);
    }
  }

  /** What is installed, now or by this run, lacks some `*.txt` member. */
  ghost predicate EndsLacking(c: Codec, q: Request, zip: ZipFile, d: Disk)
  {
    var end := if Installed(d) then d else RunEnd(c, q, d);
    Installed(end) && !CoversAll(zip, end.published.value.files)
  }

  /**
   No run may be misled about a member: on any disk with this archive staged, a run with such
   an inspection can be stopped so that, at once or after one more run without any fault,
   what is installed lacks a member.
   */
  lemma MisledOverLosesMember(c: Codec, q: Request, zip: ZipFile, m: Missed, d: Disk) returns (s: Session)
    requires GoodRequest(c, q, zip) && !Installed(d) && d.zip == Some(zip) && MisledOver(c, m, zip, d)
    ensures ValidRequest(s.request) && AlwaysSends(zip, s.request) && s.request.faults.missed == m
    ensures EndsLacking(c, q, zip, AfterSession(c, s, d))
  {
    var p := q.(faults := NO_FAULTS.(missed := m));
    if FindResumePoint(c, m, d).Converted? {
      TrustedAsIs(c, p, zip, d);
      s := Session(p, |RunPlan(c, p, d).ops|);
    } else {
      StoppedInDiscard(c, p, 2, d);
      s := Session(p, 2);
      TrustedAsIs(c, q, zip, AfterSession(c, s, d));
    }
  }

  /** In particular nothing is late when all `*.txt` members are required ones, in any order. */
  lemma OnlyRequiredIsNeverLate(c: Codec, zip: ZipFile)
    requires DistinctStems(zip)
    requires forall i :: 0 <= i < |zip.entries| && IsTxt(zip.entries[i].name) ==> zip.entries[i].name in c.lists.required
    ensures NoLateTxt(c, zip)
  {
    forall k | 0 <= k < |zip.entries| && IsTxt(zip.entries[k].name)
      ensures !RequiredOnDisk(c.lists, FullExtraction(zip.entries[..k]))
    {
      var name, dir := zip.entries[k].name, FullExtraction(zip.entries[..k]);
      forall i | 0 <= i < k ensures zip.entries[..k][i].name != name {
        assert IsTxt(zip.entries[i].name) ==> ParquetName(zip.entries[i].name) != ParquetName(name);
      }
      AbsentName(zip.entries[..k], name);
      assert !MemberOnDisk(dir, name);
    }
  }

  lemma {:induction false} AbsentName(entries: seq<Entry>, name: string)
    requires forall i :: 0 <= i < |entries| ==> entries[i].name != name
    ensures name !in FullExtraction(entries)
  {
    if entries != [] {
      AbsentName(entries[..|entries| - 1], name);
    }
  }
}
