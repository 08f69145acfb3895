/**
 What an inspection of staging may miss: exactly which misses spoil crash-safe publication,
 how they do so from an empty disk, and what the order of the two removals has to do with it.
 */
module SnapshotInspection {
  import opened Wrappers
  import opened Domain
  import opened Archive
  import opened Snapshot
  import opened SnapshotSafety
  import opened SnapshotRecovery
  import opened SnapshotLimits
  import opened SnapshotTearing

  // ---- Exactly when an inspection is good enough ----

  /** Every run whose inspection misses just this keeps the invariant, whatever else fails and wherever it stops. */
  ghost predicate RunsStaySafe(c: Codec, m: Missed, d: Disk)
  {
    forall s: Session :: ValidRequest(s.request) && s.request.faults.missed == m ==> DiskInv(c, AfterSession(c, s, d))
  }

  /** A run that is to redo the extraction begins with its removal. */
  lemma DiscardComesFirst(c: Codec, q: Request, d: Disk)
    requires NeedExtract(FindResumePoint(c, q.faults.missed, d)) && d.extraction.Some? && !q.faults.dropExtraction
    ensures var plan := RunPlan(c, q, d);
      && |plan.ops| >= 2 && plan.ops[..2] == [DeletePart, DeleteExtraction]
      && (q.faults.dropParquet && d.parquet.Some? ==> |plan.ops| == 2 && plan.result == Err(IoFailed))
  {
    var d0 := Apply(DeletePart, d);
    var resume := FindResumePoint(c, q.faults.missed, d0);
    var rest := PlanFrom(c, q, Discarding(resume), d0);
    PartIsIgnored(c, q, d);
    if q.faults.dropParquet && d.parquet.Some? {
      assert rest.ops == [DeleteExtraction];
    } else {
      var ops := DiscardStage(q, resume, d0).ops;
      StageGoes(c, q, Discarding(resume), ops, Fetching(resume), d0);
      assert rest.ops[0] == DeleteExtraction;
    }
    assert RunPlan(c, q, d).ops == [DeletePart] + rest.ops;
  }

  /** Stopped right there, it leaves the conversion without its extraction. */
  lemma StoppedInDiscard(c: Codec, q: Request, stop: nat, d: Disk)
    requires NeedExtract(FindResumePoint(c, q.faults.missed, d)) && d.extraction.Some? && !q.faults.dropExtraction
    requires !Installed(d) && (stop == 2 || (stop > 2 && q.faults.dropParquet && d.parquet.Some?))
    ensures AfterSession(c, Session(q, stop), d) == d.(part := false, extraction := None)
  {
    DiscardComesFirst(c, q, d);
    var ops := RunPlan(c, q, d).ops;
    assert |ops| == 2 ==> ops == ops[..2];
    assert [DeletePart] + [DeleteExtraction] == [DeletePart, DeleteExtraction];
    ApplyAllSnoc([DeletePart], DeleteExtraction, d);
    ApplyAllSnoc([], DeletePart, d);
  }

  lemma MisledConvertedBreaks(c: Codec, q: Request, d: Disk)
    requires OnlyMisses(q) && q.resource.upstreamHash.None? && !Installed(d)
    requires Misled(c, q.faults.missed, d) && FindResumePoint(c, q.faults.missed, d).Converted?
    ensures !DiskInv(c, RunEnd(c, q, d))
  {
    TrustedAsIs(c, q, d.zip.value, d);
  }

  /** A misled run that nothing but a crash disturbs breaks the invariant. */
  lemma MisledRunBreaks(c: Codec, q: Request, m: Missed, d: Disk) returns (s: Session)
    requires ValidRequest(q) && !Installed(d) && Misled(c, m, d)
    ensures ValidRequest(s.request) && s.request.faults.missed == m && !DiskInv(c, AfterSession(c, s, d))
  {
    var p := q.(resource := q.resource.(upstreamHash := None), faults := NO_FAULTS.(missed := m));
    if FindResumePoint(c, m, d).Converted? {
      MisledConvertedBreaks(c, p, d);
      s := Session(p, |RunPlan(c, p, d).ops|);
    } else {
      StoppedInDiscard(c, p, 2, d);
      s := Session(p, 2);
    }
  }

  /**
   The exact condition, after any history of runs that were not misled: all runs with a given
   inspection keep the disk invariant at every operation, whatever else they are given, if
   and only if that inspection does not mislead them. (`q` only shows that requests exist.)
   */
  lemma SafeIffNotMisled(c: Codec, sessions: seq<Session>, m: Missed, q: Request)
    requires RequiredNamesTxt(c.lists) && ValidSessions(sessions) && NeverMisled(c, sessions) && ValidRequest(q)
    requires !Installed(AfterSessions(c, sessions, EMPTY_DISK))
    ensures var d := AfterSessions(c, sessions, EMPTY_DISK); RunsStaySafe(c, m, d) <==> !Misled(c, m, d)
  {
    var d := AfterSessions(c, sessions, EMPTY_DISK);
    CrashSafePublication(c, sessions);
    if Misled(c, m, d) {
      var s := MisledRunBreaks(c, q, m, d);
    } else {
      forall s: Session | ValidRequest(s.request) && s.request.faults.missed == m
        ensures DiskInv(c, AfterSession(c, s, d))
      {
        SessionKeepsInvariant(c, s, d);
      }
    }
  }

  /** The inspection cannot read the archive back, or else cannot check the extraction. */
  predicate Blind(m: Missed)
  {
    m.archive || (m.members && !m.extraction && m.hidden == {} && !m.phantom)
  }

  /**
   In terms of the disk alone: an archive that cannot be read back, or an extraction that
   cannot be checked, misleads a run if and only if a conversion is under way.
   */
  lemma BlindnessMisleadsIff(c: Codec, m: Missed, d: Disk)
    requires RequiredNamesTxt(c.lists) && DiskInv(c, d) && Blind(m)
    ensures Misled(c, m, d) <==> UnfinishedConversion(c, d)
    ensures Misled(c, m, d) ==> NeedExtract(FindResumePoint(c, m, d))
  {
    if !m.archive && FindResumePoint(c, m, d).Converted? {
      assert FindResumePoint(c, NOTHING_MISSED, d).Converted?;
      TrustedConversionIsComplete(c, d);
    } else if !m.archive && UnfinishedConversion(c, d) {
      assert !PassesForConverted(m, d);
    }
  }

  // ---- The order of the two removals ----

  /** What an inspection that sees staging lets go beside an archive has no conversion beside it. */
  lemma SightedDiscard(c: Codec, m: Missed, d: Disk)
    requires DiskInv(c, d) && SeesStaging(m) && NeedExtract(FindResumePoint(c, m, d))
    requires d.zip.Some? && d.extraction.Some?
    ensures d.parquet.None?
  {
  }

  /** Removing the conversion first is safe on every disk, whatever the inspection missed. */
  lemma ConversionFirstIsSafe(c: Codec, d: Disk)
    requires DiskInv(c, d) && !Installed(d)
    ensures Safe(c, [DeleteParquet, DeleteExtraction], d)
  {
    var d1 := Apply(DeleteParquet, d);
    SafeOne(c, DeleteExtraction, d1);
    SafeStep(c, DeleteParquet, [DeleteExtraction], d);
    assert [DeleteParquet] + [DeleteExtraction] == [DeleteParquet, DeleteExtraction];
  }

  lemma ExtractionFirstLeaves(c: Codec, d: Disk)
    requires DiskInv(c, d) && !Installed(d)
    ensures DiskInv(c, Apply(DeleteExtraction, d)) <==> !UnfinishedConversion(c, d)
  {
  }

  /** Removing the extraction first, as the discard step does, is safe if and only if no conversion is under way. */
  lemma ExtractionFirstIsSafeIff(c: Codec, d: Disk)
    requires DiskInv(c, d) && !Installed(d)
    ensures Safe(c, [DeleteExtraction, DeleteParquet], d) <==> !UnfinishedConversion(c, d)
  {
    var ops := [DeleteExtraction] + [DeleteParquet];
    assert ops == [DeleteExtraction, DeleteParquet] && ops[1..] == [DeleteParquet];
    ExtractionFirstLeaves(c, d);
    if UnfinishedConversion(c, d) {
      assert !Safe(c, ops[1..], Apply(ops[0], d));
    } else {
      DropBoth(c, d);
    }
  }

  lemma DropBoth(c: Codec, d: Disk)
    requires DiskInv(c, d) && !Installed(d) && DiskInv(c, Apply(DeleteExtraction, d))
    ensures Safe(c, [DeleteExtraction] + [DeleteParquet], d)
  {
    SafeOne(c, DeleteParquet, Apply(DeleteExtraction, d));
    SafeStep(c, DeleteExtraction, [DeleteParquet], d);
  }

  // ---- How a misleading inspection loses members, from an empty disk ----

  lemma {:induction false} FirstWrite(c: Codec, dir: Files, names: seq<string>, m: string) returns (n: string)
    requires (forall x :: x in names ==> x in dir) && AllConvert(c, dir) && m in names && IsTxt(m)
    ensures var writes := ParquetWrites(c, dir, names);
      && n in dir && IsTxt(n) && writes != []
      && writes[0] == WriteParquet(ParquetName(n), c.convert(dir[n]).value)
    decreases |names|
  {
    if IsTxt(names[0]) {
      n := names[0];
    } else {
      n := FirstWrite(c, dir, names[1..], m);
    }
  }

  lemma TwoMore(a: seq<Op>, x: Op, y: Op, writes: seq<Op>, rest: seq<Op>)
    requires writes != [] && writes[0] == y
    ensures |a + (([x] + writes) + rest)| >= |a| + 2
    ensures (a + (([x] + writes) + rest))[..|a| + 2] == a + [x, y]
  {
  }

  /** The disk with everything extracted and one file converted. */
  function OneConverted(zip: ZipFile, f: string, out: string): Disk
    requires zip.Readable?
  {
    ExtractedDisk(zip).(parquet := Some(map[f := out]))
  }

  /** A run that is stopped after its first conversion. */
  lemma CrashDuringConversion(c: Codec, q: Request, zip: ZipFile, m: string) returns (f: string, out: string)
    requires RequiredNamesTxt(c.lists) && ValidRequest(q) && Favourable(c, q, zip)
    requires q.reply.Complete? && q.reply.zip == zip && m in c.lists.required
    ensures AfterSession(c, Session(q, |ExtractOps(zip)| + 2), EMPTY_DISK) == OneConverted(zip, f, out)
  {
    var dir := FullExtraction(zip.entries);
    var writes := ParquetWrites(c, dir, Listed(q, dir));
    var rest := ScratchPlan(c, q, zip);
    ExtractedDiskGood(c, zip);
    ProcessableConverts(c, zip, dir);
    assert MemberOnDisk(dir, m) && IsListing(q.listing(dir), dir);
    var n := FirstWrite(c, dir, Listed(q, dir), m);
    f, out := ParquetName(n), c.convert(dir[n]).value;
    TwoMore(ExtractOps(zip), MakeParquet, WriteParquet(f, out), writes, [DeleteExtraction] + rest);
    OneConvertedDisk(zip, f, out);
    assert RunPlan(c, q, EMPTY_DISK).ops[..|ExtractOps(zip)| + 2] == ExtractOps(zip) + [MakeParquet, WriteParquet(f, out)];
  }

  lemma OneConvertedDisk(zip: ZipFile, f: string, out: string)
    requires zip.Readable?
    ensures ApplyAll(ExtractOps(zip) + [MakeParquet, WriteParquet(f, out)], EMPTY_DISK) == OneConverted(zip, f, out)
  {
    var d := ExtractedDisk(zip);
    ExtractOpsDisk(zip);
    ApplyAllConcat(ExtractOps(zip), [MakeParquet, WriteParquet(f, out)], EMPTY_DISK);
    assert [MakeParquet] + [WriteParquet(f, out)] == [MakeParquet, WriteParquet(f, out)];
    ApplyAllSnoc([MakeParquet], WriteParquet(f, out), d);
    ApplyAllSnoc([], MakeParquet, d);
    assert map[][f := out] == map[f := out];
  }

  /** Two required members are converted to different files. */
  predicate TwoRequired(lists: MemberLists, a: string, b: string)
  {
    a in lists.required && b in lists.required && |a| > 4 && |b| > 4 && ParquetName(a) != ParquetName(b)
  }

  lemma OneFileIsNotAll(c: Codec, a: string, b: string, f: string, out: string)
    requires TwoRequired(c.lists, a, b)
    ensures !AllRequiredConverted(c, map[f := out])
  {
  }

  /** So much of the archive is lost for good. */
  ghost predicate PublishesTooLittle(c: Codec, q: Request, d: Disk)
  {
    && !Installed(d)
    && Installed(RunEnd(c, q, d))
    && !AllRequiredConverted(c, RunEnd(c, q, d).published.value.files)
  }

  /** A conversion left without its extraction is trusted, and published as it is. */
  lemma LeftAloneIsPublished(c: Codec, q: Request, zip: ZipFile, files: Files)
    requires q.faults == NO_FAULTS && HashAccepted(q.resource.upstreamHash, c.sha256(zip))
    requires files != map[] && !AllRequiredConverted(c, files)
    ensures PublishesTooLittle(c, q, Disk(false, Some(zip), None, Some(files), None))
  {
    TrustedAsIs(c, q, zip, Disk(false, Some(zip), None, Some(files), None));
  }

  lemma TwoSessions(c: Codec, a: Session, b: Session)
    ensures AfterSessions(c, [a, b], EMPTY_DISK) == AfterSession(c, b, AfterSession(c, a, EMPTY_DISK))
  {
    var both := [a, b];
    assert both[..1] == [a] && [a][..0] == [];
    assert AfterSessions(c, [a], EMPTY_DISK) == AfterSession(c, a, EMPTY_DISK);
  }

  lemma BlindStop(c: Codec, blind: Request, zip: ZipFile, f: string, out: string, stop: nat)
    requires RequiredNamesTxt(c.lists) && zip.Readable? && DiskInv(c, OneConverted(zip, f, out))
    requires !AllRequiredConverted(c, map[f := out]) && Blind(blind.faults.missed) && !blind.faults.dropExtraction
    requires stop == 2 || (stop > 2 && blind.faults.dropParquet)
    ensures AfterSession(c, Session(blind, stop), OneConverted(zip, f, out))
      == Disk(false, Some(zip), None, Some(map[f := out]), None)
  {
    var d := OneConverted(zip, f, out);
    assert f in map[f := out];
    BlindnessMisleadsIff(c, blind.faults.missed, d);
    StoppedInDiscard(c, blind, stop, d);
  }

  /**
   One failing look is enough. From an empty disk: a run that crashes after its first
   conversion; a run that cannot read the archive back or cannot check the extraction, and
   that crashes after removing the extraction or fails to remove the conversion; and then a
   run without any fault publishes an incomplete conversion.
   */
  lemma BlindRunDefeatsRecovery(c: Codec, q: Request, blind: Request, last: Request, zip: ZipFile, a: string, b: string,
          stop: nat)
    requires RequiredNamesTxt(c.lists) && ValidRequest(q) && Favourable(c, q, zip)
    requires q.reply.Complete? && q.reply.zip == zip && TwoRequired(c.lists, a, b)
    requires Blind(blind.faults.missed) && !blind.faults.dropExtraction
    requires stop == 2 || (stop > 2 && blind.faults.dropParquet)
    requires last.faults == NO_FAULTS && HashAccepted(last.resource.upstreamHash, c.sha256(zip))
    ensures var sessions := [Session(q, |ExtractOps(zip)| + 2), Session(blind, stop)];
      PublishesTooLittle(c, last, AfterSessions(c, sessions, EMPTY_DISK))
  {
    var f, out := CrashDuringConversion(c, q, zip, a);
    var d := OneConverted(zip, f, out);
    TwoSessions(c, Session(q, |ExtractOps(zip)| + 2), Session(blind, stop));
    OneFileIsNotAll(c, a, b, f, out);
    SessionKeepsInvariant(c, Session(q, |ExtractOps(zip)| + 2), EMPTY_DISK);
    BlindStop(c, blind, zip, f, out, stop);
    assert f in map[f := out];
    LeftAloneIsPublished(c, last, zip, map[f := out]);
  }

  /** And a run that takes the extraction for gone publishes too little at once. */
  lemma UnseenExtractionDefeatsRecovery(c: Codec, q: Request, blind: Request, zip: ZipFile, a: string, b: string)
    requires RequiredNamesTxt(c.lists) && ValidRequest(q) && Favourable(c, q, zip)
    requires q.reply.Complete? && q.reply.zip == zip && TwoRequired(c.lists, a, b)
    requires blind.faults == NO_FAULTS.(missed := NOTHING_MISSED.(extraction := true))
    requires HashAccepted(blind.resource.upstreamHash, c.sha256(zip))
    ensures PublishesTooLittle(c, blind, AfterSession(c, Session(q, |ExtractOps(zip)| + 2), EMPTY_DISK))
  {
    var f, out := CrashDuringConversion(c, q, zip, a);
    OneFileIsNotAll(c, a, b, f, out);
    assert f in map[f := out];
    TrustedAsIs(c, blind, zip, OneConverted(zip, f, out));
  }
}
