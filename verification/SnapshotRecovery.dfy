/**
 Whole runs and histories of runs: any number of runs, each stopped after any number of
 its operations, and what the next run then does.
 */
module SnapshotRecovery {
  import opened Wrappers
  import opened Domain
  import opened Archive
  import opened Snapshot
  import opened SnapshotSafety

  lemma PartIsIgnored(c: Codec, q: Request, d: Disk)
    ensures var d0 := Apply(DeletePart, d);
      && (forall m :: FindResumePoint(c, m, d0) == FindResumePoint(c, m, d) && Misled(c, m, d0) == Misled(c, m, d))
      && SourceArchive(q, d0) == SourceArchive(q, d)
      && (DiskInv(c, d) ==> DiskInv(c, d0))
  {
  }

  /** Removing a partial download first changes nothing about a plan. */
  lemma PartFirst(c: Codec, q: Request, s: Stage, zip: ZipFile, plan: Plan, d: Disk)
    requires DiskInv(c, d) && !Installed(d) && PlanGood(c, q, s, zip, plan, Apply(DeletePart, d))
    requires s.Discarding?
    ensures PlanGood(c, q, s, zip, Prepend([DeletePart], plan), d)
  {
    SafeStep(c, DeletePart, plan.ops, d);
  }

  /** One run from any disk a crash can leave, unless its inspection misleads it. */
  lemma RunGood(c: Codec, q: Request, d: Disk)
    requires RequiredNamesTxt(c.lists) && ValidRequest(q) && DiskInv(c, d) && !Installed(d)
    requires !Misled(c, q.faults.missed, d)
    ensures PlanGood(c, q, Discarding(FindResumePoint(c, q.faults.missed, d)), SourceArchive(q, d), RunPlan(c, q, d), d)
  {
    var d0 := Apply(DeletePart, d);
    var s := Discarding(FindResumePoint(c, q.faults.missed, d));
    PartIsIgnored(c, q, d);
    assert !Misled(c, q.faults.missed, d0);
    PlanFromGood(c, q, s, SourceArchive(q, d), d0);
    PartFirst(c, q, s, SourceArchive(q, d), PlanFrom(c, q, s, d0), d);
  }

  // ---- Histories ----

  /** One run that is stopped after `stop` operations; a larger `stop` lets it finish. */
  datatype Session = Session(request: Request, stop: nat)

  /** Only a version that is not installed is ever run. */
  function AfterSession(c: Codec, s: Session, d: Disk): Disk
  {
    var ops := RunPlan(c, s.request, d).ops;
    if Installed(d) then d
    else ApplyAll(if s.stop < |ops| then ops[..s.stop] else ops, d)
  }

  function AfterSessions(c: Codec, sessions: seq<Session>, d: Disk): Disk
  {
    if sessions == [] then d
    else AfterSession(c, sessions[|sessions| - 1], AfterSessions(c, sessions[..|sessions| - 1], d))
  }

  ghost predicate ValidSessions(sessions: seq<Session>)
  {
    forall i :: 0 <= i < |sessions| ==> ValidRequest(sessions[i].request)
  }

  /** Unless the version is there already, the inspection that begins this run does not mislead it. */
  predicate Sees(c: Codec, s: Session, d: Disk)
  {
    Installed(d) || !Misled(c, s.request.faults.missed, d)
  }

  /** No run of the history is misled by its inspection. */
  predicate NeverMisled(c: Codec, sessions: seq<Session>)
  {
    if sessions == [] then true
    else
      var earlier := sessions[..|sessions| - 1];
      NeverMisled(c, earlier) && Sees(c, sessions[|sessions| - 1], AfterSessions(c, earlier, EMPTY_DISK))
  }

  lemma SessionKeepsInvariant(c: Codec, s: Session, d: Disk)
    requires RequiredNamesTxt(c.lists) && ValidRequest(s.request) && DiskInv(c, d) && Sees(c, s, d)
    ensures DiskInv(c, AfterSession(c, s, d))
  {
    if !Installed(d) {
      RunGood(c, s.request, d);
      var ops := RunPlan(c, s.request, d).ops;
      SafeAtEveryPrefix(c, ops, d, if s.stop < |ops| then s.stop else |ops|);
      assert ops[..|ops|] == ops;
    }
  }

  /**
   Crash-safe publication. Over any number of runs, each stopped anywhere and none misled by
   its inspection: an installed snapshot is a complete conversion of one archive whose size
   and hash its sidecar records, and staging next to a `.zip` derives from that `.zip`.
   */
  lemma {:induction false} CrashSafePublication(c: Codec, sessions: seq<Session>)
    requires RequiredNamesTxt(c.lists) && ValidSessions(sessions) && NeverMisled(c, sessions)
    ensures DiskInv(c, AfterSessions(c, sessions, EMPTY_DISK))
    decreases |sessions|
  {
    if sessions != [] {
      var earlier := sessions[..|sessions| - 1];
      CrashSafePublication(c, earlier);
      SessionKeepsInvariant(c, sessions[|sessions| - 1], AfterSessions(c, earlier, EMPTY_DISK));
    }
  }

  /** An inspection that at most overlooks a conversion. */
  predicate SeesStaging(m: Missed)
  {
    m.(conversion := false) == NOTHING_MISSED
  }

  /** Such an inspection never misleads. */
  lemma SightIsNeverMisled(c: Codec, m: Missed, d: Disk)
    requires RequiredNamesTxt(c.lists) && DiskInv(c, d) && SeesStaging(m)
    ensures !Misled(c, m, d)
  {
    if FindResumePoint(c, m, d).Converted? {
      assert FindResumePoint(c, NOTHING_MISSED, d).Converted?;
      TrustedConversionIsComplete(c, d);
    }
  }

  /** So crash-safe publication covers every history whose inspections see the archive and the extraction. */
  lemma {:induction false} SightedHistory(c: Codec, sessions: seq<Session>)
    requires RequiredNamesTxt(c.lists) && ValidSessions(sessions)
    requires forall i :: 0 <= i < |sessions| ==> SeesStaging(sessions[i].request.faults.missed)
    ensures NeverMisled(c, sessions) && DiskInv(c, AfterSessions(c, sessions, EMPTY_DISK))
    decreases |sessions|
  {
    if sessions != [] {
      var earlier := sessions[..|sessions| - 1];
      SightedHistory(c, earlier);
      SightIsNeverMisled(c, sessions[|sessions| - 1].request.faults.missed, AfterSessions(c, earlier, EMPTY_DISK));
    }
    CrashSafePublication(c, sessions);
  }

  lemma CompleteIffNotUnderWay(c: Codec, m: Missed, d: Disk)
    requires DiskInv(c, d) && FindResumePoint(c, m, d).Converted?
    ensures AllRequiredConverted(c, d.parquet.value) <==>
      !UnfinishedConversion(c, d) && (d.parquet.value == map[] ==> c.lists.required == [])
  {
    if d.parquet.value == map[] && c.lists.required != [] {
      assert c.lists.required[0] in c.lists.required;
    }
  }

  /**
   After any such history, a resume that skips conversion skips it over a complete one: always
   when the inspection sees the archive and the extraction, and otherwise exactly when there is
   a conversion and none is under way.
   */
  lemma ConvertedResumeIsSound(c: Codec, sessions: seq<Session>, m: Missed)
    requires RequiredNamesTxt(c.lists) && ValidSessions(sessions) && NeverMisled(c, sessions)
    ensures var d := AfterSessions(c, sessions, EMPTY_DISK);
      FindResumePoint(c, m, d).Converted? ==>
        && d.zip.Some? && d.parquet.Some? && ConvertedFrom(c, d.zip.value, d.parquet.value)
        && (SeesStaging(m) ==> AllRequiredConverted(c, d.parquet.value))
        && (AllRequiredConverted(c, d.parquet.value) <==>
              !UnfinishedConversion(c, d) && (d.parquet.value == map[] ==> c.lists.required == []))
  {
    CrashSafePublication(c, sessions);
    var d := AfterSessions(c, sessions, EMPTY_DISK);
    if FindResumePoint(c, m, d).Converted? {
      CompleteIffNotUnderWay(c, m, d);
      if SeesStaging(m) {
        SightIsNeverMisled(c, m, d);
      }
    }
  }

  /**
   A finished run installs exactly when it succeeds; then, whatever it resumed from, the hash
   in its sidecar is that of its archive, and equals, case aside, an upstream hash of 64
   hexadecimal digits.
   */
  lemma FinishedRunPublishesIffOk(c: Codec, sessions: seq<Session>, q: Request)
    requires RequiredNamesTxt(c.lists) && ValidSessions(sessions) && NeverMisled(c, sessions) && ValidRequest(q)
    requires var d := AfterSessions(c, sessions, EMPTY_DISK); !Installed(d) && !Misled(c, q.faults.missed, d)
    ensures var d := AfterSessions(c, sessions, EMPTY_DISK);
      var plan := RunPlan(c, q, d);
      var end := ApplyAll(plan.ops, d);
      && (plan.result.Ok? <==> Installed(end))
      && (plan.result.Ok? ==>
            && end.published.value.sidecar == Some(plan.result.value)
            && PublishedFrom(c, SourceArchive(q, d), end.published.value.files, plan.result.value)
            && var hash := q.resource.upstreamHash;
               hash.Some? && SixtyFourHex(hash.value) ==> EqualUpToCase(hash.value, plan.result.value.archiveSha256))
  {
    CrashSafePublication(c, sessions);
    RunGood(c, q, AfterSessions(c, sessions, EMPTY_DISK));
    var plan := RunPlan(c, q, AfterSessions(c, sessions, EMPTY_DISK));
    if plan.result.Ok? {
      HashAcceptedMeans(q.resource.upstreamHash, plan.result.value.archiveSha256);
    }
  }

  /** Recovery always completes: after any history, one fault-free run on a processable archive publishes. */
  lemma RecoveryCompletes(c: Codec, sessions: seq<Session>, q: Request)
    requires RequiredNamesTxt(c.lists) && ValidSessions(sessions) && NeverMisled(c, sessions) && ValidRequest(q)
    requires !Installed(AfterSessions(c, sessions, EMPTY_DISK))
    requires var d := AfterSessions(c, sessions, EMPTY_DISK);
      Favourable(c, q, SourceArchive(q, d)) && (d.zip.None? ==> q.reply.Complete?)
    ensures var d := AfterSessions(c, sessions, EMPTY_DISK);
      var plan := RunPlan(c, q, d);
      var end := ApplyAll(plan.ops, d);
      && plan.result.Ok?
      && Installed(end)
      && PublishedFrom(c, SourceArchive(q, d), end.published.value.files, plan.result.value)
  {
    CrashSafePublication(c, sessions);
    SightIsNeverMisled(c, NOTHING_MISSED, AfterSessions(c, sessions, EMPTY_DISK));
    RunGood(c, q, AfterSessions(c, sessions, EMPTY_DISK));
  }

  /** The disk a whole run leaves. */
  function RunEnd(c: Codec, q: Request, d: Disk): Disk
  {
    ApplyAll(RunPlan(c, q, d).ops, d)
  }
}
