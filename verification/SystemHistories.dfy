/**
 What the invariant means for histories of invocations: installed snapshots are permanent,
 `latest` only moves forward, when the startup check can reject, and why the interleaving of
 the workers does not matter.
 */
module SystemHistories {
  import opened Wrappers
  import opened Domain
  import opened Paths
  import opened Manifest
  import opened Snapshot
  import opened SnapshotSafety
  import opened SnapshotRecovery
  import opened WorkStates
  import opened Reconciliation
  import opened ReconciliationProperties
  import opened Rollup
  import opened Systems
  import opened SystemSafety

  // ---- Nothing diverges ----

  /** At the start of every invocation, no PUBLISHED record lacks its snapshot. */
  lemma NothingEverDiverges(w: World, s: System, i: Input)
    requires SystemInv(w, s) && Enabled(w, s, Begin(i))
    ensures var base := Sweep(s.store);
      Deciding(Sorted(i.resources), i.cutoff, Scanned(i.scan, RawOf(base)).Keys, RecoveredStates(base.records), Diverged) == []
  {
    var base := Sweep(s.store);
    var installed := Scanned(i.scan, RawOf(base));
    SweepKeepsInv(w, s.store);
    ScanShows(w, base, i.scan);
    forall v: VersionId ensures Decide(i.cutoff, installed.Keys, RecoveredStates(base.records), v) != Diverged {
      assert RecordOk(base, v);
      RecoveredAt(base, v);
      ShowsVersions(base, installed, v);
    }
    NoneDecided(Sorted(i.resources), i.cutoff, installed.Keys, RecoveredStates(base.records), Diverged);
  }

  // ---- Installed snapshots are permanent ----

  /** `b` still has every snapshot of `a`, files and sidecar unchanged. */
  ghost predicate Keeps(a: Store, b: Store)
  {
    forall n :: DirInstalled(a, n) ==> DiskOf(b, n).published == DiskOf(a, n).published
  }

  lemma OperateKeepsInstalled(w: World, r: Run, s: Store, v: VersionId, k: nat)
    requires RunInv(w, r) && Follows(w, r, s) && v in r.eligible && At(r, v, Claimed(k)) && k < |PlanOf(w, r, v).ops|
    ensures Keeps(s, Operated(w, r, s, v, k))
  {
    assert DiskFollows(w, r, s, v);
    DiskAtGood(w, r, v, Claimed(k));
    forall n | DirInstalled(s, n) ensures DiskOf(Operated(w, r, s, v, k), n).published == DiskOf(s, n).published {
      OperatedDisk(w, r, s, v, k, n);
    }
  }

  lemma OperateStepKeepsInstalled(w: World, s: System, v: VersionId)
    requires SystemInv(w, s) && Enabled(w, s, Operate(v))
    ensures Keeps(s.store, Next(w, s, Operate(v)).store)
  {
    var k := s.run.value.progress[v].done;
    NextOperated(w, s, v, k);
    OperateKeepsInstalled(w, s.run.value, s.store, v, k);
  }

  lemma SweepKeepsInstalled(s: Store)
    ensures Keeps(s, Sweep(s))
  {
    forall n | DirInstalled(s, n) ensures DiskOf(Sweep(s), n).published == DiskOf(s, n).published {
      SweptDisk(s, n);
    }
  }

  lemma OtherStepsKeepDisks(w: World, s: System, step: Step)
    requires Enabled(w, s, step) && !step.Begin? && !step.Operate?
    ensures Keeps(s.store, Next(w, s, step).store)
  {
    assert Next(w, s, step).store.disks == s.store.disks;
  }

  /** No step of any invocation removes or rewrites an installed snapshot. */
  lemma StepKeepsInstalled(w: World, s: System, step: Step)
    requires SystemInv(w, s) && Enabled(w, s, step)
    ensures Keeps(s.store, Next(w, s, step).store)
  {
    match step
    case Begin(_) => SweepKeepsInstalled(s.store);
    case Operate(v) => OperateStepKeepsInstalled(w, s, v);
    case _ => OtherStepsKeepDisks(w, s, step);
  }

  /** So over any history the installed snapshots only ever grow. */
  lemma {:induction false} InstalledForever(w: World, s: System, steps: seq<Step>)
    requires SystemInv(w, s) && ValidTrace(w, s, steps)
    ensures Keeps(s.store, EndOf(w, s, steps).store)
    decreases |steps|
  {
    if steps != [] {
      var t := Next(w, s, steps[0]);
      StepKeepsInv(w, s, steps[0]);
      StepKeepsInstalled(w, s, steps[0]);
      InstalledForever(w, t, steps[1..]);
      forall n | DirInstalled(s.store, n) ensures DiskOf(EndOf(w, s, steps).store, n).published == DiskOf(s.store, n).published {
        assert DirInstalled(t.store, n);
      }
    }
  }

  // ---- The startup check ----

  /** `latest` names the newest installed snapshot; with none installed there is no link. */
  ghost predicate LatestIsNewest(s: Store)
  {
    match s.latest
    case None => forall n :: !DirInstalled(s, n)
    case Some(m) => DirInstalled(s, m) && forall n :: DirInstalled(s, n) ==> SidecarOf(s, n).version <= SidecarOf(s, m).version
  }

  lemma ShownHere(s: Store, installed: InstalledMap, n: string)
    requires Shows(s, installed)
    ensures DirInstalled(s, n) ==>
      SidecarOf(s, n).version in installed && installed[SidecarOf(s, n).version].status == SidecarStatus.Verified
  {
    if DirInstalled(s, n) {
      assert ShownAt(s, installed, SidecarOf(s, n).version);
    }
  }

  /** The check over the scanned sidecars is exactly that. */
  lemma ConsistentIffNewest(w: World, s: Store, installed: InstalledMap)
    requires StoreInv(w, s) && Shows(s, installed)
    ensures LatestConsistent(installed, s.latest) <==> LatestIsNewest(s)
  {
    NewestIsNewest(installed);
    match Newest(installed)
    case None =>
      forall n ensures !DirInstalled(s, n) {
        ShownHere(s, installed, n);
      }
    case Some(v) =>
      NewestDir(w, s, installed, v);
  }

  lemma NewestDir(w: World, s: Store, installed: InstalledMap, v: VersionId)
    requires StoreInv(w, s) && Shows(s, installed) && IsNewestVerified(installed, Some(v))
    ensures LatestIsNewest(s) <==> s.latest == Some(FileName(installed[v].extractPath))
  {
    var m := FileName(installed[v].extractPath);
    assert ShownAt(s, installed, v);
    forall n ensures DirInstalled(s, n) ==> SidecarOf(s, n).version <= v {
      ShownHere(s, installed, n);
    }
    if s.latest.Some? {
      assert OneDirEach(s, m, s.latest.value);
    }
  }

  /** An invocation gets past its startup check if and only if `latest` names the newest installed snapshot. */
  lemma BeginAcceptsIff(w: World, s: System, i: Input)
    requires SystemInv(w, s) && Enabled(w, s, Begin(i))
    ensures Next(w, s, Begin(i)).run.Some? <==> LatestIsNewest(s.store)
  {
    var base := Sweep(s.store);
    SweepKeepsInv(w, s.store);
    ScanShows(w, base, i.scan);
    ConsistentIffNewest(w, base, Scanned(i.scan, RawOf(base)));
    SweepKeepsNewest(s.store);
  }

  lemma SweepKeepsNewest(s: Store)
    ensures LatestIsNewest(Sweep(s)) <==> LatestIsNewest(s)
  {
    forall n ensures DirInstalled(Sweep(s), n) <==> DirInstalled(s, n)
             ensures DirInstalled(s, n) ==> SidecarOf(Sweep(s), n) == SidecarOf(s, n)
    {
      SweptDisk(s, n);
    }
  }

  /** A completed invocation always leaves `latest` at the newest installed snapshot. */
  lemma CompleteRepairsLatest(w: World, s: System)
    requires SystemInv(w, s) && Enabled(w, s, Step.Complete)
    ensures LatestIsNewest(Next(w, s, Step.Complete).store)
  {
    var r := s.run.value;
    var installed := FinalBooks(w, r).installed;
    var end := s.store.(latest := AdvancedLatest(installed, s.store.latest));
    CompleteKeepsInv(w, s);
    FinalBooksShow(w, r, s.store);
    ShowsSameDisks(s.store, end, installed);
    NewestIsNewest(installed);
    if Newest(installed).None? {
      NoneInstalledNoLatest(w, s.store, installed);
    }
    ConsistentIffNewest(w, end, installed);
  }

  lemma ShowsSameDisks(s: Store, t: Store, installed: InstalledMap)
    requires Shows(s, installed) && s.disks == t.disks
    ensures Shows(t, installed)
  {
    forall n | DirInstalled(t, n)
      ensures SidecarOf(t, n).version in installed && installed[SidecarOf(t, n).version] == SidecarOf(t, n)
    {
      assert DirInstalled(s, n) && SidecarOf(s, n) == SidecarOf(t, n);
    }
    forall v | v in installed ensures ShownAt(t, installed, v) {
      assert ShownAt(s, installed, v);
    }
  }

  lemma NoneInstalledNoLatest(w: World, s: Store, installed: InstalledMap)
    requires StoreInv(w, s) && Shows(s, installed) && IsNewestVerified(installed, None)
    ensures s.latest.None?
  {
    if s.latest.Some? {
      ShownHere(s, installed, s.latest.value);
    }
  }

  /** Some version published by this invocation is newer than everything installed before it. */
  ghost predicate PublishedNewer(w: World, r: Run)
  {
    exists v :: v in r.eligible && v in r.progress && EndsWell(w, r, v, r.progress[v]) && forall u :: u in r.installed ==> u < v
  }

  lemma PublishedNewerBreaksLatest(w: World, r: Run, s: Store)
    requires RunInv(w, r) && Follows(w, r, s) && PublishedNewer(w, r)
    ensures !LatestIsNewest(s)
  {
    var v :| v in r.eligible && v in r.progress && EndsWell(w, r, v, r.progress[v]) && forall u :: u in r.installed ==> u < v;
    var n := DirName(r, v);
    assert DiskFollows(w, r, s, v);
    DiskAtGood(w, r, v, r.progress[v]);
    assert DirInstalled(s, n) && SidecarOf(s, n).version == v;
    if s.latest.Some? {
      var m := s.latest.value;
      BaseStays(w, r, s, m);
      assert DirInstalled(r.base, m) && SidecarOf(r.base, m) == SidecarOf(s, m);
    }
  }

  lemma BaseNotNewer(w: World, r: Run, s: Store, n: string)
    requires RunInv(w, r) && Follows(w, r, s) && LatestIsNewest(r.base) && DirInstalled(r.base, n)
    ensures s.latest.Some? && DirInstalled(s, s.latest.value) && SidecarOf(r.base, n).version <= SidecarOf(s, s.latest.value).version
  {
    BaseStays(w, r, s, s.latest.value);
  }

  lemma NotNewer(w: World, r: Run, s: Store, n: string)
    requires RunInv(w, r) && Follows(w, r, s) && LatestIsNewest(r.base) && !PublishedNewer(w, r) && DirInstalled(s, n)
    ensures s.latest.Some? && DirInstalled(s, s.latest.value) && SidecarOf(s, n).version <= SidecarOf(s, s.latest.value).version
  {
    var owner := InstalledCase(w, r, s, n);
    match owner
    case None => BaseNotNewer(w, r, s, n);
    case Some(v) =>
      EligibleFacts(w, r, v);
      assert DiskFollows(w, r, s, v);
      DiskAtGood(w, r, v, r.progress[v]);
      var u :| u in r.installed && u >= v;
      assert ShownAt(r.base, r.installed, u);
      BaseNotNewer(w, r, s, FileName(r.installed[u].extractPath));
  }

  /** While an invocation runs, `latest` is behind exactly when a version newer than all before it has been published. */
  lemma RunLatest(w: World, r: Run, s: Store)
    requires RunInv(w, r) && Follows(w, r, s)
    ensures LatestIsNewest(s) <==> !PublishedNewer(w, r)
  {
    ConsistentIffNewest(w, r.base, r.installed);
    if PublishedNewer(w, r) {
      PublishedNewerBreaksLatest(w, r, s);
    } else {
      NothingNewer(w, r, s);
    }
  }

  lemma NothingNewer(w: World, r: Run, s: Store)
    requires RunInv(w, r) && Follows(w, r, s) && LatestIsNewest(r.base) && !PublishedNewer(w, r)
    ensures LatestIsNewest(s)
  {
    if s.latest.Some? {
      BaseStays(w, r, s, s.latest.value);
    }
    forall n | DirInstalled(s, n)
      ensures s.latest.Some? && DirInstalled(s, s.latest.value) && SidecarOf(s, n).version <= SidecarOf(s, s.latest.value).version
    {
      NotNewer(w, r, s, n);
    }
  }

  /**
   When an invocation ends, the next one will be rejected if and only if this one crashed
   after publishing a version newer than everything installed before it.
   */
  lemma RejectionNeedsInterruption(w: World, s: System, step: Step)
    requires SystemInv(w, s) && Enabled(w, s, step) && s.run.Some? && Next(w, s, step).run.None?
    ensures !LatestIsNewest(Next(w, s, step).store) <==> step.Crash? && PublishedNewer(w, s.run.value)
  {
    if step.Crash? {
      RunLatest(w, s.run.value, s.store);
    } else {
      assert step == Step.Complete;
      CompleteRepairsLatest(w, s);
    }
  }

  // ---- A rejected store stays rejected ----

  /** The same published snapshots, staging and records, up to swept partial downloads. */
  ghost predicate SameButSwept(a: Store, b: Store)
  {
    && a.records == b.records && a.latest == b.latest
    && forall n :: DiskOf(b, n) == DiskOf(a, n) || DiskOf(b, n) == Apply(DeletePart, DiskOf(a, n))
  }

  lemma RejectedBegin(w: World, s: System, step: Step)
    requires SystemInv(w, s) && s.run.None? && !LatestIsNewest(s.store) && Enabled(w, s, step)
    ensures Next(w, s, step) == System(Sweep(s.store), None)
  {
    assert step.Begin?;
    BeginAcceptsIff(w, s, step.input);
  }

  /**
   The startup check is not self-healing: once it rejects, every later invocation is
   rejected, and apart from swept partial downloads the store never changes again.
   */
  lemma {:induction false} RejectionIsPermanent(w: World, s: System, steps: seq<Step>)
    requires SystemInv(w, s) && s.run.None? && !LatestIsNewest(s.store) && ValidTrace(w, s, steps)
    ensures EndOf(w, s, steps).run.None? && !LatestIsNewest(EndOf(w, s, steps).store)
    ensures SameButSwept(s.store, EndOf(w, s, steps).store)
    decreases |steps|
  {
    if steps != [] {
      var t := Next(w, s, steps[0]);
      StepKeepsInv(w, s, steps[0]);
      RejectedBegin(w, s, steps[0]);
      SweepKeepsNewest(s.store);
      RejectionIsPermanent(w, t, steps[1..]);
      SweepThenSame(s.store, EndOf(w, s, steps).store);
    }
  }

  lemma SweepThenSame(a: Store, b: Store)
    requires SameButSwept(Sweep(a), b)
    ensures SameButSwept(a, b)
  {
    forall n ensures DiskOf(b, n) == DiskOf(a, n) || DiskOf(b, n) == Apply(DeletePart, DiskOf(a, n)) {
      SweptDisk(a, n);
    }
  }

  // ---- `latest` only moves forward ----

  /** `latest` names an installed snapshot in both, and a version in `b` no older than in `a`. */
  ghost predicate NoOlder(a: Store, b: Store)
  {
    a.latest.Some? ==>
      && DirInstalled(a, a.latest.value)
      && b.latest.Some? && DirInstalled(b, b.latest.value)
      && SidecarOf(a, a.latest.value).version <= SidecarOf(b, b.latest.value).version
  }

  lemma SameLatestNoOlder(a: Store, b: Store)
    requires a.latest == b.latest && Keeps(a, b) && (a.latest.Some? ==> DirInstalled(a, a.latest.value))
    ensures NoOlder(a, b)
  {
  }

  lemma NewestNoOlder(a: Store, b: Store)
    requires LatestIsNewest(b) && Keeps(a, b) && (a.latest.Some? ==> DirInstalled(a, a.latest.value))
    ensures NoOlder(a, b)
  {
    if a.latest.Some? {
      assert DirInstalled(b, a.latest.value);
    }
  }

  lemma OnlyCompleteRelinks(w: World, s: System, step: Step)
    requires Enabled(w, s, step) && step != Step.Complete
    ensures Next(w, s, step).store.latest == s.store.latest
  {
  }

  lemma StepMovesLatestForward(w: World, s: System, step: Step)
    requires SystemInv(w, s) && Enabled(w, s, step)
    ensures NoOlder(s.store, Next(w, s, step).store)
  {
    StepKeepsInstalled(w, s, step);
    if step == Step.Complete {
      CompleteRepairsLatest(w, s);
      NewestNoOlder(s.store, Next(w, s, step).store);
    } else {
      OnlyCompleteRelinks(w, s, step);
      SameLatestNoOlder(s.store, Next(w, s, step).store);
    }
  }

  /** Over any history `latest` never moves backwards and always names an installed snapshot. */
  lemma {:induction false} LatestMovesForward(w: World, s: System, steps: seq<Step>)
    requires SystemInv(w, s) && ValidTrace(w, s, steps)
    ensures NoOlder(s.store, EndOf(w, s, steps).store)
    decreases |steps|
  {
    if steps != [] {
      StepKeepsInv(w, s, steps[0]);
      StepMovesLatestForward(w, s, steps[0]);
      LatestMovesForward(w, Next(w, s, steps[0]), steps[1..]);
    }
  }

  // ---- The interleaving of the workers does not matter ----

  ghost predicate SameStore(a: Store, b: Store)
  {
    (forall n :: DiskOf(a, n) == DiskOf(b, n)) && a.records == b.records && a.latest == b.latest
  }

  /** The progress of each version determines the store. */
  lemma StoreDetermined(w: World, r: Run, a: Store, b: Store)
    requires RunInv(w, r) && Follows(w, r, a) && Follows(w, r, b)
    ensures SameStore(a, b)
  {
    forall n ensures DiskOf(a, n) == DiskOf(b, n) {
      var owner := DirCase(r, n);
      if owner.Some? {
        EligibleFacts(w, r, owner.value);
        assert DiskFollows(w, r, a, owner.value) && DiskFollows(w, r, b, owner.value);
      }
    }
    forall v: VersionId ensures RecordOf(a, v) == RecordOf(b, v) {
      assert RecordFollows(w, r, a, v) && RecordFollows(w, r, b, v);
    }
    SameRecords(a, b);
  }

  lemma SameRecords(a: Store, b: Store)
    requires forall v :: RecordOf(a, v) == RecordOf(b, v)
    ensures a.records == b.records
  {
    forall v: VersionId ensures v in a.records <==> v in b.records {
      assert RecordOf(a, v) == RecordOf(b, v);
    }
    forall v | v in a.records ensures a.records[v] == b.records[v] {
      assert RecordOf(a, v) == RecordOf(b, v);
    }
  }

  /** Steps of the same invocation: neither its start nor its end. */
  predicate Inside(step: Step)
  {
    step.SaveReconciled? || step.Claim? || step.Operate? || step.Report?
  }

  ghost predicate SameInvocation(a: System, b: System)
  {
    a.run.Some? && b.run.Some? && b.run.value == a.run.value.(progress := b.run.value.progress)
  }

  lemma {:induction false} StaysInside(w: World, s: System, steps: seq<Step>)
    requires s.run.Some? && ValidTrace(w, s, steps) && forall i :: 0 <= i < |steps| ==> Inside(steps[i])
    ensures SameInvocation(s, EndOf(w, s, steps))
    decreases |steps|
  {
    if steps != [] {
      assert Inside(steps[0]);
      OneStepInside(w, s, steps[0]);
      StaysInside(w, Next(w, s, steps[0]), steps[1..]);
    }
  }

  lemma OneStepInside(w: World, s: System, step: Step)
    requires Enabled(w, s, step) && Inside(step)
    ensures SameInvocation(s, Next(w, s, step))
  {
  }

  lemma FinishedVersion(w: World, r: Run, v: VersionId)
    requires RunInv(w, r) && AllSaved(r) && AllReported(r) && v in r.progress
    ensures r.progress[v] == if v in r.eligible then Reported else Saved
  {
    assert ProgressOk(w, r, v, r.progress[v]);
    if v in r.eligible {
      assert At(r, v, Reported);
    }
  }

  /** Every eligible version is reported and every other record saved. */
  predicate AllFinished(r: Run)
  {
    r.progress.Keys == r.states.Keys
      && forall v :: v in r.progress ==> r.progress[v] == if v in r.eligible then Reported else Saved
  }

  lemma FinishedShape(w: World, r: Run)
    requires RunInv(w, r) && AllSaved(r) && AllReported(r)
    ensures AllFinished(r)
  {
    forall v | v in r.progress ensures r.progress[v] == if v in r.eligible then Reported else Saved {
      FinishedVersion(w, r, v);
    }
  }

  /** When all is saved and reported, there is only one way the progress can look. */
  lemma FinishedProgress(r: Run, q: Run)
    requires q == r.(progress := q.progress) && AllFinished(r) && AllFinished(q)
    ensures q == r
  {
    assert q.progress == r.progress;
  }

  /**
   Schedule independence: from any state of an invocation, every interleaving of its workers
   that runs to the end leaves the same disks, records and books, and then the same `latest`.
   */
  lemma ScheduleIndependence(w: World, s: System, a: seq<Step>, b: seq<Step>)
    requires SystemInv(w, s) && s.run.Some?
    requires ValidTrace(w, s, a) && ValidTrace(w, s, b)
    requires (forall i :: 0 <= i < |a| ==> Inside(a[i])) && (forall i :: 0 <= i < |b| ==> Inside(b[i]))
    requires Enabled(w, EndOf(w, s, a), Step.Complete) && Enabled(w, EndOf(w, s, b), Step.Complete)
    ensures EndOf(w, s, a).run == EndOf(w, s, b).run
    ensures SameStore(EndOf(w, s, a).store, EndOf(w, s, b).store)
    ensures SameStore(Next(w, EndOf(w, s, a), Step.Complete).store, Next(w, EndOf(w, s, b), Step.Complete).store)
  {
    var x, y := EndOf(w, s, a), EndOf(w, s, b);
    StaysInside(w, s, a);
    StaysInside(w, s, b);
    TraceKeepsInv(w, s, a);
    TraceKeepsInv(w, s, b);
    FinishedShape(w, x.run.value);
    FinishedShape(w, y.run.value);
    FinishedProgress(x.run.value, y.run.value);
    StoreDetermined(w, x.run.value, x.store, y.store);
    SameAfterComplete(w, x, y);
  }

  lemma SameAfterComplete(w: World, x: System, y: System)
    requires Enabled(w, x, Step.Complete) && Enabled(w, y, Step.Complete) && x.run == y.run && SameStore(x.store, y.store)
    ensures SameStore(Next(w, x, Step.Complete).store, Next(w, y, Step.Complete).store)
  {
    forall n ensures DiskOf(Next(w, x, Step.Complete).store, n) == DiskOf(Next(w, y, Step.Complete).store, n) {
      assert DiskOf(x.store, n) == DiskOf(y.store, n);
    }
  }

  // ---- Recovery within the whole system ----

  lemma FavourablePlanSucceeds(w: World, r: Run, v: VersionId)
    requires RunInv(w, r) && v in r.eligible
    requires var q, d := r.input.requests(v), DiskOf(r.base, DirName(r, v));
      Favourable(w.codec, q, SourceArchive(q, d)) && (d.zip.None? ==> q.reply.Complete?)
    ensures PlanOf(w, r, v).result.Ok?
  {
    EligiblePrefix(w, r, v);
    EligibleNotInstalled(w, r, v);
    RunGood(w.codec, r.input.requests(v), DiskOf(r.base, DirName(r, v)));
  }

  /**
   In an invocation whose calls all succeed for an eligible version, with a processable
   archive staged or served and an accepted hash, that version is published, whatever an
   earlier crash left of it and whatever happens to the other versions.
   */
  lemma FavourableVersionIsPublished(w: World, r: Run, s: Store, v: VersionId)
    requires RunInv(w, r) && Follows(w, r, s) && AllReported(r) && v in r.eligible
    requires var q, d := r.input.requests(v), DiskOf(r.base, DirName(r, v));
      Favourable(w.codec, q, SourceArchive(q, d)) && (d.zip.None? ==> q.reply.Complete?)
    ensures DirInstalled(s, DirName(r, v)) && InstalledVersion(s, v)
    ensures OutcomeFor(w, r, v).work.state == WorkState.Published
  {
    FavourablePlanSucceeds(w, r, v);
    ReportedSidecar(w, r, s, v);
    OutcomeRecord(w, r, v);
    assert SidecarOf(s, DirName(r, v)).version == v;
  }
}
