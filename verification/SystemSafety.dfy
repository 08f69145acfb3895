/**
 The whole-system invariant: over any number of invocations and crashes, a PUBLISHED record
 means an installed snapshot, installed snapshots are never touched again, and `latest`
 names an installed one.
 */
module SystemSafety {
  import opened Wrappers
  import opened Domain
  import opened Paths
  import opened Manifest
  import opened Snapshot
  import opened SnapshotSafety
  import opened SnapshotRecovery
  import opened WorkStates
  import opened Reconciliation
  import opened ReconciliationProperties
  import opened Rollup
  import opened Pipeline
  import opened SnapshotProcess
  import opened Systems

  predicate ValidWorld(w: World)
  {
    RequiredNamesTxt(w.codec.lists)
  }

  // ---- The invariant of the store ----

  /** `n` is the directory name of version `v` under some prefix. */
  ghost predicate NamedFor(n: string, v: VersionId)
  {
    exists p :: n == SnapshotDirName(p, v)
  }

  /** The sidecar describes the very directory it lies in, and the scan looks there. */
  ghost predicate WellNamed(s: Store, n: string)
  {
    DirInstalled(s, n) ==>
      && NamedFor(n, SidecarOf(s, n).version)
      && FileName(SidecarOf(s, n).extractPath) == n
      && SidecarOf(s, n).status == SidecarStatus.Verified
      && LooksLikeSnapshotDir(n)
  }

  ghost predicate InstalledVersion(s: Store, v: VersionId)
  {
    exists n :: DirInstalled(s, n) && SidecarOf(s, n).version == v
  }

  ghost predicate OneDirEach(s: Store, a: string, b: string)
  {
    DirInstalled(s, a) && DirInstalled(s, b) && SidecarOf(s, a).version == SidecarOf(s, b).version ==> a == b
  }

  /** A PUBLISHED record belongs to an installed version. */
  ghost predicate RecordOk(s: Store, v: VersionId)
  {
    v in s.records ==>
      s.records[v].version == v && (s.records[v].state == WorkState.Published ==> InstalledVersion(s, v))
  }

  ghost predicate StoreInv(w: World, s: Store)
  {
    && (forall n :: DiskInv(w.codec, DiskOf(s, n)))
    && (forall n :: WellNamed(s, n))
    && (forall a, b :: OneDirEach(s, a, b))
    && (forall v :: RecordOk(s, v))
    && (s.latest.Some? ==> DirInstalled(s, s.latest.value))
  }

  // ---- What the scan sees ----

  /** The map holds exactly the sidecars of the installed directories. */
  ghost predicate Shows(s: Store, installed: InstalledMap)
  {
    && (forall n :: DirInstalled(s, n) ==> SidecarOf(s, n).version in installed && installed[SidecarOf(s, n).version] == SidecarOf(s, n))
    && (forall v :: v in installed ==> ShownAt(s, installed, v))
  }

  /** The entry of `v` is the sidecar of the directory it names. */
  ghost predicate ShownAt(s: Store, installed: InstalledMap, v: VersionId)
    requires v in installed
  {
    && DirInstalled(s, FileName(installed[v].extractPath))
    && SidecarOf(s, FileName(installed[v].extractPath)) == installed[v]
    && installed[v].version == v && installed[v].status == SidecarStatus.Verified
  }

  lemma CountsIffInstalled(w: World, s: Store, n: string)
    requires StoreInv(w, s)
    ensures Counts(RawOf(s), n) <==> DirInstalled(s, n)
    ensures DirInstalled(s, n) ==> RawOf(s)[n].sidecar == Some(SidecarOf(s, n))
  {
    assert WellNamed(s, n);
  }

  lemma OneDirInScan(w: World, s: Store)
    requires StoreInv(w, s)
    ensures OneDirPerVersion(RawOf(s))
  {
    var raw := RawOf(s);
    forall a, b | a in raw && b in raw && Counts(raw, a) && Counts(raw, b)
      && raw[a].sidecar.value.version == raw[b].sidecar.value.version
      ensures a == b
    {
      CountsIffInstalled(w, s, a);
      CountsIffInstalled(w, s, b);
      assert OneDirEach(s, a, b);
    }
  }

  /** A scan in any listing order finds exactly the installed snapshots. */
  lemma ScanShows(w: World, s: Store, scan: seq<string>)
    requires StoreInv(w, s) && forall n :: n in s.disks ==> n in scan
    ensures Shows(s, Scanned(scan, RawOf(s)))
  {
    var installed := Scanned(scan, RawOf(s));
    OneDirInScan(w, s);
    forall n | DirInstalled(s, n)
      ensures SidecarOf(s, n).version in installed && installed[SidecarOf(s, n).version] == SidecarOf(s, n)
    {
      CountsIffInstalled(w, s, n);
      ScanFinds(scan, RawOf(s), n);
    }
    forall v | v in installed ensures ShownAt(s, installed, v) {
      var n := ScanFindsOnly(scan, RawOf(s), v);
      CountsIffInstalled(w, s, n);
      assert WellNamed(s, n);
    }
  }

  lemma ShowsVersions(s: Store, installed: InstalledMap, v: VersionId)
    requires Shows(s, installed)
    ensures v in installed <==> InstalledVersion(s, v)
  {
    if v in installed {
      assert ShownAt(s, installed, v);
    }
  }

  // ---- The startup sweep ----

  lemma SweptDisk(s: Store, n: string)
    ensures DiskOf(Sweep(s), n) == Apply(DeletePart, DiskOf(s, n))
  {
  }

  /** Over a good store, inspections that see every archive and extraction mislead no run. */
  lemma SightedMisleadsNone(w: World, s: Store, i: Input)
    requires ValidWorld(w) && StoreInv(w, s)
    requires forall k :: 0 <= k < |i.resources| ==> SeesStaging(i.requests(i.resources[k].version).faults.missed)
    ensures NoneMisled(w, s, i)
  {
    forall k | 0 <= k < |i.resources|
      ensures var u := i.resources[k];
        !Misled(w.codec, i.requests(u.version).faults.missed, DiskOf(s, SnapshotDirName(u.namePrefix, u.version)))
    {
      var u := i.resources[k];
      SightIsNeverMisled(w.codec, i.requests(u.version).faults.missed, DiskOf(s, SnapshotDirName(u.namePrefix, u.version)));
    }
  }

  lemma SweepMisleadsNone(w: World, s: Store, i: Input)
    requires NoneMisled(w, s, i)
    ensures NoneMisled(w, Sweep(s), i)
  {
    forall k | 0 <= k < |i.resources|
      ensures var u := i.resources[k];
        !Misled(w.codec, i.requests(u.version).faults.missed, DiskOf(Sweep(s), SnapshotDirName(u.namePrefix, u.version)))
    {
      var u := i.resources[k];
      SweptDisk(s, SnapshotDirName(u.namePrefix, u.version));
    }
  }

  lemma SweepKeepsInv(w: World, s: Store)
    requires StoreInv(w, s)
    ensures StoreInv(w, Sweep(s))
  {
    var t := Sweep(s);
    forall n ensures DiskInv(w.codec, DiskOf(t, n)) && WellNamed(t, n) {
      SweptDisk(s, n);
      assert WellNamed(s, n);
    }
    forall a, b ensures OneDirEach(t, a, b) {
      SweptDisk(s, a);
      SweptDisk(s, b);
      assert OneDirEach(s, a, b);
    }
    forall v: VersionId ensures RecordOk(t, v) {
      assert RecordOk(s, v);
      if InstalledVersion(s, v) {
        var n :| DirInstalled(s, n) && SidecarOf(s, n).version == v;
        SweptDisk(s, n);
        assert DirInstalled(t, n) && SidecarOf(t, n).version == v;
      }
    }
    if s.latest.Some? {
      SweptDisk(s, s.latest.value);
    }
  }

  // ---- One version's share of an invocation ----

  /** The disk of a version's directory name is a function of that version's own progress. */
  function DiskAt(w: World, r: Run, v: VersionId, p: Progress): Disk
  {
    var ops, d := PlanOf(w, r, v).ops, DiskOf(r.base, DirName(r, v));
    match p
    case Claimed(k) => if k < |ops| then ApplyAll(ops[..k], d) else ApplyAll(ops, d)
    case Reported => ApplyAll(ops, d)
    case _ => d
  }

  /** So is its record. */
  function RecordAt(w: World, r: Run, v: VersionId, p: Progress): Option<Record>
    requires v in r.states
  {
    var unsaved := RecordOf(r.base, v);
    var saved := Written(unsaved, r.states[v], r.input.saves(v, AtReconcile));
    var claimed := Written(saved, ClaimedRecord(r, v), r.input.saves(v, AtClaim));
    match p
    case Unsaved => unsaved
    case Saved => saved
    case Claimed(_) => claimed
    case Reported => Written(claimed, OutcomeFor(w, r, v).work, r.input.saves(v, AtComplete))
  }

  predicate ProgressOk(w: World, r: Run, v: VersionId, p: Progress)
  {
    && v in r.states
    && (p.Claimed? || p.Reported? ==> v in r.eligible)
    && (p.Claimed? ==> p.done <= |PlanOf(w, r, v).ops|)
  }

  /** The startup check passes on what the scan shows of a good store. */
  ghost predicate WellBegun(w: World, i: Input, base: Store, installed: InstalledMap)
  {
    && ValidWorld(w)
    && StoreInv(w, base)
    && ValidInput(w, base, i)
    && Shows(base, installed)
    && LatestConsistent(installed, base.latest)
  }

  /** An invocation that passed its startup check over a good store. */
  ghost predicate RunInv(w: World, r: Run)
  {
    && WellBegun(w, r.input, r.base, r.installed)
    && r.(progress := map[]) == Started(r.input, r.base, r.installed).(progress := map[])
    && r.progress.Keys == r.states.Keys
    && forall v :: v in r.progress ==> ProgressOk(w, r, v, r.progress[v])
  }

  predicate NotEligibleDir(r: Run, n: string)
  {
    forall v :: v in r.eligible ==> n != DirName(r, v)
  }

  ghost predicate DiskFollows(w: World, r: Run, s: Store, v: VersionId)
  {
    v in r.eligible && v in r.progress ==> DiskOf(s, DirName(r, v)) == DiskAt(w, r, v, r.progress[v])
  }

  ghost predicate RecordFollows(w: World, r: Run, s: Store, v: VersionId)
  {
    RecordOf(s, v) == if v in r.states && v in r.progress then RecordAt(w, r, v, r.progress[v]) else RecordOf(r.base, v)
  }

  /** The store is what the progress of each version says, and otherwise as it was. */
  ghost predicate Follows(w: World, r: Run, s: Store)
  {
    && (forall v :: DiskFollows(w, r, s, v))
    && (forall n :: NotEligibleDir(r, n) ==> DiskOf(s, n) == DiskOf(r.base, n))
    && (forall v :: RecordFollows(w, r, s, v))
    && s.latest == r.base.latest
  }

  ghost predicate SystemInv(w: World, s: System)
  {
    ValidWorld(w) && StoreInv(w, s.store)
      && (s.run.Some? ==> RunInv(w, s.run.value) && Follows(w, s.run.value, s.store))
  }

  // ---- What reconciliation hands to the workers ----

  lemma StartedLists(w: World, r: Run)
    requires RunInv(w, r)
    ensures var rs, recovered := Sorted(r.input.resources), RecoveredStates(r.base.records);
      && r.states == SettledStates(rs, r.input.cutoff, r.installed.Keys, recovered, r.input.now)
      && r.eligible == Deciding(rs, r.input.cutoff, r.installed.Keys, recovered, Eligible)
  {
    var t := Started(r.input, r.base, r.installed);
    assert r.(progress := map[]).states == t.(progress := map[]).states;
    assert r.(progress := map[]).eligible == t.(progress := map[]).eligible;
  }

  lemma EligibleOnLists(r: Run, v: VersionId)
    requires Shows(r.base, r.installed) && RecordOk(r.base, v) && v in r.eligible
    requires var rs, recovered := Sorted(r.input.resources), RecoveredStates(r.base.records);
      && r.states == SettledStates(rs, r.input.cutoff, r.installed.Keys, recovered, r.input.now)
      && r.eligible == Deciding(rs, r.input.cutoff, r.installed.Keys, recovered, Eligible)
    ensures v !in r.installed && !InstalledVersion(r.base, v) && Mentions(r.input.resources, v)
    ensures v in r.states && r.states[v].state == Queued && r.states[v].version == v
    ensures RecordOf(r.base, v).Some? ==> r.base.records[v].state != WorkState.Published
  {
    var recovered := RecoveredStates(r.base.records);
    EligibleSettled(r.input.resources, r.input.cutoff, r.installed.Keys, recovered, r.input.now, v);
    ShowsVersions(r.base, r.installed, v);
  }

  /** An eligible version is listed, not installed, and has a QUEUED record that was not PUBLISHED. */
  lemma EligibleFacts(w: World, r: Run, v: VersionId)
    requires RunInv(w, r) && v in r.eligible
    ensures v !in r.installed && !InstalledVersion(r.base, v)
    ensures v in r.states && v in r.progress && r.states[v].state == Queued && r.states[v].version == v
    ensures RecordOf(r.base, v).Some? ==> r.base.records[v].state != WorkState.Published
    ensures Mentions(r.input.resources, v)
  {
    assert RecordOk(r.base, v);
    StartedLists(w, r);
    EligibleOnLists(r, v);
  }

  lemma InputFacts(w: World, s: Store, i: Input, v: VersionId)
    requires ValidInput(w, s, i) && Mentions(i.resources, v)
    ensures i.requests(v).resource.version == v && PlainPrefix(i.requests(v).resource.namePrefix)
    ensures i.requests(v).layout == w.layout && ValidRequest(i.requests(v))
    ensures !Misled(w.codec, i.requests(v).faults.missed, DiskOf(s, SnapshotDirName(i.requests(v).resource.namePrefix, v)))
  {
    var k :| 0 <= k < |i.resources| && i.resources[k].version == v;
    assert NoneMisled(w, s, i);
  }

  lemma EligiblePrefix(w: World, r: Run, v: VersionId)
    requires RunInv(w, r) && v in r.eligible
    ensures r.input.requests(v).resource.version == v && PlainPrefix(r.input.requests(v).resource.namePrefix)
    ensures r.input.requests(v).layout == w.layout && ValidRequest(r.input.requests(v))
    ensures !Misled(w.codec, r.input.requests(v).faults.missed, DiskOf(r.base, DirName(r, v)))
  {
    EligibleFacts(w, r, v);
    InputFacts(w, r.base, r.input, v);
  }

  lemma DirHoldsItsVersion(s: Store, p: string, v: VersionId)
    requires WellNamed(s, SnapshotDirName(p, v)) && DirInstalled(s, SnapshotDirName(p, v))
    ensures SidecarOf(s, SnapshotDirName(p, v)).version == v && InstalledVersion(s, v)
  {
    var n := SnapshotDirName(p, v);
    var u := SidecarOf(s, n).version;
    var q :| n == SnapshotDirName(q, u);
    DirNameInjective(q, u, p, v);
  }

  /** The directory an eligible version will be published under holds no snapshot yet. */
  lemma EligibleNotInstalled(w: World, r: Run, v: VersionId)
    requires RunInv(w, r) && v in r.eligible
    ensures !DirInstalled(r.base, DirName(r, v))
  {
    EligibleFacts(w, r, v);
    if DirInstalled(r.base, DirName(r, v)) {
      DirHoldsItsVersion(r.base, r.input.requests(v).resource.namePrefix, v);
    }
  }

  /** Different eligible versions work under different names. */
  lemma DirNamesDiffer(r: Run, v: VersionId, u: VersionId)
    ensures DirName(r, v) == DirName(r, u) <==> v == u
  {
    if v != u {
      DirNameInjective(r.input.requests(v).resource.namePrefix, v, r.input.requests(u).resource.namePrefix, u);
    }
  }

  // ---- What the worker of one version leaves ----

  predicate EndsWell(w: World, r: Run, v: VersionId, p: Progress)
  {
    && (p.Reported? || (p.Claimed? && p.done >= |PlanOf(w, r, v).ops|))
    && PlanOf(w, r, v).result.Ok?
  }

  /** The sidecar that the worker of `v` writes names `v`, its directory and a verified archive. */
  ghost predicate OwnSidecar(r: Run, v: VersionId, meta: SnapshotMeta)
  {
    && meta.version == v
    && FileName(meta.extractPath) == DirName(r, v)
    && meta.status == SidecarStatus.Verified
  }

  /** Any prefix of a plan leaves a good disk, installed exactly when all of a successful plan is done. */
  lemma PlanPrefixGood(c: Codec, q: Request, d: Disk, k: nat)
    requires RequiredNamesTxt(c.lists) && ValidRequest(q) && DiskInv(c, d) && !Installed(d)
    requires !Misled(c, q.faults.missed, d)
    ensures var plan := RunPlan(c, q, d);
      var end := if k < |plan.ops| then ApplyAll(plan.ops[..k], d) else ApplyAll(plan.ops, d);
      && DiskInv(c, end)
      && (Installed(end) <==> k >= |plan.ops| && plan.result.Ok?)
      && (Installed(end) ==> end.published.value.sidecar == Some(plan.result.value) && MetaMatches(q, plan.result.value))
  {
    var ops := RunPlan(c, q, d).ops;
    RunGood(c, q, d);
    if k < |ops| {
      SafeAtEveryPrefix(c, ops, d, k);
    } else {
      SafeEnd(c, ops, d);
    }
  }

  /** At every step the disk of `v` is good, and installed exactly once its plan has succeeded. */
  lemma DiskAtGood(w: World, r: Run, v: VersionId, p: Progress)
    requires RunInv(w, r) && v in r.eligible
    ensures var d := DiskAt(w, r, v, p);
      && DiskInv(w.codec, d)
      && (Installed(d) <==> EndsWell(w, r, v, p))
      && (Installed(d) ==>
            && d.published.value.sidecar == Some(PlanOf(w, r, v).result.value)
            && OwnSidecar(r, v, d.published.value.sidecar.value))
  {
    var q, d0 := r.input.requests(v), DiskOf(r.base, DirName(r, v));
    EligiblePrefix(w, r, v);
    EligibleNotInstalled(w, r, v);
    PlanPrefixGood(w.codec, q, d0, if p.Claimed? then p.done else |PlanOf(w, r, v).ops|);
    FileNameOfFinalDir(w.layout, q.resource.namePrefix, v);
  }

  // ---- A good base store and good workers make a good store ----

  /** A directory belongs to at most one eligible version; the others are as they were. */
  lemma DirCase(r: Run, n: string) returns (owner: Option<VersionId>)
    ensures match owner case None => NotEligibleDir(r, n) case Some(v) => v in r.eligible && n == DirName(r, v)
  {
    if v :| v in r.eligible && n == DirName(r, v) {
      owner := Some(v);
    } else {
      owner := None;
    }
  }

  /** Where an installed directory comes from: the base store, or the worker that owns it. */
  lemma InstalledCase(w: World, r: Run, s: Store, n: string) returns (owner: Option<VersionId>)
    requires RunInv(w, r) && Follows(w, r, s) && DirInstalled(s, n)
    ensures match owner
      case None => DiskOf(s, n) == DiskOf(r.base, n) && InstalledVersion(r.base, SidecarOf(s, n).version)
      case Some(v) => v in r.eligible && n == DirName(r, v) && SidecarOf(s, n).version == v && !InstalledVersion(r.base, v)
  {
    owner := DirCase(r, n);
    if owner.Some? {
      EligibleFacts(w, r, owner.value);
      assert DiskFollows(w, r, s, owner.value);
      DiskAtGood(w, r, owner.value, r.progress[owner.value]);
    } else {
      assert DirInstalled(r.base, n) && SidecarOf(r.base, n) == SidecarOf(s, n);
    }
  }

  /** What was installed before the invocation stays exactly as it was. */
  lemma BaseStays(w: World, r: Run, s: Store, n: string)
    requires RunInv(w, r) && Follows(w, r, s) && DirInstalled(r.base, n)
    ensures DirInstalled(s, n) && DiskOf(s, n).published == DiskOf(r.base, n).published
  {
    var owner := DirCase(r, n);
    if owner.Some? {
      EligibleNotInstalled(w, r, owner.value);
    }
  }

  lemma FollowsDiskGood(w: World, r: Run, s: Store, n: string)
    requires RunInv(w, r) && Follows(w, r, s)
    ensures DiskInv(w.codec, DiskOf(s, n)) && WellNamed(s, n)
  {
    var owner := DirCase(r, n);
    assert WellNamed(r.base, n);
    if owner.Some? {
      var v := owner.value;
      var prefix := r.input.requests(v).resource.namePrefix;
      EligibleFacts(w, r, v);
      EligiblePrefix(w, r, v);
      assert DiskFollows(w, r, s, v);
      DiskAtGood(w, r, v, r.progress[v]);
      PublishedDirIsScanned(prefix, v);
      assert n == SnapshotDirName(prefix, v);
    }
  }

  lemma FollowsOneDir(w: World, r: Run, s: Store, a: string, b: string)
    requires RunInv(w, r) && Follows(w, r, s)
    ensures OneDirEach(s, a, b)
  {
    if DirInstalled(s, a) && DirInstalled(s, b) && SidecarOf(s, a).version == SidecarOf(s, b).version {
      var x := InstalledCase(w, r, s, a);
      var y := InstalledCase(w, r, s, b);
      assert OneDirEach(r.base, a, b);
    }
  }

  // ---- Records ----

  lemma StateIsSettled(w: World, r: Run, v: VersionId)
    requires RunInv(w, r) && v in r.states
    ensures var rs, recovered := Sorted(r.input.resources), RecoveredStates(r.base.records);
      && (v in recovered || Mentions(rs, v))
      && r.states[v] == Settled(rs, r.input.cutoff, r.installed.Keys, recovered, r.input.now, v)
  {
    StartedLists(w, r);
    RecordedExactly(Sorted(r.input.resources), r.input.cutoff, r.installed.Keys, RecoveredStates(r.base.records), v);
  }

  lemma RecoveredAt(s: Store, v: VersionId)
    requires RecordOk(s, v)
    ensures var recovered := RecoveredStates(s.records);
      v in recovered ==>
        recovered[v].version == v && (recovered[v].state == WorkState.Published ==> InstalledVersion(s, v))
  {
  }

  /** A reconciled record belongs to its version, and is PUBLISHED only when that is installed. */
  lemma StateGood(w: World, r: Run, v: VersionId)
    requires RunInv(w, r) && v in r.states
    ensures r.states[v].version == v
    ensures r.states[v].state == WorkState.Published ==> InstalledVersion(r.base, v)
  {
    var rs, recovered := Sorted(r.input.resources), RecoveredStates(r.base.records);
    assert RecordOk(r.base, v);
    RecoveredAt(r.base, v);
    StateIsSettled(w, r, v);
    SettledVersion(rs, r.input.cutoff, r.installed.Keys, recovered, r.input.now, v);
    if r.states[v].state == WorkState.Published {
      SettledPublished(rs, r.input.cutoff, r.installed.Keys, recovered, r.input.now, v);
      ShowsVersions(r.base, r.installed, v);
    }
  }

  /** A worker's claim and its report are always accepted: the record was QUEUED, then RUNNING. */
  lemma TransitionsNeverFail(w: World, r: Run, v: VersionId, error: string)
    requires RunInv(w, r) && v in r.eligible
    ensures v in r.states && Accepts(r.states[v], WorkOp.Start(r.input.worker, r.input.now))
    ensures ClaimedRecord(r, v).state == Running && ClaimedRecord(r, v).version == v
    ensures Accepts(ClaimedRecord(r, v), WorkOp.Publish(r.input.now)) && Accepts(ClaimedRecord(r, v), WorkOp.Fail(error, r.input.now))
  {
    EligibleFacts(w, r, v);
    ClaimThenFinish(r.states[v], r.input.worker, r.input.now, r.input.now, error);
  }

  /** The record of an outcome is PUBLISHED exactly when the plan succeeded. */
  lemma OutcomeRecord(w: World, r: Run, v: VersionId)
    requires RunInv(w, r) && v in r.eligible
    ensures OutcomeFor(w, r, v).work.version == v
    ensures OutcomeFor(w, r, v).work.state == if PlanOf(w, r, v).result.Ok? then WorkState.Published else WorkState.Failed
  {
    var result := PlanOf(w, r, v).result;
    EligibleFacts(w, r, v);
    ClaimThenFinish(r.states[v], r.input.worker, r.input.now, r.input.now, if result.Ok? then "" else r.input.describe(result.error));
  }

  /** The record is this version's own, and a PUBLISHED one has been earned. */
  ghost predicate EarnedRecord(w: World, r: Run, v: VersionId, p: Progress, published: bool, rec: Option<Record>)
  {
    rec.Some? ==>
      && rec.value.version == v
      && (rec.value.state == WorkState.Published ==> published || (v in r.eligible && EndsWell(w, r, v, p)))
  }

  lemma WrittenEarned(w: World, r: Run, v: VersionId, p: Progress, published: bool, before: Option<Record>,
          rec: Record, save: Save)
    requires EarnedRecord(w, r, v, p, published, before) && EarnedRecord(w, r, v, p, published, Some(rec))
    ensures EarnedRecord(w, r, v, p, published, Written(before, rec, save))
  {
  }

  /** What the three writes of a worker's invocation would store are this version's own records, and earned. */
  ghost predicate WritesEarned(w: World, r: Run, v: VersionId, p: Progress, published: bool)
    requires v in r.states
  {
    && EarnedRecord(w, r, v, p, published, RecordOf(r.base, v))
    && EarnedRecord(w, r, v, p, published, Some(r.states[v]))
    && (p.Claimed? || p.Reported? ==> EarnedRecord(w, r, v, p, published, Some(ClaimedRecord(r, v))))
    && (p.Reported? ==> EarnedRecord(w, r, v, p, published, Some(OutcomeFor(w, r, v).work)))
  }

  lemma BaseRecordEarned(w: World, r: Run, v: VersionId, p: Progress)
    requires RunInv(w, r)
    ensures EarnedRecord(w, r, v, p, InstalledVersion(r.base, v), RecordOf(r.base, v))
  {
    assert RecordOk(r.base, v);
  }

  lemma WorkerRecordsEarned(w: World, r: Run, v: VersionId, p: Progress)
    requires RunInv(w, r) && ProgressOk(w, r, v, p) && (p.Claimed? || p.Reported?)
    ensures EarnedRecord(w, r, v, p, InstalledVersion(r.base, v), Some(ClaimedRecord(r, v)))
    ensures p.Reported? ==> EarnedRecord(w, r, v, p, InstalledVersion(r.base, v), Some(OutcomeFor(w, r, v).work))
  {
    TransitionsNeverFail(w, r, v, "");
    OutcomeRecord(w, r, v);
  }

  lemma AllWritesEarned(w: World, r: Run, v: VersionId, p: Progress)
    requires RunInv(w, r) && ProgressOk(w, r, v, p)
    ensures WritesEarned(w, r, v, p, InstalledVersion(r.base, v))
  {
    BaseRecordEarned(w, r, v, p);
    StateGood(w, r, v);
    if p.Claimed? || p.Reported? {
      WorkerRecordsEarned(w, r, v, p);
    }
  }

  lemma RecordAtEarned(w: World, r: Run, v: VersionId, p: Progress, published: bool)
    requires v in r.states && WritesEarned(w, r, v, p, published)
    ensures EarnedRecord(w, r, v, p, published, RecordAt(w, r, v, p))
  {
    var unsaved := RecordOf(r.base, v);
    var saved := Written(unsaved, r.states[v], r.input.saves(v, AtReconcile));
    var claimed := Written(saved, ClaimedRecord(r, v), r.input.saves(v, AtClaim));
    WrittenEarned(w, r, v, p, published, unsaved, r.states[v], r.input.saves(v, AtReconcile));
    if p.Claimed? || p.Reported? {
      WrittenEarned(w, r, v, p, published, saved, ClaimedRecord(r, v), r.input.saves(v, AtClaim));
    }
    if p.Reported? {
      WrittenEarned(w, r, v, p, published, claimed, OutcomeFor(w, r, v).work, r.input.saves(v, AtComplete));
    }
  }

  lemma RecordAtGood(w: World, r: Run, v: VersionId, p: Progress)
    requires RunInv(w, r) && ProgressOk(w, r, v, p)
    ensures EarnedRecord(w, r, v, p, InstalledVersion(r.base, v), RecordAt(w, r, v, p))
  {
    AllWritesEarned(w, r, v, p);
    RecordAtEarned(w, r, v, p, InstalledVersion(r.base, v));
  }

  lemma FollowsRecordOk(w: World, r: Run, s: Store, v: VersionId)
    requires RunInv(w, r) && Follows(w, r, s)
    ensures RecordOk(s, v)
  {
    assert RecordFollows(w, r, s, v) && RecordOk(r.base, v);
    if v in r.states && v in r.progress {
      RecordAtGood(w, r, v, r.progress[v]);
      if v in r.eligible && EndsWell(w, r, v, r.progress[v]) {
        assert DiskFollows(w, r, s, v);
        DiskAtGood(w, r, v, r.progress[v]);
        assert DirInstalled(s, DirName(r, v));
      }
    }
    if InstalledVersion(r.base, v) {
      var n :| DirInstalled(r.base, n) && SidecarOf(r.base, n).version == v;
      BaseStays(w, r, s, n);
    }
  }

  lemma FollowsStoreInv(w: World, r: Run, s: Store)
    requires RunInv(w, r) && Follows(w, r, s)
    ensures StoreInv(w, s)
  {
    forall n ensures DiskInv(w.codec, DiskOf(s, n)) && WellNamed(s, n) {
      FollowsDiskGood(w, r, s, n);
    }
    forall a, b ensures OneDirEach(s, a, b) {
      FollowsOneDir(w, r, s, a, b);
    }
    forall v: VersionId ensures RecordOk(s, v) {
      FollowsRecordOk(w, r, s, v);
    }
    if s.latest.Some? {
      BaseStays(w, r, s, s.latest.value);
    }
  }

  // ---- Steps ----

  lemma SweepKeepsValid(w: World, s: Store, i: Input)
    requires ValidInput(w, s, i)
    ensures ValidInput(w, Sweep(s), i)
  {
    SweepMisleadsNone(w, s, i);
  }

  lemma StartedRunInv(w: World, base: Store, i: Input, installed: InstalledMap)
    requires ValidWorld(w) && StoreInv(w, base) && ValidInput(w, base, i)
    requires Shows(base, installed) && LatestConsistent(installed, base.latest)
    ensures RunInv(w, Started(i, base, installed))
  {
    var r := Started(i, base, installed);
    forall v | v in r.progress ensures ProgressOk(w, r, v, r.progress[v]) {
    }
  }

  lemma StartedFollows(w: World, base: Store, i: Input, installed: InstalledMap)
    ensures Follows(w, Started(i, base, installed), base)
  {
    var r := Started(i, base, installed);
    forall v ensures DiskFollows(w, r, base, v) && RecordFollows(w, r, base, v) {
    }
  }

  lemma BeginKeepsInv(w: World, s: System, i: Input)
    requires SystemInv(w, s) && Enabled(w, s, Begin(i))
    ensures SystemInv(w, Next(w, s, Begin(i)))
  {
    var base := Sweep(s.store);
    var installed := Scanned(i.scan, RawOf(base));
    SweepKeepsInv(w, s.store);
    SweepKeepsValid(w, s.store, i);
    ScanShows(w, base, i.scan);
    if LatestConsistent(installed, base.latest) {
      StartedRunInv(w, base, i, installed);
      StartedFollows(w, base, i, installed);
    }
  }

  lemma ProgressOkStays(w: World, r: Run, moved: map<VersionId, Progress>, u: VersionId, p: Progress)
    requires ProgressOk(w, r, u, p)
    ensures ProgressOk(w, r.(progress := moved), u, p)
  {
  }

  lemma ProgressKeepsRunInv(w: World, r: Run, v: VersionId, p: Progress)
    requires RunInv(w, r) && v in r.progress && ProgressOk(w, r, v, p)
    ensures RunInv(w, r.(progress := r.progress[v := p]))
  {
    var moved := r.progress[v := p];
    var r' := r.(progress := moved);
    assert r'.(progress := map[]) == r.(progress := map[]) && moved.Keys == r.progress.Keys;
    assert WellBegun(w, r'.input, r'.base, r'.installed);
    forall u | u in moved ensures ProgressOk(w, r', u, moved[u]) {
      ProgressOkStays(w, r, moved, u, if u == v then p else r.progress[u]);
    }
  }

  lemma WithRecordReads(s: Store, v: VersionId, rec: Option<Record>, u: VersionId)
    ensures RecordOf(WithRecord(s, v, rec), u) == if u == v then rec else RecordOf(s, u)
  {
  }

  /** A record write that matches the progress made. */
  lemma SaveFollows(w: World, r: Run, s: Store, v: VersionId, rec: Record, m: Moment, p: Progress)
    requires Follows(w, r, s) && v in r.states && v in r.progress
    requires RecordAt(w, r, v, p) == Written(RecordAt(w, r, v, r.progress[v]), rec, r.input.saves(v, m))
    requires DiskAt(w, r, v, p) == DiskAt(w, r, v, r.progress[v])
    ensures Follows(w, r.(progress := r.progress[v := p]), SaveRecord(r, s, v, rec, m))
  {
    var r', s' := r.(progress := r.progress[v := p]), SaveRecord(r, s, v, rec, m);
    forall u: VersionId ensures DiskFollows(w, r', s', u) && RecordFollows(w, r', s', u) {
      WithRecordReads(s, v, Written(RecordOf(s, v), rec, r.input.saves(v, m)), u);
      assert DiskFollows(w, r, s, u) && RecordFollows(w, r, s, u);
      SameShare(w, r, r', u);
    }
    forall n | NotEligibleDir(r', n) ensures DiskOf(s', n) == DiskOf(r'.base, n) {
      assert NotEligibleDir(r, n);
    }
  }

  /** A version's share depends on its own progress only. */
  lemma SameShare(w: World, r: Run, r': Run, u: VersionId)
    requires r' == r.(progress := r'.progress)
    ensures forall p :: DiskAt(w, r', u, p) == DiskAt(w, r, u, p)
    ensures u in r.states ==> forall p :: RecordAt(w, r', u, p) == RecordAt(w, r, u, p)
  {
  }

  lemma NextDisk(w: World, r: Run, v: VersionId, k: nat)
    requires k < |PlanOf(w, r, v).ops|
    ensures DiskAt(w, r, v, Claimed(k + 1)) == Apply(PlanOf(w, r, v).ops[k], DiskAt(w, r, v, Claimed(k)))
  {
    var ops, d := PlanOf(w, r, v).ops, DiskOf(r.base, DirName(r, v));
    assert ops[..k + 1] == ops[..k] + [ops[k]];
    assert ops[..|ops|] == ops;
    ApplyAllSnoc(ops[..k], ops[k], d);
  }

  lemma OperatedDisk(w: World, r: Run, s: Store, v: VersionId, k: nat, n: string)
    requires k < |PlanOf(w, r, v).ops|
    ensures DiskOf(Operated(w, r, s, v, k), n)
      == if n == DirName(r, v) then Apply(PlanOf(w, r, v).ops[k], DiskOf(s, n)) else DiskOf(s, n)
  {
  }

  lemma OperateFollowsAt(w: World, r: Run, s: Store, v: VersionId, k: nat, u: VersionId)
    requires DiskFollows(w, r, s, v) && DiskFollows(w, r, s, u) && RecordFollows(w, r, s, u)
    requires v in r.eligible && v in r.progress && r.progress[v] == Claimed(k) && k < |PlanOf(w, r, v).ops|
    requires v in r.states ==> RecordAt(w, r, v, Claimed(k + 1)) == RecordAt(w, r, v, Claimed(k))
    ensures var r' := r.(progress := r.progress[v := Claimed(k + 1)]);
      DiskFollows(w, r', Operated(w, r, s, v, k), u) && RecordFollows(w, r', Operated(w, r, s, v, k), u)
  {
    var r' := r.(progress := r.progress[v := Claimed(k + 1)]);
    NextDisk(w, r, v, k);
    SameShare(w, r, r', u);
    DirNamesDiffer(r, v, u);
    OperatedDisk(w, r, s, v, k, DirName(r, u));
  }

  /** A disk operation of one worker moves its own share on and nothing else. */
  lemma OperateFollows(w: World, r: Run, s: Store, v: VersionId, k: nat)
    requires Follows(w, r, s) && v in r.eligible && v in r.progress && r.progress[v] == Claimed(k)
    requires k < |PlanOf(w, r, v).ops|
    ensures Follows(w, r.(progress := r.progress[v := Claimed(k + 1)]), Operated(w, r, s, v, k))
  {
    var r' := r.(progress := r.progress[v := Claimed(k + 1)]);
    assert DiskFollows(w, r, s, v);
    forall u: VersionId ensures DiskFollows(w, r', Operated(w, r, s, v, k), u) && RecordFollows(w, r', Operated(w, r, s, v, k), u) {
      assert DiskFollows(w, r, s, u) && RecordFollows(w, r, s, u);
      OperateFollowsAt(w, r, s, v, k, u);
    }
    forall m | NotEligibleDir(r', m) ensures DiskOf(Operated(w, r, s, v, k), m) == DiskOf(r'.base, m) {
      assert NotEligibleDir(r, m);
      OperatedDisk(w, r, s, v, k, m);
    }
  }

  // ---- The books at the end of an invocation ----

  lemma EligibleDistinct(w: World, r: Run)
    requires RunInv(w, r)
    ensures StrictlyIncreasing(r.eligible)
  {
    StartedLists(w, r);
    SortedDistinct(r.input.resources);
    DecidingOrdered(Sorted(r.input.resources), r.input.cutoff, r.installed.Keys, RecoveredStates(r.base.records), Eligible);
  }

  lemma ResultVersions(w: World, r: Run)
    requires RunInv(w, r)
    ensures forall k :: 0 <= k < |r.eligible| ==> Results(w, r)[k].work.version == r.eligible[k]
    ensures DistinctResults(Results(w, r))
  {
    forall k | 0 <= k < |r.eligible| ensures Results(w, r)[k].work.version == r.eligible[k] {
      OutcomeRecord(w, r, r.eligible[k]);
    }
    EligibleDistinct(w, r);
  }

  predicate Succeeds(w: World, r: Run, v: VersionId)
  {
    v in r.eligible && PlanOf(w, r, v).result.Ok?
  }

  lemma ResultIn(w: World, r: Run, v: VersionId)
    requires RunInv(w, r)
    ensures v in r.eligible ==> HasResult(Books(r.states, r.installed, {}), OutcomeFor(w, r, v), FinalBooks(w, r), v)
    ensures v !in r.eligible ==> SameInstalled(Books(r.states, r.installed, {}), FinalBooks(w, r), v)
  {
    ResultVersions(w, r);
    AbsorbedEntry(Books(r.states, r.installed, {}), Results(w, r), v);
    if v in r.eligible {
      var k :| 0 <= k < |r.eligible| && r.eligible[k] == v;
      assert Results(w, r)[k] == OutcomeFor(w, r, v);
    }
  }

  /** The final `installed` map: what was there, and the sidecars of the versions that succeeded. */
  lemma FinalEntry(w: World, r: Run, v: VersionId)
    requires RunInv(w, r)
    ensures var end := FinalBooks(w, r).installed;
      && (v in end <==> v in r.installed || Succeeds(w, r, v))
      && (v in end ==> end[v] == if Succeeds(w, r, v) then PlanOf(w, r, v).result.value else r.installed[v])
  {
    ResultIn(w, r, v);
  }

  lemma ReportedSidecar(w: World, r: Run, s: Store, v: VersionId)
    requires RunInv(w, r) && Follows(w, r, s) && AllReported(r) && v in r.eligible
    ensures DirInstalled(s, DirName(r, v)) <==> Succeeds(w, r, v)
    ensures Succeeds(w, r, v) ==>
      SidecarOf(s, DirName(r, v)) == PlanOf(w, r, v).result.value && OwnSidecar(r, v, PlanOf(w, r, v).result.value)
  {
    assert At(r, v, Reported) && DiskFollows(w, r, s, v);
    DiskAtGood(w, r, v, Reported);
  }

  lemma FinalBooksHave(w: World, r: Run, s: Store, n: string)
    requires RunInv(w, r) && Follows(w, r, s) && AllReported(r) && DirInstalled(s, n)
    ensures var end := FinalBooks(w, r).installed; SidecarOf(s, n).version in end && end[SidecarOf(s, n).version] == SidecarOf(s, n)
  {
    var v := SidecarOf(s, n).version;
    FinalEntry(w, r, v);
    var owner := InstalledCase(w, r, s, n);
    if owner.Some? {
      ReportedSidecar(w, r, s, v);
    } else {
      assert DirInstalled(r.base, n);
      if v in r.eligible {
        EligibleFacts(w, r, v);
      }
    }
  }

  lemma FinalBooksShownAt(w: World, r: Run, s: Store, v: VersionId)
    requires RunInv(w, r) && Follows(w, r, s) && AllReported(r) && v in FinalBooks(w, r).installed
    ensures ShownAt(s, FinalBooks(w, r).installed, v)
  {
    FinalEntry(w, r, v);
    if Succeeds(w, r, v) {
      ReportedSidecar(w, r, s, v);
    } else {
      assert ShownAt(r.base, r.installed, v);
      BaseStays(w, r, s, FileName(r.installed[v].extractPath));
    }
  }

  /** The map kept in memory ends up as what a fresh scan of the store would find. */
  lemma FinalBooksShow(w: World, r: Run, s: Store)
    requires RunInv(w, r) && Follows(w, r, s) && AllReported(r)
    ensures Shows(s, FinalBooks(w, r).installed)
  {
    var end := FinalBooks(w, r).installed;
    forall n | DirInstalled(s, n) ensures SidecarOf(s, n).version in end && end[SidecarOf(s, n).version] == SidecarOf(s, n) {
      FinalBooksHave(w, r, s, n);
    }
    forall v | v in end ensures ShownAt(s, end, v) {
      FinalBooksShownAt(w, r, s, v);
    }
  }

  lemma AdvancedNamesInstalled(s: Store, installed: InstalledMap)
    requires Shows(s, installed) && (s.latest.Some? ==> DirInstalled(s, s.latest.value))
    ensures var latest := AdvancedLatest(installed, s.latest); latest.Some? ==> DirInstalled(s, latest.value)
  {
    NewestIsNewest(installed);
    if Newest(installed).Some? {
      assert ShownAt(s, installed, Newest(installed).value);
    }
  }

  lemma RelinkKeepsInv(w: World, s: Store, latest: Option<string>)
    requires StoreInv(w, s) && (latest.Some? ==> DirInstalled(s, latest.value))
    ensures StoreInv(w, s.(latest := latest))
  {
    var t := s.(latest := latest);
    forall n ensures DiskInv(w.codec, DiskOf(t, n)) && WellNamed(t, n) {
      assert WellNamed(s, n) && DiskOf(t, n) == DiskOf(s, n);
    }
    forall a, b ensures OneDirEach(t, a, b) {
      assert OneDirEach(s, a, b);
    }
    forall v: VersionId ensures RecordOk(t, v) {
      assert RecordOk(s, v);
      if InstalledVersion(s, v) {
        var n :| DirInstalled(s, n) && SidecarOf(s, n).version == v;
        assert DirInstalled(t, n) && SidecarOf(t, n).version == v;
      }
    }
  }

  // ---- The invariant of the whole system ----

  lemma NothingDoneYet(w: World, r: Run, v: VersionId)
    ensures DiskAt(w, r, v, Claimed(0)) == DiskAt(w, r, v, Saved)
  {
    assert PlanOf(w, r, v).ops[..0] == [];
  }

  /** When a worker claims its version, its plan is the one its disk calls for at that moment. */
  lemma ClaimPlansFromDisk(w: World, s: System, v: VersionId)
    requires SystemInv(w, s) && Enabled(w, s, Claim(v))
    ensures var r := s.run.value;
      PlanOf(w, r, v) == RunPlan(w.codec, r.input.requests(v), DiskOf(s.store, DirName(r, v)))
  {
    assert DiskFollows(w, s.run.value, s.store, v);
  }

  /** One version moves on: the rest of the invariant follows from its own share. */
  lemma MoveKeepsInv(w: World, r: Run, s: Store, v: VersionId, p: Progress)
    requires RunInv(w, r) && v in r.progress && ProgressOk(w, r, v, p)
    requires Follows(w, r.(progress := r.progress[v := p]), s)
    ensures SystemInv(w, System(s, Moved(r, v, p)))
  {
    ProgressKeepsRunInv(w, r, v, p);
    FollowsStoreInv(w, r.(progress := r.progress[v := p]), s);
  }

  lemma SaveKeepsInv(w: World, r: Run, s: Store, v: VersionId)
    requires RunInv(w, r) && Follows(w, r, s) && At(r, v, Unsaved) && v in r.states
    ensures SystemInv(w, System(SaveRecord(r, s, v, r.states[v], AtReconcile), Moved(r, v, Saved)))
  {
    SaveFollows(w, r, s, v, r.states[v], AtReconcile, Saved);
    MoveKeepsInv(w, r, SaveRecord(r, s, v, r.states[v], AtReconcile), v, Saved);
  }

  lemma ClaimKeepsInv(w: World, r: Run, s: Store, v: VersionId)
    requires RunInv(w, r) && Follows(w, r, s) && At(r, v, Saved) && v in r.eligible
    ensures SystemInv(w, System(SaveRecord(r, s, v, ClaimedRecord(r, v), AtClaim), Moved(r, v, Claimed(0))))
  {
    NothingDoneYet(w, r, v);
    SaveFollows(w, r, s, v, ClaimedRecord(r, v), AtClaim, Claimed(0));
    MoveKeepsInv(w, r, SaveRecord(r, s, v, ClaimedRecord(r, v), AtClaim), v, Claimed(0));
  }

  lemma OperateKeepsInv(w: World, r: Run, s: Store, v: VersionId, k: nat)
    requires RunInv(w, r) && Follows(w, r, s) && At(r, v, Claimed(k)) && v in r.eligible && k < |PlanOf(w, r, v).ops|
    ensures SystemInv(w, System(Operated(w, r, s, v, k), Moved(r, v, Claimed(k + 1))))
  {
    OperateFollows(w, r, s, v, k);
    MoveKeepsInv(w, r, Operated(w, r, s, v, k), v, Claimed(k + 1));
  }

  lemma AllDone(w: World, r: Run, v: VersionId)
    ensures DiskAt(w, r, v, Claimed(|PlanOf(w, r, v).ops|)) == DiskAt(w, r, v, Reported)
  {
  }

  lemma ReportKeepsInv(w: World, r: Run, s: Store, v: VersionId)
    requires RunInv(w, r) && Follows(w, r, s) && At(r, v, Claimed(|PlanOf(w, r, v).ops|)) && v in r.eligible
    ensures SystemInv(w, System(SaveRecord(r, s, v, OutcomeFor(w, r, v).work, AtComplete), Moved(r, v, Reported)))
  {
    AllDone(w, r, v);
    SaveFollows(w, r, s, v, OutcomeFor(w, r, v).work, AtComplete, Reported);
    MoveKeepsInv(w, r, SaveRecord(r, s, v, OutcomeFor(w, r, v).work, AtComplete), v, Reported);
  }

  lemma CompleteKeepsInv(w: World, s: System)
    requires SystemInv(w, s) && Enabled(w, s, Step.Complete)
    ensures SystemInv(w, Next(w, s, Step.Complete))
  {
    var r := s.run.value;
    FinalBooksShow(w, r, s.store);
    AdvancedNamesInstalled(s.store, FinalBooks(w, r).installed);
    RelinkKeepsInv(w, s.store, AdvancedLatest(FinalBooks(w, r).installed, s.store.latest));
  }

  lemma OperateStepKeepsInv(w: World, s: System, v: VersionId)
    requires SystemInv(w, s) && Enabled(w, s, Operate(v))
    ensures SystemInv(w, Next(w, s, Operate(v)))
  {
    var r, k := s.run.value, s.run.value.progress[v].done;
    NextOperated(w, s, v, k);
    OperateKeepsInv(w, r, s.store, v, k);
  }

  lemma NextOperated(w: World, s: System, v: VersionId, k: nat)
    requires Enabled(w, s, Operate(v)) && s.run.value.progress[v].done == k
    ensures Next(w, s, Operate(v)) == System(Operated(w, s.run.value, s.store, v, k), Moved(s.run.value, v, Claimed(k + 1)))
  {
  }

  lemma ReportStepKeepsInv(w: World, s: System, v: VersionId)
    requires SystemInv(w, s) && Enabled(w, s, Report(v))
    ensures SystemInv(w, Next(w, s, Report(v)))
  {
    ReportKeepsInv(w, s.run.value, s.store, v);
  }

  /** Every step of any invocation, and every crash, keeps the system invariant. */
  lemma StepKeepsInv(w: World, s: System, step: Step)
    requires SystemInv(w, s) && Enabled(w, s, step)
    ensures SystemInv(w, Next(w, s, step))
  {
    match step
    case Begin(i) => BeginKeepsInv(w, s, i);
    case SaveReconciled(v) => SaveKeepsInv(w, s.run.value, s.store, v);
    case Complete => CompleteKeepsInv(w, s);
    case Claim(v) => ClaimKeepsInv(w, s.run.value, s.store, v);
    case Operate(v) => OperateStepKeepsInv(w, s, v);
    case Report(v) => ReportStepKeepsInv(w, s, v);
    case Crash =>
  }

  lemma {:induction false} TraceKeepsInv(w: World, s: System, steps: seq<Step>)
    requires SystemInv(w, s) && ValidTrace(w, s, steps)
    ensures SystemInv(w, EndOf(w, s, steps))
    decreases |steps|
  {
    if steps != [] {
      StepKeepsInv(w, s, steps[0]);
      TraceKeepsInv(w, Next(w, s, steps[0]), steps[1..]);
    }
  }

  const NEW_SYSTEM := System(EMPTY_STORE, None)

  /** From an empty store, over any number of invocations and crashes. */
  lemma EveryHistoryIsSafe(w: World, steps: seq<Step>)
    requires ValidWorld(w) && ValidTrace(w, NEW_SYSTEM, steps)
    ensures SystemInv(w, EndOf(w, NEW_SYSTEM, steps))
  {
    TraceKeepsInv(w, NEW_SYSTEM, steps);
  }
}
