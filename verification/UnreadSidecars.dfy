/**
 Sidecars that are there but cannot be read: the scan takes their snapshots for absent
 (manifest.rs). Exactly when reconciliation then reports one as diverged or offers it again,
 and what offering an installed version again leads to.
 */
module UnreadSidecars {
  import opened Wrappers
  import opened Domain
  import opened Snapshot
  import opened SnapshotPermits
  import opened WorkStates
  import opened Reconciliation
  import opened ReconciliationProperties
  import opened Rollup
  import opened Systems
  import opened SystemSafety

  /** The raw directory as a scan sees it that cannot read the sidecars in `unread`. */
  function SeenRaw(s: Store, unread: set<string>): map<string, RawEntry>
  {
    map n | n in RawOf(s) :: if n in unread then RawEntry(true, None) else RawOf(s)[n]
  }

  function Seen(s: Store, i: Input, unread: set<string>): InstalledMap
  {
    Scanned(i.scan, SeenRaw(s, unread))
  }

  /** Version `v` is installed, but its sidecar is not read. */
  ghost predicate Hidden(s: Store, unread: set<string>, v: VersionId)
  {
    exists n :: n in unread && DirInstalled(s, n) && SidecarOf(s, n).version == v
  }

  lemma SeenCounts(w: World, s: Store, unread: set<string>, n: string)
    requires StoreInv(w, s)
    ensures Counts(SeenRaw(s, unread), n) <==> DirInstalled(s, n) && n !in unread
    ensures DirInstalled(s, n) && n !in unread ==> SeenRaw(s, unread)[n].sidecar == Some(SidecarOf(s, n))
  {
    CountsIffInstalled(w, s, n);
  }

  lemma SeenOneDir(w: World, s: Store, unread: set<string>)
    requires StoreInv(w, s)
    ensures OneDirPerVersion(SeenRaw(s, unread))
  {
    var raw := SeenRaw(s, unread);
    forall a, b | a in raw && b in raw && Counts(raw, a) && Counts(raw, b)
      && raw[a].sidecar.value.version == raw[b].sidecar.value.version
      ensures a == b
    {
      SeenCounts(w, s, unread, a);
      SeenCounts(w, s, unread, b);
      assert OneDirEach(s, a, b);
    }
  }

  /** Of the installed versions the scan finds exactly those that are not hidden. */
  lemma SeenUnlessHidden(w: World, s: Store, i: Input, unread: set<string>, v: VersionId)
    requires StoreInv(w, s) && (forall n :: n in s.disks ==> n in i.scan)
    ensures v in Seen(s, i, unread) <==> InstalledVersion(s, v) && !Hidden(s, unread, v)
  {
    var raw := SeenRaw(s, unread);
    SeenOneDir(w, s, unread);
    if v in Seen(s, i, unread) {
      var n := ScanFindsOnly(i.scan, raw, v);
      SeenCounts(w, s, unread, n);
      forall m | DirInstalled(s, m) && SidecarOf(s, m).version == v ensures m == n {
        assert OneDirEach(s, m, n);
      }
    } else if InstalledVersion(s, v) {
      var n :| DirInstalled(s, n) && SidecarOf(s, n).version == v;
      SeenCounts(w, s, unread, n);
      if n !in unread {
        ScanFinds(i.scan, raw, n);
      }
    }
  }

  predicate RecordedPublished(s: Store, v: VersionId)
  {
    v in s.records && s.records[v].state == WorkState.Published
  }

  /** What upstream lists and the cutoff admits. */
  predicate Wanted(i: Input, v: VersionId)
  {
    Mentions(i.resources, v) && (i.cutoff.None? || v >= i.cutoff.value)
  }

  /** The versions for which reconciliation decides so. */
  function Decided(s: Store, i: Input, unread: set<string>, d: Decision): seq<VersionId>
  {
    Deciding(Sorted(i.resources), i.cutoff, Seen(s, i, unread).Keys, RecoveredStates(s.records), d)
  }

  lemma DecidedBy(s: Store, i: Input, unread: set<string>, d: Decision, v: VersionId)
    ensures v in Decided(s, i, unread, d) <==>
      Mentions(i.resources, v) && Decide(i.cutoff, Seen(s, i, unread).Keys, RecoveredStates(s.records), v) == d
  {
    DecidingExactly(Sorted(i.resources), i.cutoff, Seen(s, i, unread).Keys, RecoveredStates(s.records), d, v);
    SortedMentions(i.resources, v);
  }

  lemma DecidedExactly(w: World, s: Store, i: Input, unread: set<string>, v: VersionId)
    requires StoreInv(w, s) && (forall n :: n in s.disks ==> n in i.scan)
    ensures v in Decided(s, i, unread, Diverged) <==> Hidden(s, unread, v) && Wanted(i, v) && RecordedPublished(s, v)
    ensures v in Decided(s, i, unread, Eligible) && InstalledVersion(s, v) <==>
      Hidden(s, unread, v) && Wanted(i, v) && !RecordedPublished(s, v)
  {
    SeenUnlessHidden(w, s, i, unread, v);
    assert RecordOk(s, v);
    HiddenIsInstalled(s, unread, v);
    DecidedBy(s, i, unread, Diverged, v);
    DecidedBy(s, i, unread, Eligible, v);
  }

  lemma HiddenIsInstalled(s: Store, unread: set<string>, v: VersionId)
    ensures Hidden(s, unread, v) ==> InstalledVersion(s, v)
  {
  }

  /**
   The exact condition under which nothing is reported as diverged over a reachable store: no
   wanted version that is recorded PUBLISHED has a sidecar that cannot be read.
   */
  lemma NothingDivergesIff(w: World, s: Store, i: Input, unread: set<string>)
    requires StoreInv(w, s) && (forall n :: n in s.disks ==> n in i.scan)
    ensures Decided(s, i, unread, Diverged) == [] <==>
      forall v :: Hidden(s, unread, v) && Wanted(i, v) ==> !RecordedPublished(s, v)
  {
    forall v: VersionId
      ensures v in Decided(s, i, unread, Diverged) <==> Hidden(s, unread, v) && Wanted(i, v) && RecordedPublished(s, v)
    {
      DecidedExactly(w, s, i, unread, v);
    }
    NonEmptyHasMember(Decided(s, i, unread, Diverged));
  }

  /**
   And under which no installed version is offered to the workers again: every wanted version
   with a sidecar that cannot be read is recorded PUBLISHED, so its record was never lost.
   */
  lemma NoneOfferedAgainIff(w: World, s: Store, i: Input, unread: set<string>)
    requires StoreInv(w, s) && (forall n :: n in s.disks ==> n in i.scan)
    ensures (forall v :: v in Decided(s, i, unread, Eligible) ==> !InstalledVersion(s, v)) <==>
      forall v :: Hidden(s, unread, v) && Wanted(i, v) ==> RecordedPublished(s, v)
  {
    forall v: VersionId
      ensures v in Decided(s, i, unread, Eligible) && InstalledVersion(s, v) <==>
        Hidden(s, unread, v) && Wanted(i, v) && !RecordedPublished(s, v)
    {
      DecidedExactly(w, s, i, unread, v);
    }
  }

  // ---- Publishing an installed version again ----

  /** Operations that leave the published directory alone. */
  predicate LeavesFinal(op: Op)
  {
    !op.DeleteFinal? && !op.RenameToFinal? && !op.WriteSidecar?
  }

  lemma {:induction false} FinalStays(ops: seq<Op>, d: Disk)
    requires forall op :: op in ops ==> LeavesFinal(op)
    ensures ApplyAll(ops, d).published == d.published
    decreases |ops|
  {
    if ops != [] {
      assert LeavesFinal(ops[0]);
      FinalStays(ops[1..], Apply(ops[0], d));
    }
  }

  lemma StageLeavesFinal(c: Codec, q: Request, s: Stage, d: Disk)
    requires RunStage(c, q, s, d).Go?
    ensures forall op :: op in RunStage(c, q, s, d).ops ==> LeavesFinal(op)
  {
    if s.Converting? && d.extraction.Some? {
      FillWritesOnly(c, q, d.extraction.value);
    }
  }

  lemma {:induction false} SuccessDropsFinal(c: Codec, q: Request, s: Stage, d: Disk)
    requires PlanFrom(c, q, s, d).result.Ok? && d.published.Some?
    ensures DeleteFinal in PlanFrom(c, q, s, d).ops
    decreases StagesLeft(s)
  {
    match RunStage(c, q, s, d)
    case Finish(ops, _) => assert ops[0] == DeleteFinal;
    case Go(ops, next) =>
      StageLeavesFinal(c, q, s, d);
      FinalStays(ops, d);
      SuccessDropsFinal(c, q, next, ApplyAll(ops, d));
  }

  lemma SuccessfulRunDropsFinal(c: Codec, q: Request, d: Disk)
    requires Installed(d) && RunPlan(c, q, d).result.Ok?
    ensures DeleteFinal in RunPlan(c, q, d).ops
  {
    var d0 := Apply(DeletePart, d);
    var rest := PlanFrom(c, q, Discarding(FindResumePoint(c, q.faults.missed, d0)), d0);
    SuccessDropsFinal(c, q, Discarding(FindResumePoint(c, q.faults.missed, d0)), d0);
    assert RunPlan(c, q, d).ops == [DeletePart] + rest.ops && rest.result.Ok?;
  }

  lemma StoppedAfterDrop(ops: seq<Op>, d: Disk) returns (k: nat)
    requires DeleteFinal in ops
    ensures k <= |ops| && ApplyAll(ops[..k], d).published.None?
  {
    var j :| 0 <= j < |ops| && ops[j] == DeleteFinal;
    k := j + 1;
    assert ops[..k] == ops[..j] + [DeleteFinal];
    ApplyAllSnoc(ops[..j], DeleteFinal, d);
  }

  /**
   A run on an installed version that is to succeed first removes what is installed: stopped
   right then, it leaves no snapshot at all.
   */
  lemma OfferedAgainCanBeLost(c: Codec, q: Request, d: Disk) returns (k: nat)
    requires Installed(d) && RunPlan(c, q, d).result.Ok?
    ensures var ops := RunPlan(c, q, d).ops; k <= |ops| && ApplyAll(ops[..k], d).published.None?
  {
    SuccessfulRunDropsFinal(c, q, d);
    k := StoppedAfterDrop(RunPlan(c, q, d).ops, d);
  }
}
