/**
 The whole downloader over any number of invocations (pipeline.rs, snapshot.rs): the durable
 store, at most one invocation in flight, its workers interleaved in any way at the
 granularity of single disk operations and record writes, and a crash possible anywhere.
 */
module Systems {
  import opened Wrappers
  import opened Domain
  import opened Paths
  import opened Manifest
  import opened Snapshot
  import opened WorkStates
  import opened Reconciliation
  import opened Rollup
  import opened Pipeline
  import opened SnapshotProcess

  /** What never changes: conversion and hashing, and where things are kept. */
  datatype World = World(codec: Codec, layout: RawLayout)

  // ---- The durable store ----

  /** Everything on disk: the artifacts of each directory name, the control-plane records, `latest`. */
  datatype Store = Store(disks: map<string, Disk>, records: States, latest: Option<string>)

  const EMPTY_STORE := Store(map[], map[], None)

  function DiskOf(s: Store, n: string): Disk
  {
    if n in s.disks then s.disks[n] else EMPTY_DISK
  }

  predicate DirInstalled(s: Store, n: string)
  {
    Installed(DiskOf(s, n))
  }

  function SidecarOf(s: Store, n: string): SnapshotMeta
    requires DirInstalled(s, n)
  {
    DiskOf(s, n).published.value.sidecar.value
  }

  function RecordOf(s: Store, v: VersionId): Option<Record>
  {
    Lookup(s.records, v)
  }

  /** The entries directly under the raw directory, as the sidecar scan sees them. */
  function RawOf(s: Store): map<string, RawEntry>
  {
    map n | n in s.disks && s.disks[n].published.Some? :: RawEntry(true, s.disks[n].published.value.sidecar)
  }

  // ---- One invocation ----

  datatype Moment = AtReconcile | AtClaim | AtComplete

  /** Everything an invocation is given from outside; `scan` is the order in which directories are listed. */
  datatype Input = Input(
    resources: seq<UpstreamResource>,
    cutoff: Option<VersionId>,
    now: nat,
    worker: Option<string>,
    requests: VersionId -> Request,
    saves: (VersionId, Moment) -> Save,
    describe: PipelineError -> string,
    scan: seq<string>)

  /** Names that the sidecar scan recognises and that stay inside the raw directory. */
  predicate PlainPrefix(prefix: string)
  {
    !StartsWithDot(prefix) && '/' !in prefix
  }

  /** No listed version's run will be misled by what its inspection misses. */
  predicate NoneMisled(w: World, store: Store, i: Input)
  {
    forall k :: 0 <= k < |i.resources| ==>
      var u := i.resources[k];
      !Misled(w.codec, i.requests(u.version).faults.missed, DiskOf(store, SnapshotDirName(u.namePrefix, u.version)))
  }

  ghost predicate ValidInput(w: World, store: Store, i: Input)
  {
    && DistinctVersions(i.resources)
    && (forall k :: 0 <= k < |i.resources| ==>
          && PlainPrefix(i.resources[k].namePrefix)
          && i.requests(i.resources[k].version).resource == i.resources[k])
    && (forall v: VersionId :: i.requests(v).layout == w.layout && ValidRequest(i.requests(v)))
    && (forall n :: n in store.disks ==> n in i.scan)
    && NoneMisled(w, store, i)
  }

  /** How far an invocation is with one version; `done` counts the disk operations of its plan. */
  datatype Progress = Unsaved | Saved | Claimed(done: nat) | Reported

  /** An invocation after its startup check: `base` is the store it started from, swept of partial downloads. */
  datatype Run = Run(
    input: Input,
    base: Store,
    installed: InstalledMap,
    states: States,
    eligible: seq<VersionId>,
    progress: map<VersionId, Progress>)

  datatype System = System(store: Store, run: Option<Run>)

  function DirName(r: Run, v: VersionId): string
  {
    SnapshotDirName(r.input.requests(v).resource.namePrefix, v)
  }

  /** What the worker of `v` does, decided from the disk alone. */
  function PlanOf(w: World, r: Run, v: VersionId): Plan
  {
    RunPlan(w.codec, r.input.requests(v), DiskOf(r.base, DirName(r, v)))
  }

  function ClaimedRecord(r: Run, v: VersionId): Record
  {
    After(if v in r.states then r.states[v] else NewRecord(v, ""), WorkOp.Start(r.input.worker, r.input.now))
  }

  /** What the worker of `v` hands back. */
  function OutcomeFor(w: World, r: Run, v: VersionId): ProcessOutcome
  {
    Completed(ClaimedRecord(r, v), PlanOf(w, r, v).result, r.input.now, r.input.describe)
  }

  // ---- Steps ----

  datatype Step =
    | Begin(input: Input)
    | SaveReconciled(v: VersionId)
    | Claim(v: VersionId)
    | Operate(v: VersionId)
    | Report(v: VersionId)
    | Complete
    | Crash

  function Sweep(s: Store): Store
  {
    s.(disks := map n | n in s.disks :: Apply(DeletePart, s.disks[n]))
  }

  /** The newest verified version of a map of sidecars, if there is one. */
  ghost function Newest(installed: InstalledMap): Option<VersionId>
  {
    if v: VersionId :| IsNewestVerified(installed, Some(v)) then Some(v) else None
  }

  lemma NewestIsNewest(installed: InstalledMap)
    ensures IsNewestVerified(installed, Newest(installed))
  {
    var latest := NewestExists(installed);
    if latest.Some? {
      assert IsNewestVerified(installed, Some(latest.value));
    }
  }

  /** The startup check: `latest` names the directory of the newest verified version. */
  ghost predicate LatestConsistent(installed: InstalledMap, latest: Option<string>)
  {
    LatestNames(installed, Newest(installed), latest)
  }

  ghost function AdvancedLatest(installed: InstalledMap, latest: Option<string>): Option<string>
  {
    if Newest(installed).Some? && Newest(installed).value in installed
    then Some(FileName(installed[Newest(installed).value].extractPath))
    else latest
  }

  /** A new invocation past its startup check and reconciliation. */
  function Started(i: Input, base: Store, installed: InstalledMap): Run
  {
    var rs, recovered := Sorted(i.resources), RecoveredStates(base.records);
    var states := SettledStates(rs, i.cutoff, installed.Keys, recovered, i.now);
    Run(i, base, installed, states, Deciding(rs, i.cutoff, installed.Keys, recovered, Eligible), map v | v in states :: Unsaved)
  }

  function WithRecord(s: Store, v: VersionId, record: Option<Record>): Store
  {
    s.(records := Put(s.records, v, record))
  }

  function SaveRecord(r: Run, s: Store, v: VersionId, record: Record, m: Moment): Store
  {
    WithRecord(s, v, Written(RecordOf(s, v), record, r.input.saves(v, m)))
  }

  function Moved(r: Run, v: VersionId, p: Progress): Option<Run>
  {
    Some(r.(progress := r.progress[v := p]))
  }

  /** The store after disk operation `k` of the worker of `v`. */
  function Operated(w: World, r: Run, s: Store, v: VersionId, k: nat): Store
    requires k < |PlanOf(w, r, v).ops|
  {
    var n := DirName(r, v);
    s.(disks := s.disks[n := Apply(PlanOf(w, r, v).ops[k], DiskOf(s, n))])
  }

  predicate At(r: Run, v: VersionId, p: Progress)
  {
    v in r.progress && r.progress[v] == p
  }

  /** The results of the eligible versions, one after the other. */
  function Results(w: World, r: Run): seq<ProcessOutcome>
  {
    seq(|r.eligible|, k requires 0 <= k < |r.eligible| => OutcomeFor(w, r, r.eligible[k]))
  }

  function FinalBooks(w: World, r: Run): Books
  {
    AbsorbedAll(Books(r.states, r.installed, {}), Results(w, r))
  }

  predicate AllReported(r: Run)
  {
    forall v :: v in r.eligible ==> At(r, v, Reported)
  }

  predicate AllSaved(r: Run)
  {
    forall v :: v in r.progress ==> r.progress[v] != Unsaved
  }

  ghost predicate Enabled(w: World, s: System, step: Step)
  {
    match step
    case Begin(i) => s.run.None? && ValidInput(w, s.store, i)
    case SaveReconciled(v) => s.run.Some? && v in s.run.value.states && At(s.run.value, v, Unsaved)
    case Claim(v) => s.run.Some? && v in s.run.value.eligible && At(s.run.value, v, Saved) && AllSaved(s.run.value)
    case Operate(v) =>
      && s.run.Some? && v in s.run.value.eligible && v in s.run.value.progress && s.run.value.progress[v].Claimed?
      && s.run.value.progress[v].done < |PlanOf(w, s.run.value, v).ops|
    case Report(v) =>
      && s.run.Some? && v in s.run.value.eligible
      && At(s.run.value, v, Claimed(|PlanOf(w, s.run.value, v).ops|))
    case Complete => s.run.Some? && AllSaved(s.run.value) && AllReported(s.run.value)
    case Crash => s.run.Some?
  }

  /** Sweep, scan, startup check and reconciliation; a rejected invocation ends at once. */
  ghost function Begun(store: Store, i: Input): System
  {
    var base := Sweep(store);
    var installed := Scanned(i.scan, RawOf(base));
    System(base, if LatestConsistent(installed, base.latest) then Some(Started(i, base, installed)) else None)
  }

  /** The store once `latest` has been brought up to date with the final books. */
  ghost function Ended(w: World, r: Run, store: Store): Store
  {
    store.(latest := AdvancedLatest(FinalBooks(w, r).installed, store.latest))
  }

  ghost function Next(w: World, s: System, step: Step): System
    requires Enabled(w, s, step)
  {
    match step
    case Begin(i) => Begun(s.store, i)
    case SaveReconciled(v) =>
      var r := s.run.value;
      System(SaveRecord(r, s.store, v, r.states[v], AtReconcile), Moved(r, v, Saved))
    case Claim(v) =>
      var r := s.run.value;
      System(SaveRecord(r, s.store, v, ClaimedRecord(r, v), AtClaim), Moved(r, v, Claimed(0)))
    case Operate(v) =>
      var r := s.run.value;
      System(Operated(w, r, s.store, v, r.progress[v].done), Moved(r, v, Claimed(r.progress[v].done + 1)))
    case Report(v) =>
      var r := s.run.value;
      System(SaveRecord(r, s.store, v, OutcomeFor(w, r, v).work, AtComplete), Moved(r, v, Reported))
    case Complete => System(Ended(w, s.run.value, s.store), None)
    case Crash => System(s.store, None)
  }

  ghost predicate ValidTrace(w: World, s: System, steps: seq<Step>)
    decreases |steps|
  {
    steps == [] || (Enabled(w, s, steps[0]) && ValidTrace(w, Next(w, s, steps[0]), steps[1..]))
  }

  ghost function EndOf(w: World, s: System, steps: seq<Step>): System
    requires ValidTrace(w, s, steps)
    decreases |steps|
  {
    if steps == [] then s else EndOf(w, Next(w, s, steps[0]), steps[1..])
  }
}
