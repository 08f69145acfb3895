/**
 How the startup check comes to reject for good: histories from a new system that end in a
 store no later invocation accepts (pipeline.rs:277 against snapshot.rs:70).
 */
module Rejections {
  import opened Wrappers
  import opened Domain
  import opened Paths
  import opened Archive
  import opened Snapshot
  import opened SnapshotSafety
  import opened SnapshotRecovery
  import opened Reconciliation
  import opened ReconciliationProperties
  import opened SnapshotProcess
  import opened Systems
  import opened SystemSafety
  import opened SystemHistories
  import opened WholeRun

  // ---- Traces ----

  lemma TraceCons(w: World, s: System, step: Step, rest: seq<Step>)
    requires Enabled(w, s, step) && ValidTrace(w, Next(w, s, step), rest)
    ensures ValidTrace(w, s, [step] + rest) && EndOf(w, s, [step] + rest) == EndOf(w, Next(w, s, step), rest)
  {
    var steps := [step] + rest;
    assert steps[0] == step && steps[1..] == rest;
  }

  lemma TraceHead(w: World, s: System, a: seq<Step>) returns (t: System)
    requires a != [] && ValidTrace(w, s, a)
    ensures Enabled(w, s, a[0]) && t == Next(w, s, a[0])
    ensures ValidTrace(w, t, a[1..]) && EndOf(w, s, a) == EndOf(w, t, a[1..])
  {
    t := Next(w, s, a[0]);
  }

  lemma {:induction false} TraceConcat(w: World, s: System, a: seq<Step>, b: seq<Step>, end: System)
    requires ValidTrace(w, s, a) && end == EndOf(w, s, a) && ValidTrace(w, end, b)
    ensures ValidTrace(w, s, a + b) && EndOf(w, s, a + b) == EndOf(w, end, b)
    decreases |a|
  {
    if a == [] {
      assert a + b == b;
    } else {
      ConcatHead(a, b);
      var t := TraceHead(w, s, a);
      TraceConcat(w, t, a[1..], b, end);
      TraceCons(w, s, a[0], a[1..] + b);
    }
  }

  lemma ConcatHead(a: seq<Step>, b: seq<Step>)
    requires a != []
    ensures a + b == [a[0]] + (a[1..] + b)
  {
  }

  lemma OneStep(w: World, s: System, step: Step)
    requires Enabled(w, s, step)
    ensures ValidTrace(w, s, [step]) && EndOf(w, s, [step]) == Next(w, s, step)
  {
    assert [step][1..] == [];
  }

  lemma {:induction false} ListVersions(vs: set<VersionId>) returns (list: seq<VersionId>)
    ensures forall v :: v in vs ==> v in list
  {
    if vs == {} {
      list := [];
    } else {
      var v :| v in vs;
      var rest := ListVersions(vs - {v});
      list := [v] + rest;
    }
  }

  // ---- Crashing at the end of an invocation ----

  lemma CompletableIsReported(w: World, t: System)
    requires Enabled(w, t, Step.Complete)
    ensures t.run.Some? && AllReported(t.run.value)
  {
  }

  lemma PublishedWhenReported(w: World, r: Run, q: Run, v: VersionId)
    requires q == r.(progress := q.progress) && AllReported(q)
    requires Succeeds(w, r, v) && forall u :: u in r.installed ==> u < v
    ensures PublishedNewer(w, q)
  {
    assert PlanOf(w, q, v) == PlanOf(w, r, v);
    assert At(q, v, Reported) && EndsWell(w, q, v, q.progress[v]);
  }

  lemma CrashRejects(w: World, t: System)
    requires SystemInv(w, t) && t.run.Some? && PublishedNewer(w, t.run.value)
    ensures Enabled(w, t, Crash) && Next(w, t, Crash).run.None? && !LatestIsNewest(Next(w, t, Crash).store)
  {
    RejectionNeedsInterruption(w, t, Crash);
  }

  /** From inside an invocation that will publish something newer than all before it. */
  lemma RejectionFromInside(w: World, s: System, v: VersionId) returns (inner: seq<Step>)
    requires SystemInv(w, s) && s.run.Some?
    requires Succeeds(w, s.run.value, v) && forall u :: u in s.run.value.installed ==> u < v
    ensures Finishes(w, s, inner)
    ensures var t := EndOf(w, s, inner);
      Enabled(w, t, Crash) && Next(w, t, Crash).run.None? && !LatestIsNewest(Next(w, t, Crash).store)
  {
    var vs := ListVersions(s.run.value.progress.Keys);
    inner := InvocationCanFinish(w, s, vs);
    StaysInside(w, s, inner);
    TraceKeepsInv(w, s, inner);
    CompletableIsReported(w, EndOf(w, s, inner));
    PublishedWhenReported(w, s.run.value, EndOf(w, s, inner).run.value, v);
    CrashRejects(w, EndOf(w, s, inner));
  }

  // ---- From a new system ----

  /** The version is listed at or above the cutoff, served, and its archive is processable. */
  ghost predicate WillPublish(w: World, i: Input, v: VersionId)
  {
    && Mentions(i.resources, v) && (i.cutoff.None? || v >= i.cutoff.value)
    && i.requests(v).reply.Complete?
    && Favourable(w.codec, i.requests(v), i.requests(v).reply.zip)
  }

  lemma NothingInstalledYet(w: World, i: Input)
    requires ValidWorld(w) && ValidInput(w, EMPTY_STORE, i)
    ensures var s := Next(w, NEW_SYSTEM, Begin(i));
      SystemInv(w, s) && s.run.Some? && s.run.value == Started(i, EMPTY_STORE, map[])
  {
    var base := Sweep(EMPTY_STORE);
    assert base == EMPTY_STORE;
    BeginAcceptsIff(w, NEW_SYSTEM, i);
    BeginKeepsInv(w, NEW_SYSTEM, i);
    ScanShows(w, base, i.scan);
    var installed := Rollup.Scanned(i.scan, RawOf(base));
    forall v: VersionId ensures v !in installed {
      ShowsVersions(base, installed, v);
    }
    assert installed == map[];
  }

  lemma ListedIsEligible(i: Input, v: VersionId)
    requires Mentions(i.resources, v) && (i.cutoff.None? || v >= i.cutoff.value)
    ensures v in Started(i, EMPTY_STORE, map[]).eligible
  {
    var none: Rollup.InstalledMap := map[];
    var recovered := RecoveredStates(EMPTY_STORE.records);
    assert v !in recovered;
    DecidingExactly(Sorted(i.resources), i.cutoff, none.Keys, recovered, Eligible, v);
    SortedMentions(i.resources, v);
  }

  lemma FirstPlanSucceeds(c: Codec, q: Request)
    requires RequiredNamesTxt(c.lists) && ValidRequest(q) && q.reply.Complete? && Favourable(c, q, q.reply.zip)
    ensures RunPlan(c, q, EMPTY_DISK).result.Ok?
  {
    RunGood(c, q, EMPTY_DISK);
  }

  lemma FirstRunSucceeds(w: World, i: Input, v: VersionId)
    requires ValidWorld(w) && ValidInput(w, EMPTY_STORE, i) && WillPublish(w, i, v)
    ensures Succeeds(w, Started(i, EMPTY_STORE, map[]), v)
  {
    ListedIsEligible(i, v);
    FirstPlanSucceeds(w.codec, i.requests(v));
    assert DiskOf(EMPTY_STORE, DirName(Started(i, EMPTY_STORE, map[]), v)) == EMPTY_DISK;
  }

  /**
   The startup check is not self-healing: from a new system, any first invocation that lists
   a version whose archive is served and processable can crash in a state that the next
   startup check rejects.
   */
  lemma RejectionIsReachable(w: World, i: Input, v: VersionId) returns (inner: seq<Step>)
    requires ValidWorld(w) && ValidInput(w, EMPTY_STORE, i) && WillPublish(w, i, v)
    ensures forall k :: 0 <= k < |inner| ==> Inside(inner[k])
    ensures ValidTrace(w, NEW_SYSTEM, [Begin(i)] + inner + [Crash])
    ensures var end := EndOf(w, NEW_SYSTEM, [Begin(i)] + inner + [Crash]); end.run.None? && !LatestIsNewest(end.store)
  {
    var s := Next(w, NEW_SYSTEM, Begin(i));
    NothingInstalledYet(w, i);
    FirstRunSucceeds(w, i, v);
    inner := RejectionFromInside(w, s, v);
    OneStep(w, NEW_SYSTEM, Begin(i));
    TraceConcat(w, NEW_SYSTEM, [Begin(i)], inner, s);
    OneStep(w, EndOf(w, s, inner), Crash);
    TraceConcat(w, NEW_SYSTEM, [Begin(i)] + inner, [Crash], EndOf(w, s, inner));
  }

  // ---- One concrete input ----

  lemma {:induction false} ListingExists(dir: Files)
    ensures exists names :: IsListing(names, dir)
    decreases |dir|
  {
    if dir == map[] {
      assert IsListing([], dir);
    } else {
      var n :| n in dir;
      var rest := dir - {n};
      assert rest.Keys == dir.Keys - {n};
      ListingExists(rest);
      var names :| IsListing(names, rest);
      assert IsListing(names + [n], dir);
    }
  }

  ghost function SomeListing(dir: Files): (names: seq<string>)
    ensures IsListing(names, dir)
  {
    ListingExists(dir);
    var names :| IsListing(names, dir);
    names
  }

  /** A world with the downloader's own member lists. */
  ghost function ExampleWorld(): World
  {
    World(Codec(GTFS_MEMBERS, x => Some(x), _ => "", _ => 0), RawLayout("raw"))
  }

  ghost function ExampleResource(): UpstreamResource
  {
    UpstreamResource(20260805, "gtfs", "url", None, None)
  }

  /** One listed version, served as an archive of the five required members. */
  ghost function ExampleInput(): Input
  {
    var zip := Readable(PlainArchive(GTFS_MEMBERS.required));
    var q := Request(ExampleResource(), RawLayout("raw"), 0, Reply.Complete(zip, None, None), SomeListing, NO_FAULTS);
    Input([ExampleResource()], None, 0, None, _ => q, (_, _) => Stored, _ => "", [])
  }

  lemma ExampleIsValid()
    ensures ValidWorld(ExampleWorld()) && ValidInput(ExampleWorld(), EMPTY_STORE, ExampleInput())
    ensures WillPublish(ExampleWorld(), ExampleInput(), 20260805)
  {
    var w, i := ExampleWorld(), ExampleInput();
    RequiredAreTxt();
    PlainArchiveAccepted();
    assert i.resources[0].version == 20260805;
  }

  /** A concrete history after which the downloader never runs again. */
  lemma ConcreteRejection(later: seq<Step>) returns (inner: seq<Step>)
    ensures var w, i := ExampleWorld(), ExampleInput();
      && ValidTrace(w, NEW_SYSTEM, [Begin(i)] + inner + [Crash])
      && var end := EndOf(w, NEW_SYSTEM, [Begin(i)] + inner + [Crash]);
         ValidTrace(w, end, later) ==>
           EndOf(w, end, later).run.None? && SameButSwept(end.store, EndOf(w, end, later).store)
  {
    var w, i := ExampleWorld(), ExampleInput();
    ExampleIsValid();
    inner := RejectionIsReachable(w, i, 20260805);
    var end := EndOf(w, NEW_SYSTEM, [Begin(i)] + inner + [Crash]);
    EveryHistoryIsSafe(w, [Begin(i)] + inner + [Crash]);
    if ValidTrace(w, end, later) {
      RejectionIsPermanent(w, end, later);
    }
  }
}
