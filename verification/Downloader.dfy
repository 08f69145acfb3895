/**
 The serial beginning and end of an invocation as they run (pipeline.rs): sweep, scan, check,
 reconcile; and, once the workers are done, books, `latest` and manifest.
 */
module Downloaders {
  import opened Wrappers
  import opened Domain
  import opened Snapshot
  import opened Reconciliation
  import opened Rollup
  import opened Pipeline
  import opened Systems

  lemma RollupLatest(m: ManifestFile, installed: InstalledMap, failed: set<VersionId>)
    requires IsRollup(m, installed, failed)
    ensures m.latest == Newest(installed)
  {
    NewestIsNewest(installed);
    NewestIsUnique(installed, m.latest, Newest(installed));
  }

  /** The data directory, updated in place; `manifest` is the rollup file, which nothing ever reads back. */
  class Downloader {
    var store: Store
    var manifest: Option<ManifestFile>

    constructor (s: Store)
      ensures store == s && manifest == None
    {
      store, manifest := s, None;
    }

    /** Removes every partial download. */
    method CleanStaging()
      modifies this`store
      ensures store == Sweep(old(store))
    {
      var disks := store.disks;
      var todo := disks.Keys;
      while todo != {}
        invariant todo <= disks.Keys == store.disks.Keys
        invariant forall n :: n in disks ==> disks[n] == if n in todo then store.disks[n] else Apply(DeletePart, store.disks[n])
      {
        var n :| n in todo;
        disks := disks[n := disks[n].(part := false)];
        todo := todo - {n};
      }
      store := store.(disks := disks);
    }

    /** Everything up to the concurrent phase; None when the startup check rejects. */
    method Start(i: Input) returns (run: Option<Run>)
      modifies this
      ensures System(store, run) == Begun(old(store), i)
      ensures manifest.Some? && IsRollup(manifest.value, Scanned(i.scan, RawOf(store)), {})
    {
      CleanStaging();
      var installed := ScanSidecars(i.scan, RawOf(store));
      var m := RebuildManifest(installed, {}, i.now);
      manifest := Some(m);
      RollupLatest(m, installed, {});
      var check := VerifyLatestConsistency(store.latest, m, installed);
      if check.Err? {
        return None;
      }
      var o := Reconcile(i.resources, i.cutoff, installed, store.records, i.now);
      run := Some(Run(i, store, installed, o.states, o.eligible, map v | v in o.states :: Unsaved));
    }

    /** Everything after the concurrent phase, given its results in the order they were drained. */
    method Finish(w: World, r: Run, results: seq<ProcessOutcome>)
      requires multiset(results) == multiset(Results(w, r)) && DistinctResults(results)
      modifies this
      ensures store == Ended(w, r, old(store))
      ensures manifest.Some? && IsRollup(manifest.value, FinalBooks(w, r).installed, FinalBooks(w, r).failed)
    {
      var books := DrainResults(r.states, r.installed, results);
      ArrivalOrderIsIrrelevant(Books(r.states, r.installed, {}), results, Results(w, r));
      var latest := AdvanceLatestIfNeeded(store.latest, books.installed);
      NewestIsNewest(books.installed);
      store := store.(latest := latest);
      var m := RebuildManifest(books.installed, books.failed, r.input.now);
      manifest := Some(m);
    }
  }
}
