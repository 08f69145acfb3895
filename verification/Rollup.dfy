/** Finding the installed snapshots and rolling them up into a manifest (manifest.rs). */
module Rollup {
  import opened Wrappers
  import opened Domain
  import opened Paths
  import opened Manifest

  type InstalledMap = map<VersionId, SnapshotMeta>

  // ---- Scanning the sidecars ----

  /** An entry directly under the raw directory; an unreadable or corrupt sidecar counts as none. */
  datatype RawEntry = RawEntry(isDir: bool, sidecar: Option<SnapshotMeta>)

  /** A snapshot directory with a valid sidecar. */
  predicate Counts(raw: map<string, RawEntry>, name: string)
  {
    name in raw && raw[name].isDir && LooksLikeSnapshotDir(name) && raw[name].sidecar.Some?
  }

  /** The scan in listing order: a later directory of the same version replaces an earlier one. */
  function Scanned(names: seq<string>, raw: map<string, RawEntry>): InstalledMap
  {
    if names == [] then map[]
    else
      var found := Scanned(names[..|names| - 1], raw);
      var name := names[|names| - 1];
      if Counts(raw, name) then found[raw[name].sidecar.value.version := raw[name].sidecar.value] else found
  }

  method ScanSidecars(names: seq<string>, raw: map<string, RawEntry>) returns (found: InstalledMap)
    ensures found == Scanned(names, raw)
  {
    found := map[];
    for i := 0 to |names|
      invariant found == Scanned(names[..i], raw)
    {
      assert names[..i + 1][..i] == names[..i];
      var name := names[i];
      if name !in raw || !raw[name].isDir || !LooksLikeSnapshotDir(name) {
        continue;
      }
      match raw[name].sidecar {
        case Some(meta) => found := found[meta.version := meta];
        case None =>
      }
    }
    assert names[..|names|] == names;
  }

  /** No two snapshot directories carry the same version. */
  predicate OneDirPerVersion(raw: map<string, RawEntry>)
  {
    forall a, b :: a in raw && b in raw && Counts(raw, a) && Counts(raw, b) ==>
      raw[a].sidecar.value.version == raw[b].sidecar.value.version ==> a == b
  }

  lemma {:induction false} ScanFinds(names: seq<string>, raw: map<string, RawEntry>, n: string)
    requires OneDirPerVersion(raw) && n in names && Counts(raw, n)
    ensures var meta := raw[n].sidecar.value; meta.version in Scanned(names, raw) && Scanned(names, raw)[meta.version] == meta
  {
    var init, last := names[..|names| - 1], names[|names| - 1];
    assert names == init + [last];
    if n != last {
      ScanFinds(init, raw, n);
    }
  }

  lemma {:induction false} ScanFindsOnly(names: seq<string>, raw: map<string, RawEntry>, v: VersionId)
    returns (n: string)
    requires v in Scanned(names, raw)
    ensures n in names && Counts(raw, n) && raw[n].sidecar.value == Scanned(names, raw)[v] && Scanned(names, raw)[v].version == v
  {
    var init, last := names[..|names| - 1], names[|names| - 1];
    if Counts(raw, last) && raw[last].sidecar.value.version == v {
      n := last;
    } else {
      n := ScanFindsOnly(init, raw, v);
    }
  }

  /** While every version has one directory, the order in which the directories are listed does not matter. */
  lemma ScanIgnoresOrder(a: seq<string>, b: seq<string>, raw: map<string, RawEntry>)
    requires OneDirPerVersion(raw) && forall n :: n in a <==> n in b
    ensures Scanned(a, raw) == Scanned(b, raw)
  {
    forall v | v in Scanned(a, raw) ensures v in Scanned(b, raw) && Scanned(a, raw)[v] == Scanned(b, raw)[v] {
      var n := ScanFindsOnly(a, raw, v);
      ScanFinds(b, raw, n);
    }
    forall v | v in Scanned(b, raw) ensures v in Scanned(a, raw) {
      var n := ScanFindsOnly(b, raw, v);
      ScanFinds(a, raw, n);
    }
  }

  // ---- The newest verified version ----

  /** `latest` is the greatest version with a verified sidecar, or None when there is none. */
  predicate IsNewestVerified(installed: InstalledMap, latest: Option<VersionId>)
  {
    match latest
    case None => forall v :: v in installed ==> installed[v].status != SidecarStatus.Verified
    case Some(m) =>
      && m in installed && installed[m].status == SidecarStatus.Verified
      && forall v :: v in installed && installed[v].status == SidecarStatus.Verified ==> v <= m
  }

  lemma NewestIsUnique(installed: InstalledMap, a: Option<VersionId>, b: Option<VersionId>)
    requires IsNewestVerified(installed, a) && IsNewestVerified(installed, b)
    ensures a == b
  {
  }

  lemma {:induction false} NewestExists(installed: InstalledMap) returns (latest: Option<VersionId>)
    ensures IsNewestVerified(installed, latest)
    decreases |installed|
  {
    if installed == map[] {
      return None;
    }
    var v :| v in installed;
    var rest := installed - {v};
    assert forall u :: u in installed <==> u in rest || u == v;
    assert |rest.Keys| < |installed.Keys| by {
      assert installed.Keys == rest.Keys + {v};
    }
    latest := NewestExists(rest);
    if installed[v].status == SidecarStatus.Verified && (latest.None? || v > latest.value) {
      latest := Some(v);
    }
  }

  /** Filter and maximum over the map. */
  method NewestVerified(installed: InstalledMap) returns (latest: Option<VersionId>)
    ensures IsNewestVerified(installed, latest)
  {
    latest := None;
    var todo := installed.Keys;
    while todo != {}
      invariant todo <= installed.Keys
      invariant latest.Some? ==> latest.value in installed && installed[latest.value].status == SidecarStatus.Verified
      invariant forall v :: v in installed.Keys - todo && installed[v].status == SidecarStatus.Verified ==> latest.Some? && v <= latest.value
    {
      var v :| v in todo;
      if installed[v].status == SidecarStatus.Verified && (latest.None? || v > latest.value) {
        latest := Some(v);
      }
      todo := todo - {v};
    }
  }

  // ---- The manifest ----

  datatype ManifestStatus = Verified | Superseded | Failed

  datatype ManifestEntry = ManifestEntry(status: ManifestStatus, extractPath: Option<string>)

  datatype ManifestFile = ManifestFile(generatedAt: nat, latest: Option<VersionId>, versions: map<VersionId, ManifestEntry>)

  function EntryFor(installed: InstalledMap, failed: set<VersionId>, latest: Option<VersionId>, v: VersionId): ManifestEntry
    requires v in installed || v in failed
  {
    if v in failed then ManifestEntry(ManifestStatus.Failed, None)
    else ManifestEntry(if latest == Some(v) then ManifestStatus.Verified else Superseded, Some(installed[v].extractPath))
  }

  /** Exactly the installed and the failed versions; only the newest verified one is not superseded. */
  predicate IsRollup(m: ManifestFile, installed: InstalledMap, failed: set<VersionId>)
  {
    && IsNewestVerified(installed, m.latest)
    && m.versions.Keys == installed.Keys + failed
    && forall v :: v in m.versions ==> m.versions[v] == EntryFor(installed, failed, m.latest, v)
  }

  /** `v` has a verified sidecar, and no newer version has one. */
  predicate NoneNewer(installed: InstalledMap, v: VersionId)
  {
    && v in installed && installed[v].status == SidecarStatus.Verified
    && forall u :: u in installed && installed[u].status == SidecarStatus.Verified ==> u <= v
  }

  lemma LatestHasNoneNewer(installed: InstalledMap, latest: Option<VersionId>)
    requires IsNewestVerified(installed, latest)
    ensures forall v :: v in installed ==> (latest == Some(v) <==> NoneNewer(installed, v))
  {
  }

  method RebuildManifest(installed: InstalledMap, failed: set<VersionId>, now: nat) returns (m: ManifestFile)
    ensures IsRollup(m, installed, failed) && m.generatedAt == now
    ensures forall v :: v in m.versions <==> v in installed || v in failed
    ensures forall v :: v in failed ==> m.versions[v] == ManifestEntry(ManifestStatus.Failed, None)
    ensures forall v :: v in installed && v !in failed ==>
      && m.versions[v].extractPath == Some(installed[v].extractPath)
      && m.versions[v].status == if NoneNewer(installed, v) then ManifestStatus.Verified else Superseded
  {
    var latest := NewestVerified(installed);
    var versions: map<VersionId, ManifestEntry> := map[];
    var todo := installed.Keys;
    while todo != {}
      invariant todo <= installed.Keys
      invariant versions.Keys == installed.Keys - todo
      invariant forall v :: v in versions ==> versions[v] == EntryFor(installed, {}, latest, v)
    {
      var v :| v in todo;
      var status := if latest == Some(v) then ManifestStatus.Verified else Superseded;
      versions := versions[v := ManifestEntry(status, Some(installed[v].extractPath))];
      todo := todo - {v};
    }
    todo := failed;
    while todo != {}
      invariant todo <= failed
      invariant versions.Keys == installed.Keys + (failed - todo)
      invariant forall v :: v in versions ==> versions[v] == EntryFor(installed, failed - todo, latest, v)
    {
      var v :| v in todo;
      versions := versions[v := ManifestEntry(ManifestStatus.Failed, None)];
      todo := todo - {v};
    }
    assert failed - todo == failed;
    LatestHasNoneNewer(installed, latest);
    m := ManifestFile(now, latest, versions);
  }

  /** A rollup is determined by the sidecars and this run's failures, however it was rebuilt. */
  lemma RollupIsUnique(a: ManifestFile, b: ManifestFile, installed: InstalledMap, failed: set<VersionId>)
    requires IsRollup(a, installed, failed) && IsRollup(b, installed, failed)
    ensures a.latest == b.latest && a.versions == b.versions
  {
    NewestIsUnique(installed, a.latest, b.latest);
  }
}
