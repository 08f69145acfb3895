/** Where each artifact of a version lives on disk (paths.rs). */
module Paths {
  import opened Text
  import opened Domain

  datatype RawLayout = RawLayout(rawDir: string)

  /** The five places one version's work can occupy. */
  datatype Artifact = Part | Zip | Extraction | Parquet | Final

  function Join(dir: string, name: string): string
  {
    dir + "/" + name
  }

  function Suffix(kind: Artifact): string
  {
    match kind
    case Part => ".zip.part"
    case Zip => ".zip"
    case Extraction => ""
    case Parquet => ".parquet"
    case Final => ""
  }

  function ArtifactPath(layout: RawLayout, kind: Artifact, dirName: string): string
  {
    if kind == Final then Join(layout.rawDir, dirName)
    else Join(Join(layout.rawDir, ".staging"), dirName + Suffix(kind))
  }

  predicate StartsWithDot(name: string)
  {
    name != "" && name[0] == '.'
  }

  /** Whether a directory entry is taken for a snapshot rather than a reserved name. */
  predicate LooksLikeSnapshotDir(name: string)
  {
    !StartsWithDot(name) && name != "latest"
  }

  /** The last component of a path; the whole string when there is no separator. */
  function FileName(path: string): string
  {
    match RSplitOnce(path, '/')
    case None => path
    case Some(parts) => parts.1
  }

  lemma DirNameEndsInDigit(p: string, v: VersionId)
    ensures var name := SnapshotDirName(p, v); name != "" && IsDigit(name[|name| - 1])
  {
    var name := SnapshotDirName(p, v);
    assert name[|name| - 1] == AsStr(v)[VERSION_LENGTH - 1];
  }

  lemma DirNameHead(p: string, v: VersionId)
    ensures SnapshotDirName(p, v)[0] == (p + "_")[0]
  {
  }

  /** A published directory is recognised by the sidecar scan exactly when its prefix does not start with a dot. */
  lemma PublishedDirIsScanned(p: string, v: VersionId)
    ensures LooksLikeSnapshotDir(SnapshotDirName(p, v)) <==> !StartsWithDot(p)
  {
    DirNameHead(p, v);
    DirNameEndsInDigit(p, v);
  }

  predicate IsSuffix(s: string)
  {
    s == "" || s == ".zip" || s == ".zip.part" || s == ".parquet"
  }

  /** A name ending in a digit cannot absorb part of a longer suffix. */
  lemma LongerSuffixDiffers(a: string, s: string, b: string, t: string)
    requires a != "" && IsDigit(a[|a| - 1])
    requires IsSuffix(s) && IsSuffix(t) && |s| < |t|
    ensures a + s != b + t
  {
    if |a| + |s| == |b| + |t| {
      assert (a + s)[|a| - 1] == a[|a| - 1];
      assert (b + t)[|a| - 1] == t[|a| - 1 - |b|];
    }
  }

  lemma SuffixedNamesDiffer(a: string, s: string, b: string, t: string)
    requires a != "" && b != "" && IsDigit(a[|a| - 1]) && IsDigit(b[|b| - 1])
    requires IsSuffix(s) && IsSuffix(t)
    ensures a + s == b + t <==> a == b && s == t
  {
    if |s| < |t| {
      LongerSuffixDiffers(a, s, b, t);
    } else if |t| < |s| {
      LongerSuffixDiffers(b, t, a, s);
    } else if a + s == b + t {
      assert (a + s)[..|a|] == a && (b + t)[..|b|] == b;
      assert (a + s)[|a|..] == s && (b + t)[|b|..] == t;
    }
  }

  lemma FinalIsNotStaging(layout: RawLayout, name: string, other: string)
    requires name != "" && !StartsWithDot(name)
    ensures Join(layout.rawDir, name) != Join(Join(layout.rawDir, ".staging"), other)
  {
    var r := |layout.rawDir|;
    assert Join(layout.rawDir, name)[r + 1] == name[0];
    assert Join(Join(layout.rawDir, ".staging"), other)[r + 1] == '.';
  }

  lemma JoinInjective(dir: string, a: string, b: string)
    ensures Join(dir, a) == Join(dir, b) <==> a == b
  {
    assert Join(dir, a)[|dir| + 1..] == a;
    assert Join(dir, b)[|dir| + 1..] == b;
  }

  /**
   Version isolation: over all prefixes not starting with a dot, two artifact paths
   coincide only when kind, prefix and version all coincide.
   */
  lemma ArtifactPathsIsolated(layout: RawLayout, k: Artifact, p: string, v: VersionId, j: Artifact, q: string,
          u: VersionId)
    requires !StartsWithDot(p) && !StartsWithDot(q)
    ensures ArtifactPath(layout, k, SnapshotDirName(p, v)) == ArtifactPath(layout, j, SnapshotDirName(q, u))
      <==> k == j && p == q && v == u
  {
    var a, b := SnapshotDirName(p, v), SnapshotDirName(q, u);
    DirNameInjective(p, v, q, u);
    DirNameEndsInDigit(p, v);
    DirNameEndsInDigit(q, u);
    PublishedDirIsScanned(p, v);
    PublishedDirIsScanned(q, u);
    var staging := Join(layout.rawDir, ".staging");
    if k == Final && j == Final {
      JoinInjective(layout.rawDir, a, b);
    } else if k == Final {
      FinalIsNotStaging(layout, a, b + Suffix(j));
    } else if j == Final {
      FinalIsNotStaging(layout, b, a + Suffix(k));
    } else {
      JoinInjective(staging, a + Suffix(k), b + Suffix(j));
      SuffixedNamesDiffer(a, Suffix(k), b, Suffix(j));
    }
  }

  /** The directory name recorded in a sidecar's path is read back from it. */
  lemma FileNameOfFinalDir(layout: RawLayout, p: string, v: VersionId)
    requires '/' !in p
    ensures FileName(ArtifactPath(layout, Final, SnapshotDirName(p, v))) == SnapshotDirName(p, v)
  {
    DigitsAreNot(AsStr(v), '/');
    RSplitOnceUnique(layout.rawDir, '/', SnapshotDirName(p, v));
  }

  /** Where everything of one version lies, spelled out. */
  lemma ArtifactPathsSpelled(layout: RawLayout, dirName: string)
    ensures ArtifactPath(layout, Part, dirName) == layout.rawDir + "/.staging/" + dirName + ".zip.part"
    ensures ArtifactPath(layout, Zip, dirName) == layout.rawDir + "/.staging/" + dirName + ".zip"
    ensures ArtifactPath(layout, Extraction, dirName) == layout.rawDir + "/.staging/" + dirName
    ensures ArtifactPath(layout, Parquet, dirName) == layout.rawDir + "/.staging/" + dirName + ".parquet"
    ensures ArtifactPath(layout, Final, dirName) == layout.rawDir + "/" + dirName
  {
    assert "/" + ".staging" + "/" == "/.staging/";
    var head := layout.rawDir + "/" + ".staging" + "/";
    assert head == layout.rawDir + "/.staging/";
    assert dirName + "" == dirName;
    forall suffix: string ensures head + (dirName + suffix) == head + dirName + suffix {
    }
  }

  /** The scan passes over the link, the staging area and every other hidden name, and over nothing else. */
  lemma ScanPassesOver(name: string)
    ensures !LooksLikeSnapshotDir("latest")
    ensures |name| > 0 && name[0] == '.' ==> !LooksLikeSnapshotDir(name)
    ensures (|name| == 0 || name[0] != '.') && name != "latest" ==> LooksLikeSnapshotDir(name)
  {
  }
}
