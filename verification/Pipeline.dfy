/**
 The serial part of a run (pipeline.rs): the books kept while results are drained, and the
 `latest` link with its startup check.
 */
module Pipeline {
  import opened Wrappers
  import opened Domain
  import opened Paths
  import opened Manifest
  import opened WorkStates
  import opened Reconciliation
  import opened Rollup

  // ---- Draining results ----

  /** What processing one version returns: its updated record, and its sidecar or an error. */
  datatype ProcessOutcome = ProcessOutcome(work: Record, meta: Result<SnapshotMeta, string>)

  datatype Books = Books(states: States, installed: InstalledMap, failed: set<VersionId>)

  function Absorbed(b: Books, o: ProcessOutcome): Books
  {
    var v := o.work.version;
    match o.meta
    case Ok(meta) => b.(states := b.states[v := o.work], installed := b.installed[v := meta])
    case Err(_) => b.(states := b.states[v := o.work], failed := b.failed + {v})
  }

  function AbsorbedAll(b: Books, results: seq<ProcessOutcome>): Books
  {
    if results == [] then b else Absorbed(AbsorbedAll(b, results[..|results| - 1]), results[|results| - 1])
  }

  /** The drain loop, in whatever order the results arrive. */
  method DrainResults(states: States, installed: InstalledMap, results: seq<ProcessOutcome>) returns (b: Books)
    ensures b == AbsorbedAll(Books(states, installed, {}), results)
  {
    var work: States, found: InstalledMap, failed: set<VersionId> := states, installed, {};
    for i := 0 to |results|
      invariant Books(work, found, failed) == AbsorbedAll(Books(states, installed, {}), results[..i])
    {
      assert results[..i + 1][..i] == results[..i];
      var ProcessOutcome(record, meta) := results[i];
      work := work[record.version := record];
      match meta {
        case Ok(m) => found := found[record.version := m];
        case Err(_) => failed := failed + {record.version};
      }
    }
    assert results[..|results|] == results;
    b := Books(work, found, failed);
  }

  predicate DistinctResults(results: seq<ProcessOutcome>)
  {
    forall i, j :: 0 <= i < j < |results| ==> results[i].work.version != results[j].work.version
  }

  /** The books say about `v` what its result says, or what they said before when it has none. */
  predicate EntryOf(b: Books, results: seq<ProcessOutcome>, end: Books, v: VersionId)
  {
    && (forall i :: 0 <= i < |results| && results[i].work.version == v ==> HasResult(b, results[i], end, v))
    && ((forall i :: 0 <= i < |results| ==> results[i].work.version != v) ==> Unchanged(b, end, v))
  }

  predicate HasResult(b: Books, o: ProcessOutcome, end: Books, v: VersionId)
  {
    && v in end.states && end.states[v] == o.work
    && match o.meta
       case Ok(meta) => v in end.installed && end.installed[v] == meta && (v in end.failed <==> v in b.failed)
       case Err(_) => v in end.failed && SameInstalled(b, end, v)
  }

  predicate SameInstalled(b: Books, end: Books, v: VersionId)
  {
    (v in end.installed <==> v in b.installed) && (v in b.installed ==> end.installed[v] == b.installed[v])
  }

  predicate Unchanged(b: Books, end: Books, v: VersionId)
  {
    && (v in end.states <==> v in b.states) && (v in b.states ==> end.states[v] == b.states[v])
    && SameInstalled(b, end, v)
    && (v in end.failed <==> v in b.failed)
  }

  lemma {:induction false} AbsorbedEntry(b: Books, results: seq<ProcessOutcome>, v: VersionId)
    requires DistinctResults(results)
    ensures EntryOf(b, results, AbsorbedAll(b, results), v)
  {
    if results != [] {
      AbsorbedEntry(b, results[..|results| - 1], v);
    }
  }

  /** Two books say the same about `v`. */
  predicate Agree(a: Books, b: Books, v: VersionId)
  {
    Unchanged(a, b, v)
  }

  lemma AgreeEverywhere(a: Books, b: Books)
    requires forall v :: Agree(a, b, v)
    ensures a == b
  {
    forall v: VersionId ensures v in a.states <==> v in b.states {
      assert Agree(a, b, v);
    }
    forall v: VersionId ensures v in a.installed <==> v in b.installed {
      assert Agree(a, b, v);
    }
    forall v: VersionId ensures v in a.failed <==> v in b.failed {
      assert Agree(a, b, v);
    }
    forall v | v in a.states ensures a.states[v] == b.states[v] {
      assert Agree(a, b, v);
    }
    forall v | v in a.installed ensures a.installed[v] == b.installed[v] {
      assert Agree(a, b, v);
    }
  }

  lemma SameEntry(b: Books, x: seq<ProcessOutcome>, y: seq<ProcessOutcome>, endX: Books, endY: Books, v: VersionId)
    requires multiset(x) == multiset(y) && EntryOf(b, x, endX, v) && EntryOf(b, y, endY, v)
    ensures Agree(endX, endY, v)
  {
    if i :| 0 <= i < |x| && x[i].work.version == v {
      assert x[i] in multiset(y);
      var j :| 0 <= j < |y| && y[j] == x[i];
      assert HasResult(b, x[i], endX, v) && HasResult(b, y[j], endY, v);
    } else {
      forall j | 0 <= j < |y| ensures y[j].work.version != v {
        assert y[j] in multiset(x);
        assert y[j] in x;
      }
    }
  }

  lemma {:induction false} DistinctIsABagProperty(x: seq<ProcessOutcome>, y: seq<ProcessOutcome>)
    requires multiset(x) == multiset(y) && DistinctResults(x)
    ensures DistinctResults(y)
  {
    forall i, j | 0 <= i < j < |y| && y[i].work.version == y[j].work.version ensures false {
      var a, b := y[i], y[j];
      assert a in multiset(x) && b in multiset(x);
      var k :| 0 <= k < |x| && x[k] == a;
      var l :| 0 <= l < |x| && x[l] == b;
      assert k == l;
      TwiceInBag(y, i, j);
      OnceInBag(x, k);
    }
  }

  lemma TwiceInBag(y: seq<ProcessOutcome>, i: nat, j: nat)
    requires i < j < |y| && y[i] == y[j]
    ensures multiset(y)[y[i]] >= 2
  {
    assert y == y[..j] + [y[j]] + y[j + 1..];
    assert y[i] in y[..j];
  }

  lemma {:induction false} OnceInBag(x: seq<ProcessOutcome>, k: nat)
    requires DistinctResults(x) && k < |x|
    ensures multiset(x)[x[k]] == 1
  {
    assert x == x[..k] + [x[k]] + x[k + 1..];
    assert x[k] !in x[..k] && x[k] !in x[k + 1..];
  }

  /** The order in which results arrive does not matter. */
  lemma ArrivalOrderIsIrrelevant(b: Books, x: seq<ProcessOutcome>, y: seq<ProcessOutcome>)
    requires multiset(x) == multiset(y) && DistinctResults(x)
    ensures AbsorbedAll(b, x) == AbsorbedAll(b, y)
  {
    DistinctIsABagProperty(x, y);
    forall v: VersionId ensures Agree(AbsorbedAll(b, x), AbsorbedAll(b, y), v) {
      AbsorbedEntry(b, x, v);
      AbsorbedEntry(b, y, v);
      SameEntry(b, x, y, AbsorbedAll(b, x), AbsorbedAll(b, y), v);
    }
    AgreeEverywhere(AbsorbedAll(b, x), AbsorbedAll(b, y));
  }

  function CountOk(results: seq<ProcessOutcome>): nat
  {
    if results == [] then 0
    else CountOk(results[..|results| - 1]) + if results[|results| - 1].meta.Ok? then 1 else 0
  }

  /** `succeeded` is computed as attempted minus failed: it never underflows and counts the Ok outcomes. */
  lemma {:induction false} SucceededCountsOk(b: Books, results: seq<ProcessOutcome>)
    requires DistinctResults(results) && b.failed == {}
    ensures |AbsorbedAll(b, results).failed| <= |results|
    ensures |results| - |AbsorbedAll(b, results).failed| == CountOk(results)
  {
    if results != [] {
      var init, last := results[..|results| - 1], results[|results| - 1];
      SucceededCountsOk(b, init);
      AbsorbedEntry(b, init, last.work.version);
      assert last.work.version !in AbsorbedAll(b, init).failed;
    }
  }

  // ---- `latest` ----

  datatype LatestError = LatestMismatch

  /** What `latest` should name: the directory of the newest verified version. */
  ghost predicate LatestNames(installed: InstalledMap, newest: Option<VersionId>, target: Option<string>)
  {
    match newest
    case None => target.None?
    case Some(v) => v in installed && target == Some(FileName(installed[v].extractPath))
  }

  /** The startup check. */
  method VerifyLatestConsistency(target: Option<string>, m: ManifestFile, installed: InstalledMap)
    returns (r: Result<(), LatestError>)
    ensures r.Ok? <==> LatestNames(installed, m.latest, target)
  {
    match m.latest {
      case None =>
        r := if target.None? then Ok(()) else Err(LatestMismatch);
      case Some(version) =>
        if target.None? || version !in installed {
          return Err(LatestMismatch);
        }
        var expected := FileName(installed[version].extractPath);
        r := if expected != target.value then Err(LatestMismatch) else Ok(());
    }
  }

  /** The link after a run: repointed at the newest verified version, left alone when there is none. */
  method AdvanceLatestIfNeeded(target: Option<string>, installed: InstalledMap) returns (out: Option<string>)
    ensures forall newest :: IsNewestVerified(installed, newest) ==>
      if newest.None? then out == target else LatestNames(installed, newest, out)
  {
    var newest := NewestVerified(installed);
    forall other | IsNewestVerified(installed, other) ensures other == newest {
      NewestIsUnique(installed, other, newest);
    }
    match newest {
      case None => return target;
      case Some(v) =>
        var dirName := FileName(installed[v].extractPath);
        if target == Some(dirName) {
          return target;
        }
        out := Some(dirName);
    }
  }
}
