/** The concurrent phase of a run: the queue's schedules and the books they lead to (pipeline.rs). */
module ConcurrentPhase {
  import opened Domain
  import opened WorkQueues
  import opened QueueSafety
  import opened QueueLiveness
  import opened Reconciliation
  import opened Pipeline

  /** What a worker returns for a version is about that version. */
  predicate AboutTheirVersions(c: Config<VersionId, ProcessOutcome>, versions: seq<VersionId>)
  {
    forall i :: 0 <= i < |versions| ==> c.outcome(versions[i]).work.version == versions[i]
  }

  /** The results in the order in which they were drained. */
  function Results(drained: seq<(VersionId, ProcessOutcome)>): seq<ProcessOutcome>
  {
    seq(|drained|, i requires 0 <= i < |drained| => drained[i].1)
  }

  /** The results of processing the versions one at a time. */
  function OneAtATime(c: Config<VersionId, ProcessOutcome>, versions: seq<VersionId>): seq<ProcessOutcome>
  {
    seq(|versions|, i requires 0 <= i < |versions| => c.outcome(versions[i]))
  }

  function RemoveAt<A>(s: seq<A>, j: nat): seq<A>
    requires j < |s|
  {
    s[..j] + s[j + 1..]
  }

  lemma RemovedOne<A>(s: seq<A>, j: nat)
    requires j < |s|
    ensures multiset(s) == multiset(RemoveAt(s, j)) + multiset{s[j]}
  {
    assert s == s[..j] + [s[j]] + s[j + 1..];
  }

  lemma {:induction false} SameBagOfResults(c: Config<VersionId, ProcessOutcome>, x: seq<VersionId>, y: seq<VersionId>)
    requires multiset(x) == multiset(y)
    ensures multiset(OneAtATime(c, x)) == multiset(OneAtATime(c, y))
    decreases |x|
  {
    assert |x| == |multiset(x)| == |y|;
    if x != [] {
      assert x[0] in multiset(y);
      var j :| 0 <= j < |y| && y[j] == x[0];
      RemovedOne(x, 0);
      RemovedOne(y, j);
      var x', y' := RemoveAt(x, 0), RemoveAt(y, j);
      assert multiset(x') == multiset(x) - multiset{x[0]} && multiset(y') == multiset(y) - multiset{x[0]};
      SameBagOfResults(c, x', y');
      RemovedResult(c, x, 0);
      RemovedResult(c, y, j);
    }
  }

  lemma RemovedResult(c: Config<VersionId, ProcessOutcome>, x: seq<VersionId>, j: nat)
    requires j < |x|
    ensures multiset(OneAtATime(c, x)) == multiset(OneAtATime(c, RemoveAt(x, j))) + multiset{c.outcome(x[j])}
  {
    RemovedOne(OneAtATime(c, x), j);
    assert OneAtATime(c, RemoveAt(x, j)) == RemoveAt(OneAtATime(c, x), j);
  }

  /**
   Schedule independence of the books. For pairwise distinct eligible versions, every
   schedule of producer, workers and drain loop that runs to its end, with whatever arrival
   order, yields the books of processing the versions one at a time, and `succeeded`
   (attempted minus failed) is the number of versions whose outcome is Ok.
   */
  lemma ScheduleIndependentBooks(c: Config<VersionId, ProcessOutcome>, eligible: seq<VersionId>, b: Books,
          steps: seq<Step>)
    requires AboutTheirVersions(c, eligible) && StrictlyIncreasing(eligible) && b.failed == {}
    requires ValidRun(c, Initial(c, eligible), steps)
    requires var s := RunAll(c, Initial(c, eligible), steps); Stuck(c, s) && !s.cancelled
    ensures var s := RunAll(c, Initial(c, eligible), steps);
      var end := AbsorbedAll(b, Results(s.drained));
      && end == AbsorbedAll(b, OneAtATime(c, eligible))
      && |end.failed| <= |eligible|
      && |eligible| - |end.failed| == CountOk(OneAtATime(c, eligible))
  {
    var s := RunAll(c, Initial(c, eligible), steps);
    EveryItemDeliveredOnce(c, eligible, steps);
    assert Results(s.drained) == OneAtATime(c, Items(s.drained));
    SameBagOfResults(c, eligible, Items(s.drained));
    ArrivalOrderIsIrrelevant(b, OneAtATime(c, eligible), Results(s.drained));
    SucceededCountsOk(b, OneAtATime(c, eligible));
  }
}
