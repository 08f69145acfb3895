/**
 The concurrent phase inside the whole system: the queue decides in which order results
 arrive, the store is shared by all workers, and the two agree at the end.
 */
module WholeRun {
  import opened Wrappers
  import opened Domain
  import opened Pipeline
  import opened Snapshot
  import opened Systems
  import opened SystemSafety
  import opened SystemHistories
  import Q = WorkQueues
  import QS = QueueSafety
  import QL = QueueLiveness
  import CP = ConcurrentPhase
  import SP = SnapshotPermits

  /** The queue's worker asks, for each eligible version, for the permits of its run and returns what that returns. */
  ghost predicate Processes(w: World, r: Run, c: Q.Config<VersionId, ProcessOutcome>)
  {
    forall v :: v in r.eligible ==>
      && c.outcome(v) == OutcomeFor(w, r, v)
      && c.needs(v) == SP.PermitsOf(w.codec, r.input.requests(v), DiskOf(r.base, DirName(r, v)))
  }

  lemma NeededIsDecided(c: Codec, q: Request, d: Disk, p: Q.Pool)
    requires p in SP.PermitsOf(c, q, d)
    ensures p == Q.Download ==> NeedDownload(FindResumePoint(c, q.faults.missed, d))
    ensures p == Q.Processing ==> NeedConvert(FindResumePoint(c, q.faults.missed, d))
  {
    SP.PermitsAsResumeDecides(c, q, d);
    var i :| 0 <= i < |SP.PermitsOf(c, q, d)| && SP.PermitsOf(c, q, d)[i] == p;
    assert SP.ResumePermits(FindResumePoint(c, q.faults.missed, d))[i] == p;
  }

  /**
   In every schedule of the queue, with what is on disk: a download permit is held only for a
   version whose resume decision is to download, and a processing permit only for one that
   has something left to extract or convert.
   */
  lemma PermitsFollowResume(w: World, r: Run, c: Q.Config<VersionId, ProcessOutcome>, steps: seq<Q.Step>, i: nat,
          p: Q.Pool)
    requires Processes(w, r, c) && QS.ValidRun(c, Q.Initial(c, r.eligible), steps)
    requires var s := QS.RunAll(c, Q.Initial(c, r.eligible), steps); i < |s.workers| && s.workers[i].Holds(p)
    ensures var v := QS.RunAll(c, Q.Initial(c, r.eligible), steps).workers[i].item;
      var resume := FindResumePoint(w.codec, r.input.requests(v).faults.missed, DiskOf(r.base, DirName(r, v)));
      && v in r.eligible
      && (p == Q.Download ==> NeedDownload(resume))
      && (p == Q.Processing ==> NeedConvert(resume))
  {
    var v := QS.RunAll(c, Q.Initial(c, r.eligible), steps).workers[i].item;
    QS.PermitIsNeeded(c, r.eligible, steps, i, p);
    NeededIsDecided(w.codec, r.input.requests(v), DiskOf(r.base, DirName(r, v)), p);
  }

  /**
   Whatever the schedule of producer, workers and drain loop, and whatever the interleaving
   of the workers' disk operations: once both have run to their end, the books kept in
   memory hold exactly what a fresh scan of the store would find, `succeeded` (attempted
   minus failed) counts the eligible versions that were published, and no failed version is.
   */
  lemma BooksMatchStore(w: World, r: Run, s: Store, c: Q.Config<VersionId, ProcessOutcome>, steps: seq<Q.Step>)
    requires RunInv(w, r) && Follows(w, r, s) && AllReported(r)
    requires Processes(w, r, c) && QS.ValidRun(c, Q.Initial(c, r.eligible), steps)
    requires var q := QS.RunAll(c, Q.Initial(c, r.eligible), steps); QL.Stuck(c, q) && !q.cancelled
    ensures var q := QS.RunAll(c, Q.Initial(c, r.eligible), steps);
      var books := AbsorbedAll(Books(r.states, r.installed, {}), CP.Results(q.drained));
      && books == FinalBooks(w, r)
      && Shows(s, books.installed)
      && |books.failed| <= |r.eligible|
      && |r.eligible| - |books.failed| == CountOk(Results(w, r))
      && (forall v :: v in books.failed ==> v in r.eligible && !InstalledVersion(s, v))
  {
    BooksAreFinal(w, r, c, steps);
    FinalBooksShow(w, r, s);
    forall v | v in FinalBooks(w, r).failed ensures v in r.eligible && !InstalledVersion(s, v) {
      FailedIsNotInstalled(w, r, s, v);
    }
  }

  lemma SameResults(w: World, r: Run, c: Q.Config<VersionId, ProcessOutcome>)
    requires Processes(w, r, c)
    ensures CP.OneAtATime(c, r.eligible) == Results(w, r)
  {
    forall i | 0 <= i < |r.eligible| ensures CP.OneAtATime(c, r.eligible)[i] == Results(w, r)[i] {
      assert r.eligible[i] in r.eligible;
    }
  }

  lemma AboutVersions(w: World, r: Run, c: Q.Config<VersionId, ProcessOutcome>)
    requires CP.OneAtATime(c, r.eligible) == Results(w, r)
    requires forall k :: 0 <= k < |r.eligible| ==> Results(w, r)[k].work.version == r.eligible[k]
    ensures CP.AboutTheirVersions(c, r.eligible)
  {
    forall i | 0 <= i < |r.eligible| ensures c.outcome(r.eligible[i]).work.version == r.eligible[i] {
      assert CP.OneAtATime(c, r.eligible)[i] == Results(w, r)[i];
    }
  }

  /** The books do not depend on the schedule of the queue. */
  lemma BooksAreFinal(w: World, r: Run, c: Q.Config<VersionId, ProcessOutcome>, steps: seq<Q.Step>)
    requires RunInv(w, r) && Processes(w, r, c) && QS.ValidRun(c, Q.Initial(c, r.eligible), steps)
    requires var q := QS.RunAll(c, Q.Initial(c, r.eligible), steps); QL.Stuck(c, q) && !q.cancelled
    ensures var q := QS.RunAll(c, Q.Initial(c, r.eligible), steps);
      AbsorbedAll(Books(r.states, r.installed, {}), CP.Results(q.drained)) == FinalBooks(w, r)
    ensures |FinalBooks(w, r).failed| <= |r.eligible|
    ensures |r.eligible| - |FinalBooks(w, r).failed| == CountOk(Results(w, r))
  {
    EligibleDistinct(w, r);
    ResultVersions(w, r);
    SameResults(w, r, c);
    AboutVersions(w, r, c);
    CP.ScheduleIndependentBooks(c, r.eligible, Books(r.states, r.installed, {}), steps);
  }

  lemma FailedIsNotInstalled(w: World, r: Run, s: Store, v: VersionId)
    requires RunInv(w, r) && Follows(w, r, s) && AllReported(r) && v in FinalBooks(w, r).failed
    ensures v in r.eligible && !InstalledVersion(s, v)
  {
    ResultVersions(w, r);
    AbsorbedEntry(Books(r.states, r.installed, {}), Results(w, r), v);
    FinalBooksShow(w, r, s);
    ShowsVersions(s, FinalBooks(w, r).installed, v);
    FinalEntry(w, r, v);
    ResultIn(w, r, v);
    EligibleFacts(w, r, v);
  }

  // ---- An invocation can always go on ----

  /** What a version with a plan of `n` operations still has to go through. */
  function Left(n: nat, p: Progress): nat
  {
    match p
    case Unsaved => n + 3
    case Saved => n + 2
    case Claimed(k) => if k < n then n - k + 1 else 1
    case Reported => 0
  }

  /** Where a step takes its version. */
  function NextProgress(r: Run, step: Step): Progress
    requires Inside(step) && step.v in r.progress
  {
    match step
    case SaveReconciled(_) => Saved
    case Claim(_) => Claimed(0)
    case Operate(v) => Claimed(if r.progress[v].Claimed? then r.progress[v].done + 1 else 0)
    case Report(_) => Reported
  }

  lemma StepMoves(w: World, s: System, step: Step)
    requires Enabled(w, s, step) && Inside(step)
    ensures step.v in s.run.value.progress
    ensures Next(w, s, step).run == Moved(s.run.value, step.v, NextProgress(s.run.value, step))
  {
  }

  /** A step of a version brings that version nearer to its end and leaves the others where they are. */
  lemma StepAdvances(w: World, s: System, step: Step)
    requires Enabled(w, s, step) && Inside(step)
    ensures var r := s.run.value;
      && step.v in r.progress
      && Next(w, s, step).run == Moved(r, step.v, NextProgress(r, step))
      && Left(|PlanOf(w, r, step.v).ops|, NextProgress(r, step)) < Left(|PlanOf(w, r, step.v).ops|, r.progress[step.v])
  {
    StepMoves(w, s, step);
  }

  /** Until the invocation can complete, some version can take its next step. */
  lemma InvocationNeverStuck(w: World, s: System) returns (step: Step)
    requires SystemInv(w, s) && s.run.Some?
    ensures Enabled(w, s, step) && (step == Step.Complete || Inside(step))
  {
    var r := s.run.value;
    if v :| v in r.progress && r.progress[v] == Unsaved {
      assert ProgressOk(w, r, v, r.progress[v]);
      return SaveReconciled(v);
    }
    if v :| v in r.eligible && !At(r, v, Reported) {
      EligibleFacts(w, r, v);
      step := NextOf(w, r, v);
      return;
    }
    step := Step.Complete;
  }

  lemma NextOf(w: World, r: Run, v: VersionId) returns (step: Step)
    requires v in r.eligible && v in r.progress && ProgressOk(w, r, v, r.progress[v])
    requires !At(r, v, Reported) && AllSaved(r)
    ensures Inside(step) && forall s: System :: s.run == Some(r) ==> Enabled(w, s, step)
  {
    assert r.progress[v] != Unsaved;
    match r.progress[v]
    case Saved => step := Claim(v);
    case Claimed(k) => step := if k < |PlanOf(w, r, v).ops| then Operate(v) else Report(v);
  }

  // ---- Every invocation ends ----

  /** What the listed versions still have to go through together. */
  function Remaining(w: World, r: Run, vs: seq<VersionId>): nat
  {
    if vs == [] then 0
    else
      (if vs[0] in r.progress then Left(|PlanOf(w, r, vs[0]).ops|, r.progress[vs[0]]) else 0) + Remaining(w, r, vs[1..])
  }

  lemma {:induction false} RemainingDrops(w: World, r: Run, v: VersionId, p: Progress, vs: seq<VersionId>)
    requires v in r.progress && Left(|PlanOf(w, r, v).ops|, p) < Left(|PlanOf(w, r, v).ops|, r.progress[v])
    ensures var r' := r.(progress := r.progress[v := p]);
      Remaining(w, r', vs) <= Remaining(w, r, vs) && (v in vs ==> Remaining(w, r', vs) < Remaining(w, r, vs))
    decreases |vs|
  {
    var r' := r.(progress := r.progress[v := p]);
    if vs != [] {
      RemainingDrops(w, r, v, p, vs[1..]);
      assert PlanOf(w, r', vs[0]) == PlanOf(w, r, vs[0]);
      assert v in vs ==> v == vs[0] || v in vs[1..];
    }
  }

  lemma StepUsesUp(w: World, s: System, step: Step, vs: seq<VersionId>)
    requires Enabled(w, s, step) && Inside(step) && forall v :: v in s.run.value.progress ==> v in vs
    ensures var t := Next(w, s, step);
      && t.run.Some? && t.run.value.progress.Keys == s.run.value.progress.Keys
      && Remaining(w, t.run.value, vs) < Remaining(w, s.run.value, vs)
  {
    StepAdvances(w, s, step);
    RemainingDrops(w, s.run.value, step.v, NextProgress(s.run.value, step), vs);
  }

  /** Every interleaving of an invocation's workers is bounded in length. */
  lemma {:induction false} InvocationIsBounded(w: World, s: System, steps: seq<Step>, vs: seq<VersionId>)
    requires s.run.Some? && ValidTrace(w, s, steps) && (forall i :: 0 <= i < |steps| ==> Inside(steps[i]))
    requires forall v :: v in s.run.value.progress ==> v in vs
    ensures |steps| <= Remaining(w, s.run.value, vs)
    decreases |steps|
  {
    if steps != [] {
      assert Inside(steps[0]);
      StepUsesUp(w, s, steps[0], vs);
      InvocationIsBounded(w, Next(w, s, steps[0]), steps[1..], vs);
    }
  }

  /** One more step, unless the invocation can complete. */
  lemma AdvanceOnce(w: World, s: System, vs: seq<VersionId>) returns (step: Step)
    requires SystemInv(w, s) && s.run.Some? && forall v :: v in s.run.value.progress ==> v in vs
    ensures Enabled(w, s, step)
    ensures step != Step.Complete ==>
      var t := Next(w, s, step);
      && Inside(step) && SystemInv(w, t) && t.run.Some? && (forall v :: v in t.run.value.progress ==> v in vs)
      && Remaining(w, t.run.value, vs) < Remaining(w, s.run.value, vs)
  {
    step := InvocationNeverStuck(w, s);
    if step != Step.Complete {
      StepUsesUp(w, s, step, vs);
      StepKeepsInv(w, s, step);
    }
  }

  /** The workers' steps lead to a state in which the invocation can complete. */
  ghost predicate Finishes(w: World, s: System, steps: seq<Step>)
  {
    && ValidTrace(w, s, steps) && (forall i :: 0 <= i < |steps| ==> Inside(steps[i]))
    && Enabled(w, EndOf(w, s, steps), Step.Complete)
  }

  lemma FinishesStep(w: World, s: System, step: Step, rest: seq<Step>)
    requires Enabled(w, s, step) && Inside(step) && Finishes(w, Next(w, s, step), rest)
    ensures Finishes(w, s, [step] + rest)
  {
    var steps := [step] + rest;
    assert steps[0] == step && steps[1..] == rest;
  }

  /** From every state of an invocation its workers can be run until it can complete. */
  lemma {:induction false} InvocationCanFinish(w: World, s: System, vs: seq<VersionId>) returns (steps: seq<Step>)
    requires SystemInv(w, s) && s.run.Some? && forall v :: v in s.run.value.progress ==> v in vs
    ensures Finishes(w, s, steps)
    decreases Remaining(w, s.run.value, vs)
  {
    var step := AdvanceOnce(w, s, vs);
    if step == Step.Complete {
      return [];
    }
    var rest := InvocationCanFinish(w, Next(w, s, step), vs);
    FinishesStep(w, s, step, rest);
    steps := [step] + rest;
  }
}
