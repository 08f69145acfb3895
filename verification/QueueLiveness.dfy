/**
 How schedules of the queue end: with the drain loop running beside the producer none can
 get stuck or go on for ever; without it, exactly the loads up to a fixed limit get through.
 */
module QueueLiveness {
  import opened WorkQueues
  import opened QueueSafety

  // ---- Progress ----

  /** No worker holds a permit, so every pool has a free one. */
  lemma FreePermit<T, R>(c: Config<T, R>, s: State<T, R>, p: Pool)
    requires PermitsInv(c, s)
    requires forall i :: 0 <= i < |s.workers| ==> !(s.workers[i].Working? && s.workers[i].holding)
    ensures s.free.Of(p) > 0
  {
    assert PoolInv(c, s, p);
    TotalZero(Holders(p), s.workers);
  }

  /** A worker that is processing or handing back can always be moved, if some result slot is free. */
  lemma OccupiedMoves<T, R>(c: Config<T, R>, s: State<T, R>, i: nat) returns (step: Step)
    requires HoldingInv(s) && PermitsInv(c, s) && |s.output| < OutputCapacity(c)
    requires i < |s.workers| && s.workers[i].Occupied()
    ensures step.Move? && step.action != Cancel && Enabled(c, s, step)
  {
    if s.workers[i].Sending? {
      return Move(i, Send);
    }
    step := WorkingMoves(c, s, i);
  }

  /** Permits never block all workers: a holder releases, and without a holder permits are free. */
  lemma WorkingMoves<T, R>(c: Config<T, R>, s: State<T, R>, i: nat) returns (step: Step)
    requires HoldingInv(s) && PermitsInv(c, s)
    requires i < |s.workers| && s.workers[i].Working?
    ensures step.Move? && step.action in {Acquire, Release, Finish} && Enabled(c, s, step)
  {
    if j :| 0 <= j < |s.workers| && s.workers[j].Working? && s.workers[j].holding {
      return Move(j, Release);
    }
    if s.workers[i].todo == [] {
      return Move(i, Finish);
    }
    FreePermit(c, s, s.workers[i].todo[0]);
    step := Move(i, Acquire);
  }

  /** While every worker is between items, one of them or the producer can move. */
  lemma IdleMoves<T, R>(c: Config<T, R>, s: State<T, R>, i: nat) returns (step: Step)
    requires LockInv(s) && |s.input| <= InputCapacity(c)
    requires forall j :: 0 <= j < |s.workers| ==> !s.workers[j].Occupied()
    requires i < |s.workers| && !s.workers[i].Exited?
    ensures !step.Drain? && (step.Move? ==> step.action != Cancel) && Enabled(c, s, step)
  {
    match s.lock
    case None => step := Move(i, TakeLock);
    case Some(w) =>
      assert s.workers[w].Receiving?;
      step := if s.input != [] then Move(w, Receive)
              else if s.closed then Move(w, ReceiveClosed)
              else if s.pending == [] then Close
              else Enqueue;
  }

  predicate Proper(step: Step)
  {
    step.Move? ==> step.action != Cancel
  }

  /** Deadlock freedom: every reachable state that is not final has a step other than a cancellation. */
  lemma Progress<T, R>(c: Config<T, R>, items: seq<T>, s: State<T, R>) returns (step: Step)
    requires Inv(c, items, s) && !Final(s)
    ensures Enabled(c, s, step) && Proper(step)
  {
    if s.output != [] {
      return Drain;
    }
    if i :| 0 <= i < |s.workers| && s.workers[i].Occupied() {
      step := OccupiedMoves(c, s, i);
      return;
    }
    if i :| 0 <= i < |s.workers| && !s.workers[i].Exited? {
      step := IdleMoves(c, s, i);
      return;
    }
    step := if s.pending == [] then Close else Abandon;
  }

  // ---- Termination ----

  /** What an item still costs while it is waiting to be received. */
  function Cost<T, R>(c: Config<T, R>, item: T): nat
  {
    6 + 2 * |c.needs(item)|
  }

  function Costs<T, R>(c: Config<T, R>, items: seq<T>): nat
  {
    if items == [] then 0 else Cost(c, items[0]) + Costs(c, items[1..])
  }

  lemma {:induction false} CostsSnoc<T, R>(c: Config<T, R>, items: seq<T>, x: T)
    ensures Costs(c, items + [x]) == Costs(c, items) + Cost(c, x)
  {
    if items == [] {
      assert items + [x] == [x] && [x][1..] == [];
    } else {
      assert (items + [x])[1..] == items[1..] + [x];
      CostsSnoc(c, items[1..], x);
    }
  }

  /** An upper bound on the steps that are left. */
  function Measure<T, R>(c: Config<T, R>, s: State<T, R>): nat
  {
    Costs(c, s.pending) + |s.pending| + Costs(c, s.input) + Total(Effort, s.workers) + |s.output| + if s.closed then 0 else 1
  }

  lemma EffectDrops<T, R>(c: Config<T, R>, s: State<T, R>, w: nat, me: Worker<T, R>, a: Action)
    requires CanAct(c, s, me, a)
    ensures var end := Effect(c, s, w, me, a);
      && end.pending == s.pending && end.closed == s.closed
      && Costs(c, end.input) + |end.output| + Reading(Effort, Moved(c, s, me, a)) < Costs(c, s.input) + |s.output| + Reading(Effort, me)
  {
  }

  lemma MoveDrops<T, R>(c: Config<T, R>, s: State<T, R>, w: nat, a: Action)
    requires Enabled(c, s, Move(w, a))
    ensures Measure(c, Apply(c, s, Move(w, a))) < Measure(c, s)
  {
    EffectDrops(c, s, w, s.workers[w], a);
    TotalUpdate(Effort, s.workers, w, Moved(c, s, s.workers[w], a));
  }

  /** Every step, cancellations included, uses up some of the measure. */
  lemma StepDrops<T, R>(c: Config<T, R>, s: State<T, R>, step: Step)
    requires Enabled(c, s, step)
    ensures Measure(c, Apply(c, s, step)) < Measure(c, s)
  {
    match step
    case Enqueue => CostsSnoc(c, s.input, s.pending[0]);
    case Move(w, a) => MoveDrops(c, s, w, a);
    case _ =>
  }

  lemma {:induction false} RunIsBounded<T, R>(c: Config<T, R>, s: State<T, R>, steps: seq<Step>)
    requires ValidRun(c, s, steps)
    ensures |steps| + Measure(c, RunAll(c, s, steps)) <= Measure(c, s)
    decreases |steps|
  {
    if steps != [] {
      StepDrops(c, s, steps[0]);
      RunIsBounded(c, Apply(c, s, steps[0]), steps[1..]);
    }
  }

  /** Nothing but cancellations can happen any more. */
  ghost predicate Stuck<T, R>(c: Config<T, R>, s: State<T, R>)
  {
    forall step :: Enabled(c, s, step) ==> !Proper(step)
  }

  lemma NothingAfterFinal<T, R>(c: Config<T, R>, items: seq<T>, s: State<T, R>, step: Step)
    requires Inv(c, items, s) && Final(s)
    ensures !Enabled(c, s, step)
  {
  }

  lemma StuckIffFinal<T, R>(c: Config<T, R>, items: seq<T>, s: State<T, R>)
    requires Inv(c, items, s)
    ensures Stuck(c, s) <==> Final(s)
  {
    if Final(s) {
      forall step ensures !Enabled(c, s, step) {
        NothingAfterFinal(c, items, s, step);
      }
    } else {
      var step := Progress(c, items, s);
    }
  }

  /**
   Every schedule, with any number of cancellations, has a bounded length, and one that
   cannot go on has ended with the producer done, all workers exited and all results drained.
   */
  lemma EveryScheduleEnds<T, R>(c: Config<T, R>, items: seq<T>, steps: seq<Step>)
    requires ValidRun(c, Initial(c, items), steps)
    ensures |steps| <= Measure(c, Initial(c, items))
    ensures Stuck(c, RunAll(c, Initial(c, items), steps)) <==> Final(RunAll(c, Initial(c, items), steps))
  {
    RunIsBounded(c, Initial(c, items), steps);
    EveryScheduleIsSafe(c, items, steps);
    StuckIffFinal(c, items, RunAll(c, Initial(c, items), steps));
  }

  // ---- Delivery ----

  /** The items paired with their outcomes. */
  function Outcomes<T, R>(c: Config<T, R>, items: seq<T>): seq<(T, R)>
  {
    seq(|items|, i requires 0 <= i < |items| => (items[i], c.outcome(items[i])))
  }

  lemma {:induction false} OutcomesOfItems<T, R>(c: Config<T, R>, results: seq<(T, R)>)
    requires forall i :: 0 <= i < |results| ==> results[i].1 == c.outcome(results[i].0)
    ensures results == Outcomes(c, Items(results))
  {
    forall i | 0 <= i < |results| ensures results[i] == Outcomes(c, Items(results))[i] {
      assert results[i] == (results[i].0, results[i].1);
    }
  }

  lemma FinalHoldsNothing<T, R>(c: Config<T, R>, items: seq<T>, s: State<T, R>)
    requires Inv(c, items, s) && Final(s) && !s.cancelled
    ensures multiset(Items(s.drained)) == multiset(items)
  {
    assert s.workers[0].Exited?;
    HeldNone(s.workers);
    assert Items(s.output) == [];
  }

  /**
   Exactly-once delivery: a schedule without cancellations that cannot go on has drained one
   result per enqueued item, namely the item's outcome, and nothing else.
   */
  lemma EveryItemDeliveredOnce<T, R>(c: Config<T, R>, items: seq<T>, steps: seq<Step>)
    requires ValidRun(c, Initial(c, items), steps)
    requires var s := RunAll(c, Initial(c, items), steps); Stuck(c, s) && !s.cancelled
    ensures var s := RunAll(c, Initial(c, items), steps);
      multiset(Items(s.drained)) == multiset(items) && s.drained == Outcomes(c, Items(s.drained))
  {
    var s := RunAll(c, Initial(c, items), steps);
    EveryScheduleIsSafe(c, items, steps);
    StuckIffFinal(c, items, s);
    FinalHoldsNothing(c, items, s);
    OutcomesOfItems(c, s.drained);
  }

  // ---- Draining only after everything has been enqueued ----

  /** What can happen while results are not yet being drained. */
  predicate BeforeDraining(step: Step)
  {
    Proper(step) && step != Drain
  }

  lemma {:induction false} UndrainedRun<T, R>(c: Config<T, R>, s: State<T, R>, steps: seq<Step>)
    requires ValidRun(c, s, steps) && forall i :: 0 <= i < |steps| ==> BeforeDraining(steps[i])
    ensures var end := RunAll(c, s, steps); end.drained == s.drained && end.cancelled == s.cancelled
    decreases |steps|
  {
    if steps != [] {
      assert BeforeDraining(steps[0]);
      UndrainedRun(c, Apply(c, s, steps[0]), steps[1..]);
    }
  }

  /** All items are pending, buffered, held or waiting in the output channel. */
  lemma UndrainedCount<T, R>(c: Config<T, R>, items: seq<T>, s: State<T, R>)
    requires Inv(c, items, s) && !s.cancelled && s.drained == []
    ensures |s.pending| + |s.input| + Total(Busy, s.workers) + |s.output| == |items|
  {
    HeldCount(s.workers);
    assert Items(s.drained) == [];
    assert |Everywhere(s)| == |multiset(items)|;
  }

  /** With every worker handing back and both channels full, the system is at its limit and nothing moves. */
  ghost predicate Jammed<T, R>(c: Config<T, R>, s: State<T, R>)
  {
    && |s.input| == InputCapacity(c) && |s.output| == OutputCapacity(c)
    && forall i :: 0 <= i < |s.workers| ==> s.workers[i].Sending?
  }

  /** Without draining, a producer that still has work is only ever stopped by a jam. */
  lemma StoppedProducerMeansJam<T, R>(c: Config<T, R>, items: seq<T>, s: State<T, R>)
    requires Inv(c, items, s) && !s.cancelled && s.pending != []
    requires forall step :: Enabled(c, s, step) ==> !BeforeDraining(step)
    ensures Jammed(c, s)
  {
    assert !s.closed;
    assert !s.workers[0].Exited?;
    assert !Enabled(c, s, Enqueue);
    forall i | 0 <= i < |s.workers| ensures s.workers[i].Sending? {
      if s.workers[i].Working? {
        var step := WorkingMoves(c, s, i);
      } else if s.workers[i].Receiving? {
        assert Enabled(c, s, Move(i, Receive));
      } else if s.workers[i].Waiting? {
        assert !Enabled(c, s, Move(i, TakeLock));
        var w := s.lock.value;
        assert Enabled(c, s, Move(w, Receive));
      }
    }
    assert !Enabled(c, s, Move(0, Send));
  }

  /** How many items fit in is the room in both channels and in the workers' hands. */
  lemma LateDraining<T, R>(c: Config<T, R>, items: seq<T>, steps: seq<Step>)
    requires ValidRun(c, Initial(c, items), steps) && forall i :: 0 <= i < |steps| ==> BeforeDraining(steps[i])
    ensures var s := RunAll(c, Initial(c, items), steps);
      var room := InputCapacity(c) + Workers(c) + OutputCapacity(c);
      && |s.workers| == Workers(c)
      && (s.pending == [] ==> |items| <= room)
      && (s.pending != [] && (forall step :: Enabled(c, s, step) ==> !BeforeDraining(step)) ==> Jammed(c, s) && |items| > room)
  {
    var s := RunAll(c, Initial(c, items), steps);
    EveryScheduleIsSafe(c, items, steps);
    UndrainedRun(c, Initial(c, items), steps);
    UndrainedCount(c, items, s);
    BusyAtMostAll(s.workers);
    if s.pending != [] && forall step :: Enabled(c, s, step) ==> !BeforeDraining(step) {
      StoppedProducerMeansJam(c, items, s);
    }
  }

  /**
   The exact limit of draining late, in the configuration's own numbers, with 0 read as 1: if
   nothing is drained until all items are enqueued, every schedule that cannot go on has
   enqueued them all if and only if they are at most max_queued + max_active + the larger of
   the two, and no schedule at all ever enqueues more than that. A producer that is stopped
   faces two full channels and workers that all hand back.
   */
  lemma SequentialDrainingLimit<T, R>(c: Config<T, R>, items: seq<T>, steps: seq<Step>)
    requires ValidRun(c, Initial(c, items), steps) && forall i :: 0 <= i < |steps| ==> BeforeDraining(steps[i])
    ensures var s := RunAll(c, Initial(c, items), steps);
      var queued, active := if c.maxQueued > 0 then c.maxQueued else 1, if c.maxActive > 0 then c.maxActive else 1;
      var larger := if queued >= active then queued else active;
      && (s.pending == [] ==> |items| <= queued + active + larger)
      && ((forall step :: Enabled(c, s, step) ==> !BeforeDraining(step)) ==>
            && (s.pending == [] <==> |items| <= queued + active + larger)
            && (s.pending != [] ==>
                  && |s.input| == queued && |s.output| == larger && |s.workers| == active
                  && forall i :: 0 <= i < |s.workers| ==> s.workers[i].Sending?))
  {
    LateDraining(c, items, steps);
  }
}
