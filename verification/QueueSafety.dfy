/**
 What every schedule of the queue keeps: nothing is lost or duplicated, no bound is ever
 exceeded, and every permit is either free or held by exactly one worker.
 */
module QueueSafety {
  import opened Wrappers
  import opened WorkQueues

  // ---- Nothing lost, nothing duplicated ----

  /** The items no worker holds. */
  function Elsewhere<T, R>(s: State<T, R>): multiset<T>
  {
    multiset(s.pending) + multiset(s.input) + multiset(Items(s.output)) + multiset(Items(s.drained)) + multiset(s.lost)
  }

  /** Every item in the system, wherever it is. */
  function Everywhere<T, R>(s: State<T, R>): multiset<T>
  {
    Elsewhere(s) + Held(s.workers)
  }

  lemma SplitHead<A>(s: seq<A>)
    requires s != []
    ensures multiset(s) == multiset{s[0]} + multiset(s[1..])
  {
    assert s == [s[0]] + s[1..];
  }

  lemma ItemsSnoc<T, R>(results: seq<(T, R)>, r: (T, R))
    ensures Items(results + [r]) == Items(results) + [r.0]
  {
  }

  lemma ItemsTail<T, R>(results: seq<(T, R)>)
    requires results != []
    ensures Items(results[1..]) == Items(results)[1..] && Items(results) != [] && Items(results)[0] == results[0].0
  {
  }

  lemma ReceiveConserves<T, R>(s: State<T, R>)
    requires s.input != []
    ensures Elsewhere(s.(input := s.input[1..])) + multiset{s.input[0]} == Elsewhere(s)
  {
    SplitHead(s.input);
  }

  lemma SendConserves<T, R>(s: State<T, R>, item: T, result: R)
    ensures Elsewhere(s.(output := s.output + [(item, result)])) == Elsewhere(s) + multiset{item}
  {
    ItemsSnoc(s.output, (item, result));
  }

  lemma LossConserves<T, R>(s: State<T, R>, item: T)
    ensures Elsewhere(s.(lost := s.lost + [item])) == Elsewhere(s) + multiset{item}
  {
  }

  /** Only the lists of items matter. */
  lemma SameElsewhere<T, R>(s: State<T, R>, t: State<T, R>)
    requires s.pending == t.pending && s.input == t.input && s.output == t.output && s.drained == t.drained && s.lost == t.lost
    ensures Elsewhere(s) == Elsewhere(t)
  {
  }

  ghost predicate Conserves<T, R>(c: Config<T, R>, s: State<T, R>, w: nat, me: Worker<T, R>, a: Action)
    requires CanAct(c, s, me, a)
  {
    Elsewhere(Effect(c, s, w, me, a)) + ItemOf(Moved(c, s, me, a)) == Elsewhere(s) + ItemOf(me)
  }

  lemma CancelConserves<T, R>(c: Config<T, R>, s: State<T, R>, w: nat, me: Worker<T, R>)
    requires CanAct(c, s, me, Cancel)
    ensures Conserves(c, s, w, me, Cancel)
  {
    if me.Occupied() {
      LossConserves(s, me.item);
      SameElsewhere(Effect(c, s, w, me, Cancel), s.(lost := s.lost + [me.item]));
    }
  }

  lemma OthersConserve<T, R>(c: Config<T, R>, s: State<T, R>, w: nat, me: Worker<T, R>, a: Action)
    requires CanAct(c, s, me, a) && a !in {Receive, Send, Cancel}
    ensures Conserves(c, s, w, me, a)
  {
    SameElsewhere(Effect(c, s, w, me, a), s);
    assert ItemOf(Moved(c, s, me, a)) == ItemOf(me);
  }

  /** What the moving worker gives up or takes on is matched by the rest of the system. */
  lemma EffectConserves<T, R>(c: Config<T, R>, s: State<T, R>, w: nat, me: Worker<T, R>, a: Action)
    requires CanAct(c, s, me, a)
    ensures Conserves(c, s, w, me, a)
  {
    match a
    case Receive =>
      ReceiveConserves(s);
      SameElsewhere(Effect(c, s, w, me, Receive), s.(input := s.input[1..]));
    case Send => SendConserves(s, me.item, me.result);
    case Cancel => CancelConserves(c, s, w, me);
    case _ => OthersConserve(c, s, w, me, a);
  }

  lemma Exchange<T>(rest: multiset<T>, rest': multiset<T>, held: multiset<T>, held': multiset<T>, mine: multiset<T>,
          next: multiset<T>)
    requires rest' + next == rest + mine && held' + mine == held + next
    ensures rest' + held' == rest + held
  {
    forall x: T ensures (rest' + held')[x] == (rest + held)[x] {
      assert (rest' + next)[x] == (rest + mine)[x] && (held' + mine)[x] == (held + next)[x];
    }
  }

  lemma MoveConserves<T, R>(c: Config<T, R>, s: State<T, R>, w: nat, a: Action)
    requires Enabled(c, s, Move(w, a))
    ensures Everywhere(Apply(c, s, Move(w, a))) == Everywhere(s)
  {
    var me, next, end := s.workers[w], Moved(c, s, s.workers[w], a), Apply(c, s, Move(w, a));
    HeldUpdate(s.workers, w, next);
    EffectConserves(c, s, w, me, a);
    Exchange(Elsewhere(s), Elsewhere(end), Held(s.workers), Held(end.workers), ItemOf(me), ItemOf(next));
  }

  lemma OutputLoses<T, R>(s: State<T, R>)
    requires s.output != []
    ensures Elsewhere(s.(output := s.output[1..])) + multiset{s.output[0].0} == Elsewhere(s)
  {
    ItemsTail(s.output);
    SplitHead(Items(s.output));
  }

  lemma DrainedGains<T, R>(s: State<T, R>, entry: (T, R))
    ensures Elsewhere(s.(drained := s.drained + [entry])) == Elsewhere(s) + multiset{entry.0}
  {
    ItemsSnoc(s.drained, entry);
  }

  lemma DrainConserves<T, R>(c: Config<T, R>, s: State<T, R>)
    requires s.output != []
    ensures Everywhere(Apply(c, s, Drain)) == Everywhere(s)
  {
    var taken := s.(output := s.output[1..]);
    OutputLoses(s);
    DrainedGains(taken, s.output[0]);
    SameElsewhere(Apply(c, s, Drain), taken.(drained := taken.drained + [s.output[0]]));
  }

  lemma StepConserves<T, R>(c: Config<T, R>, s: State<T, R>, step: Step)
    requires Enabled(c, s, step)
    ensures Everywhere(Apply(c, s, step)) == Everywhere(s)
  {
    match step
    case Enqueue => SplitHead(s.pending);
    case Close =>
    case Abandon =>
    case Drain => DrainConserves(c, s);
    case Move(w, a) => MoveConserves(c, s, w, a);
  }

  // ---- The invariant ----

  /** The receiver's lock is held by exactly the worker that is receiving. */
  ghost predicate LockInv<T, R>(s: State<T, R>)
  {
    && (s.lock.Some? ==> s.lock.value < |s.workers|)
    && forall i: nat :: i < |s.workers| ==> (s.workers[i].Receiving? <==> s.lock == Some(i))
  }

  /** A permit is held only for the stage that asked for it. */
  ghost predicate HoldingInv<T, R>(s: State<T, R>)
  {
    forall i :: 0 <= i < |s.workers| && s.workers[i].Working? && s.workers[i].holding ==> s.workers[i].todo != []
  }

  /** Both channels and the worker pool stay within their bounds. */
  ghost predicate BoundsInv<T, R>(c: Config<T, R>, s: State<T, R>)
  {
    && |s.workers| == Workers(c)
    && |s.input| <= InputCapacity(c)
    && |s.output| <= OutputCapacity(c)
  }

  /** Every permit of the pool is either free or held by one worker. */
  ghost predicate PoolInv<T, R>(c: Config<T, R>, s: State<T, R>, p: Pool)
  {
    s.free.Of(p) + Total(Holders(p), s.workers) == Capacity(c, p)
  }

  ghost predicate PermitsInv<T, R>(c: Config<T, R>, s: State<T, R>)
  {
    forall p: Pool :: PoolInv(c, s, p)
  }

  /** Every result is the outcome of its item. */
  ghost predicate ResultsInv<T, R>(c: Config<T, R>, s: State<T, R>)
  {
    && (forall i :: 0 <= i < |s.workers| && s.workers[i].Sending? ==> s.workers[i].result == c.outcome(s.workers[i].item))
    && (forall i :: 0 <= i < |s.output| ==> s.output[i].1 == c.outcome(s.output[i].0))
    && (forall i :: 0 <= i < |s.drained| ==> s.drained[i].1 == c.outcome(s.drained[i].0))
  }

  /** The producer closes only when done, and without cancellation a worker exits only after that. */
  ghost predicate ShutdownInv<T, R>(s: State<T, R>)
  {
    && (s.closed ==> s.pending == [])
    && (!s.cancelled ==>
          && s.lost == []
          && forall i :: 0 <= i < |s.workers| && s.workers[i].Exited? ==> s.closed && s.input == [])
  }

  ghost predicate Inv<T, R>(c: Config<T, R>, items: seq<T>, s: State<T, R>)
  {
    && LockInv(s)
    && HoldingInv(s)
    && BoundsInv(c, s)
    && PermitsInv(c, s)
    && ResultsInv(c, s)
    && ShutdownInv(s)
    && Everywhere(s) == multiset(items)
  }

  lemma StepKeepsLock<T, R>(c: Config<T, R>, s: State<T, R>, step: Step)
    requires LockInv(s) && Enabled(c, s, step)
    ensures LockInv(Apply(c, s, step))
  {
  }

  lemma StepKeepsHolding<T, R>(c: Config<T, R>, s: State<T, R>, step: Step)
    requires HoldingInv(s) && Enabled(c, s, step)
    ensures HoldingInv(Apply(c, s, step))
  {
  }

  lemma StepKeepsBounds<T, R>(c: Config<T, R>, s: State<T, R>, step: Step)
    requires BoundsInv(c, s) && Enabled(c, s, step)
    ensures BoundsInv(c, Apply(c, s, step))
  {
  }

  /** One move changes one pool by exactly what its worker takes or gives back. */
  lemma MoveKeepsPool<T, R>(c: Config<T, R>, s: State<T, R>, w: nat, me: Worker<T, R>, a: Action, p: Pool)
    requires CanAct(c, s, me, a) && (me.Working? && me.holding ==> me.todo != [])
    ensures Effect(c, s, w, me, a).free.Of(p) + Reading(Holders(p), Moved(c, s, me, a)) == s.free.Of(p) + Reading(Holders(p), me)
  {
  }

  lemma StepKeepsPermits<T, R>(c: Config<T, R>, s: State<T, R>, step: Step)
    requires HoldingInv(s) && PermitsInv(c, s) && Enabled(c, s, step)
    ensures PermitsInv(c, Apply(c, s, step))
  {
    if step.Move? {
      var me := s.workers[step.w];
      forall p: Pool ensures PoolInv(c, Apply(c, s, step), p) {
        assert PoolInv(c, s, p);
        TotalUpdate(Holders(p), s.workers, step.w, Moved(c, s, me, step.action));
        MoveKeepsPool(c, s, step.w, me, step.action, p);
      }
    } else {
      forall p: Pool ensures PoolInv(c, Apply(c, s, step), p) {
        assert PoolInv(c, s, p);
      }
    }
  }

  lemma StepKeepsResults<T, R>(c: Config<T, R>, s: State<T, R>, step: Step)
    requires ResultsInv(c, s) && Enabled(c, s, step)
    ensures ResultsInv(c, Apply(c, s, step))
  {
  }

  lemma StepKeepsShutdown<T, R>(c: Config<T, R>, s: State<T, R>, step: Step)
    requires ShutdownInv(s) && BoundsInv(c, s) && Enabled(c, s, step)
    ensures ShutdownInv(Apply(c, s, step))
  {
    if step.Abandon? {
      assert s.workers[0].Exited?;
    }
  }

  lemma StepKeepsInv<T, R>(c: Config<T, R>, items: seq<T>, s: State<T, R>, step: Step)
    requires Inv(c, items, s) && Enabled(c, s, step)
    ensures Inv(c, items, Apply(c, s, step))
  {
    StepKeepsLock(c, s, step);
    StepKeepsHolding(c, s, step);
    StepKeepsBounds(c, s, step);
    StepKeepsPermits(c, s, step);
    StepKeepsResults(c, s, step);
    StepKeepsShutdown(c, s, step);
    StepConserves(c, s, step);
  }

  lemma {:induction false} HeldNone<T, R>(ws: seq<Worker<T, R>>)
    requires forall i :: 0 <= i < |ws| ==> !ws[i].Occupied()
    ensures Held(ws) == multiset{}
  {
    if ws != [] {
      HeldNone(ws[..|ws| - 1]);
    }
  }

  lemma InitialInv<T, R>(c: Config<T, R>, items: seq<T>)
    ensures Inv(c, items, Initial(c, items))
  {
    var s := Initial(c, items);
    HeldNone(s.workers);
    forall p: Pool ensures PoolInv(c, s, p) {
      TotalZero(Holders(p), s.workers);
    }
  }

  // ---- Schedules ----

  /** Each step is enabled when its turn comes. */
  predicate ValidRun<T, R>(c: Config<T, R>, s: State<T, R>, steps: seq<Step>)
    decreases |steps|
  {
    steps == [] || (Enabled(c, s, steps[0]) && ValidRun(c, Apply(c, s, steps[0]), steps[1..]))
  }

  function RunAll<T, R>(c: Config<T, R>, s: State<T, R>, steps: seq<Step>): State<T, R>
    requires ValidRun(c, s, steps)
    decreases |steps|
  {
    if steps == [] then s else RunAll(c, Apply(c, s, steps[0]), steps[1..])
  }

  lemma {:induction false} RunKeepsInv<T, R>(c: Config<T, R>, items: seq<T>, s: State<T, R>, steps: seq<Step>)
    requires Inv(c, items, s) && ValidRun(c, s, steps)
    ensures Inv(c, items, RunAll(c, s, steps))
    decreases |steps|
  {
    if steps != [] {
      StepKeepsInv(c, items, s, steps[0]);
      RunKeepsInv(c, items, Apply(c, s, steps[0]), steps[1..]);
    }
  }

  /** Exactly-once delivery and the permit accounting hold in every reachable state, cancellations included. */
  lemma EveryScheduleIsSafe<T, R>(c: Config<T, R>, items: seq<T>, steps: seq<Step>)
    requires ValidRun(c, Initial(c, items), steps)
    ensures Inv(c, items, RunAll(c, Initial(c, items), steps))
  {
    InitialInv(c, items);
    RunKeepsInv(c, items, Initial(c, items), steps);
  }

  /** What a worker still asks for is the rest of what its item needs. */
  predicate IsRest(todo: seq<Pool>, needs: seq<Pool>)
  {
    |todo| <= |needs| && todo == needs[|needs| - |todo|..]
  }

  ghost predicate NeedsInv<T, R>(c: Config<T, R>, s: State<T, R>)
  {
    forall i :: 0 <= i < |s.workers| && s.workers[i].Working? ==> IsRest(s.workers[i].todo, c.needs(s.workers[i].item))
  }

  lemma StepKeepsNeeds<T, R>(c: Config<T, R>, s: State<T, R>, step: Step)
    requires NeedsInv(c, s) && Enabled(c, s, step)
    ensures NeedsInv(c, Apply(c, s, step))
  {
    if step.Move? {
      var me := s.workers[step.w];
      assert me.Working? ==> IsRest(me.todo, c.needs(me.item));
    }
  }

  lemma {:induction false} RunKeepsNeeds<T, R>(c: Config<T, R>, s: State<T, R>, steps: seq<Step>)
    requires NeedsInv(c, s) && ValidRun(c, s, steps)
    ensures NeedsInv(c, RunAll(c, s, steps))
    decreases |steps|
  {
    if steps != [] {
      StepKeepsNeeds(c, s, steps[0]);
      RunKeepsNeeds(c, Apply(c, s, steps[0]), steps[1..]);
    }
  }

  lemma {:induction false} HeldHas<T, R>(ws: seq<Worker<T, R>>, i: nat)
    requires i < |ws| && ws[i].Occupied()
    ensures ws[i].item in Held(ws)
  {
    if i < |ws| - 1 {
      HeldHas(ws[..|ws| - 1], i);
    }
  }

  /** In every schedule a worker only ever holds a permit that its own item needs. */
  lemma PermitIsNeeded<T, R>(c: Config<T, R>, items: seq<T>, steps: seq<Step>, i: nat, p: Pool)
    requires ValidRun(c, Initial(c, items), steps)
    requires i < |RunAll(c, Initial(c, items), steps).workers| && RunAll(c, Initial(c, items), steps).workers[i].Holds(p)
    ensures var me := RunAll(c, Initial(c, items), steps).workers[i]; me.item in items && p in c.needs(me.item)
  {
    var s := RunAll(c, Initial(c, items), steps);
    var me := s.workers[i];
    EveryScheduleIsSafe(c, items, steps);
    RunKeepsNeeds(c, Initial(c, items), steps);
    HeldHas(s.workers, i);
    assert me.item in Everywhere(s);
    assert IsRest(me.todo, c.needs(me.item));
  }

  /** A busy worker holds at most one permit over both pools. */
  lemma {:induction false} OnePermitEach<T, R>(ws: seq<Worker<T, R>>)
    ensures Total(Holders(Download), ws) + Total(Holders(Processing), ws) <= Total(Busy, ws)
  {
    if ws != [] {
      OnePermitEach(ws[..|ws| - 1]);
    }
  }

  /**
   No bound is ever exceeded, whatever the load, in the configuration's own numbers, with 0
   read as 1: the input channel holds at most max_queued items and the result channel the
   larger of max_queued and max_active, there are max_active workers, each pool hands out its
   own configured number of permits, and at most one permit is held for each busy worker.
   */
  lemma ResourceBounds<T, R>(c: Config<T, R>, items: seq<T>, steps: seq<Step>)
    requires ValidRun(c, Initial(c, items), steps)
    ensures var s := RunAll(c, Initial(c, items), steps);
      var queued, active := if c.maxQueued > 0 then c.maxQueued else 1, if c.maxActive > 0 then c.maxActive else 1;
      && |s.input| <= queued && |s.output| <= (if queued >= active then queued else active)
      && |s.workers| == active && |Held(s.workers)| <= active
      && s.free.download + Total(Holders(Download), s.workers) == (if c.maxDownloads > 0 then c.maxDownloads else 1)
      && s.free.processing + Total(Holders(Processing), s.workers) == (if c.maxProcessing > 0 then c.maxProcessing else 1)
      && Total(Holders(Download), s.workers) + Total(Holders(Processing), s.workers) <= |Held(s.workers)|
  {
    EveryScheduleIsSafe(c, items, steps);
    var s := RunAll(c, Initial(c, items), steps);
    HeldCount(s.workers);
    BusyAtMostAll(s.workers);
    OnePermitEach(s.workers);
    assert PoolInv(c, s, Download) && PoolInv(c, s, Processing);
  }
}
