/**
 The queue as the running program keeps it: channels, lock, workers and permits updated in
 place, one atomic step per method. A method whose step is not enabled blocks, which here
 means that it reports so and changes nothing.
 */
module WorkPools {
  import opened Wrappers
  import opened WorkQueues
  import opened QueueSafety
  import opened QueueLiveness

  /** A step keeps the invariant and uses up some of the measure; only a cancellation cancels. */
  lemma StepAdvances<T, R>(c: Config<T, R>, items: seq<T>, s: State<T, R>, step: Step)
    requires Inv(c, items, s) && Enabled(c, s, step) && Proper(step)
    ensures Inv(c, items, Apply(c, s, step)) && Measure(c, Apply(c, s, step)) < Measure(c, s)
    ensures Apply(c, s, step).cancelled == s.cancelled
  {
    StepKeepsInv(c, items, s, step);
    StepDrops(c, s, step);
  }

  class WorkPool<T(!new), R(!new)> {
    const c: Config<T, R>
    var pending: seq<T>
    var closed: bool
    var input: seq<T>
    var lock: Option<nat>
    var workers: seq<Worker<T, R>>
    var free: Permits
    var output: seq<(T, R)>
    var drained: seq<(T, R)>
    var lost: seq<T>
    var cancelled: bool

    function View(): State<T, R>
      reads this
    {
      State(pending, closed, input, lock, workers, free, output, drained, lost, cancelled)
    }

    constructor (c: Config<T, R>, items: seq<T>)
      ensures this.c == c && View() == Initial(c, items)
    {
      this.c := c;
      pending, closed, input, lock := items, false, [], None;
      workers := seq(Workers(c), _ => Waiting);
      free := Permits(Capacity(c, Download), Capacity(c, Processing));
      output, drained, lost, cancelled := [], [], [], false;
    }

    /** `ok` says whether the step could be taken; then it has been, and otherwise nothing has changed. */
    twostate predicate Attempted(step: Step, ok: bool)
      reads this
    {
      && ok == Enabled(c, old(View()), step)
      && View() == if ok then Apply(c, old(View()), step) else old(View())
    }

    // ---- The producer ----

    method Enqueue() returns (ok: bool)
      modifies this
      ensures Attempted(Step.Enqueue, ok)
      ensures ok <==>
        && old(pending) != [] && |old(input)| < (if c.maxQueued > 0 then c.maxQueued else 1)
        && exists i :: 0 <= i < |old(workers)| && !old(workers)[i].Exited?
      ensures ok ==> input == old(input) + [old(pending)[0]] && pending == old(pending)[1..]
    {
      if pending == [] || |input| >= InputCapacity(c) || AllExited(View()) {
        return false;
      }
      input := input + [pending[0]];
      pending := pending[1..];
      ok := true;
    }

    method Close() returns (ok: bool)
      modifies this
      ensures Attempted(Step.Close, ok)
    {
      ok := pending == [] && !closed;
      if ok {
        closed := true;
      }
    }

    /** The channel has no receiver left: the producer gives up on what it still has. */
    method Abandon() returns (ok: bool)
      modifies this
      ensures Attempted(Step.Abandon, ok)
    {
      ok := pending != [] && AllExited(View());
      if ok {
        lost := lost + pending;
        pending := [];
      }
    }

    // ---- The drain loop ----

    method Drain() returns (ok: bool)
      modifies this
      ensures Attempted(Step.Drain, ok)
    {
      ok := output != [];
      if ok {
        drained := drained + [output[0]];
        output := output[1..];
      }
    }

    // ---- One worker's loop ----

    method TakeLock(w: nat) returns (ok: bool)
      requires w < |workers|
      modifies this
      ensures Attempted(Move(w, Action.TakeLock), ok)
    {
      ok := workers[w].Waiting? && lock == None;
      if ok {
        lock := Some(w);
        workers := workers[w := Receiving];
      }
    }

    /** `recv` under the lock: an item, or the end of the channel; the lock is free again either way. */
    method Receive(w: nat) returns (ok: bool)
      requires w < |workers|
      modifies this
      ensures var a := if old(input) == [] then ReceiveClosed else Action.Receive; Attempted(Move(w, a), ok)
      ensures ok <==> old(workers)[w].Receiving? && (old(input) != [] || closed)
      ensures ok ==> lock == None
      ensures ok && old(input) == [] ==> workers[w].Exited?
      ensures ok && old(input) != [] ==>
        input == old(input)[1..] && workers[w] == Working(old(input)[0], c.needs(old(input)[0]), false)
    {
      if !workers[w].Receiving? || (input == [] && !closed) {
        return false;
      }
      lock := None;
      if input == [] {
        workers := workers[w := Exited];
      } else {
        var item := input[0];
        input := input[1..];
        workers := workers[w := Working(item, c.needs(item), false)];
      }
      ok := true;
    }

    method Acquire(w: nat) returns (ok: bool)
      requires w < |workers|
      modifies this
      ensures Attempted(Move(w, Action.Acquire), ok)
      ensures ok <==>
        var me := old(workers)[w];
        && me.Working? && !me.holding && me.todo != []
        && 0 < if me.todo[0] == Download then old(free).download else old(free).processing
      ensures ok ==>
        && workers[w] == old(workers)[w].(holding := true)
        && free == if old(workers)[w].todo[0] == Download then old(free).(download := old(free).download - 1)
                   else old(free).(processing := old(free).processing - 1)
    {
      var me := workers[w];
      if !me.Working? || me.holding || me.todo == [] || free.Of(me.todo[0]) == 0 {
        return false;
      }
      free := free.With(me.todo[0], free.Of(me.todo[0]) - 1);
      workers := workers[w := me.(holding := true)];
      ok := true;
    }

    /** The guarded call is over, successfully or not, and its permit goes out of scope. */
    method Release(w: nat) returns (ok: bool)
      requires w < |workers|
      modifies this
      ensures Attempted(Move(w, Action.Release), ok)
      ensures ok <==> old(workers)[w].Working? && old(workers)[w].holding && old(workers)[w].todo != []
      ensures ok ==>
        && workers[w] == old(workers)[w].(holding := false, todo := old(workers)[w].todo[1..])
        && free == if old(workers)[w].todo[0] == Download then old(free).(download := old(free).download + 1)
                   else old(free).(processing := old(free).processing + 1)
    {
      var me := workers[w];
      if !me.Working? || !me.holding || me.todo == [] {
        return false;
      }
      free := free.With(me.todo[0], free.Of(me.todo[0]) + 1);
      workers := workers[w := me.(holding := false, todo := me.todo[1..])];
      ok := true;
    }

    method Finish(w: nat) returns (ok: bool)
      requires w < |workers|
      modifies this
      ensures Attempted(Move(w, Action.Finish), ok)
    {
      var me := workers[w];
      ok := me.Working? && !me.holding && me.todo == [];
      if ok {
        workers := workers[w := Sending(me.item, c.outcome(me.item))];
      }
    }

    method Send(w: nat) returns (ok: bool)
      requires w < |workers|
      modifies this
      ensures Attempted(Move(w, Action.Send), ok)
      ensures ok <==>
        && old(workers)[w].Sending?
        && (|old(output)| < (if c.maxQueued > 0 then c.maxQueued else 1)
            || |old(output)| < (if c.maxActive > 0 then c.maxActive else 1))
      ensures ok ==> output == old(output) + [(old(workers)[w].item, old(workers)[w].result)] && workers[w].Waiting?
    {
      var me := workers[w];
      ok := me.Sending? && |output| < OutputCapacity(c);
      if ok {
        output := output + [(me.item, me.result)];
        workers := workers[w := Waiting];
      }
    }

    /** The worker is dropped mid-flight: lock, permit and item go with it. */
    method Cancel(w: nat) returns (ok: bool)
      requires w < |workers|
      modifies this
      ensures Attempted(Move(w, Action.Cancel), ok)
      ensures ok <==> !old(workers)[w].Exited?
      ensures ok ==>
        && cancelled && workers[w].Exited?
        && (old(workers)[w].Receiving? ==> lock == None)
        && lost == if old(workers)[w].Working? || old(workers)[w].Sending? then old(lost) + [old(workers)[w].item] else old(lost)
    {
      var me := workers[w];
      if me.Exited? {
        return false;
      }
      cancelled := true;
      if me.Receiving? {
        lock := None;
      }
      if me.Occupied() {
        lost := lost + [me.item];
      }
      free := GiveBack(free, me);
      workers := workers[w := Exited];
      ok := true;
    }

    // ---- Whole runs ----

    method Act(w: nat, a: Action) returns (ok: bool)
      requires Enabled(c, View(), Move(w, a))
      modifies this
      ensures Attempted(Move(w, a), ok)
    {
      match a {
        case TakeLock => ok := TakeLock(w);
        case Receive => ok := Receive(w);
        case ReceiveClosed => ok := Receive(w);
        case Acquire => ok := Acquire(w);
        case Release => ok := Release(w);
        case Finish => ok := Finish(w);
        case Send => ok := Send(w);
        case Cancel => ok := Cancel(w);
      }
    }

    method Perform(step: Step) returns (ok: bool)
      requires Enabled(c, View(), step)
      modifies this
      ensures Attempted(step, ok)
    {
      match step {
        case Enqueue => ok := Enqueue();
        case Close => ok := Close();
        case Abandon => ok := Abandon();
        case Drain => ok := Drain();
        case Move(w, a) => ok := Act(w, a);
      }
    }

    /** Chooses an enabled step whenever there is one, and never a cancellation. */
    ghost predicate Schedules(pick: State<T, R> -> Step)
    {
      forall s, step :: Enabled(c, s, step) && Proper(step) ==> Enabled(c, s, pick(s)) && Proper(pick(s))
    }

    /** Under any scheduler at all the run ends, with every item's outcome delivered exactly once. */
    method RunToEnd(pick: State<T, R> -> Step, ghost items: seq<T>)
      requires Schedules(pick)
      requires View() == Initial(c, items)
      modifies this
      ensures Final(View())
      ensures multiset(Items(drained)) == multiset(items) && drained == Outcomes(c, Items(drained))
    {
      InitialInv(c, items);
      while !Final(View())
        invariant Inv(c, items, View()) && !cancelled
        decreases Measure(c, View())
      {
        ghost var possible := Progress(c, items, View());
        var step := pick(View());
        StepAdvances(c, items, View(), step);
        var ok := Perform(step);
      }
      FinalHoldsNothing(c, items, View());
      OutcomesOfItems(c, drained);
    }
  }
}
