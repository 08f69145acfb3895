/**
 The bounded work queue (queue.rs) together with the two permit pools its workers draw from
 (concurrency.rs), the producer that feeds it and the loop that drains it (pipeline.rs), as
 one system of interleaved atomic steps.
 */
module WorkQueues {
  import opened Wrappers

  datatype Pool = Download | Processing

  /**
   `needs` lists the permits that processing an item asks for, one after the other, and
   `outcome` is what it returns; both are any functions of the item.
   */
  datatype Config<!T, R> = Config(
    maxQueued: nat,
    maxActive: nat,
    maxDownloads: nat,
    maxProcessing: nat,
    needs: T -> seq<Pool>,
    outcome: T -> R)

  function AtLeastOne(n: nat): nat
  {
    if n == 0 then 1 else n
  }

  function Max(a: nat, b: nat): nat
  {
    if a < b then b else a
  }

  function InputCapacity<T, R>(c: Config<T, R>): nat { AtLeastOne(c.maxQueued) }

  function Workers<T, R>(c: Config<T, R>): nat { AtLeastOne(c.maxActive) }

  function OutputCapacity<T, R>(c: Config<T, R>): nat { Max(InputCapacity(c), Workers(c)) }

  function Capacity<T, R>(c: Config<T, R>, p: Pool): nat
  {
    match p
    case Download => AtLeastOne(c.maxDownloads)
    case Processing => AtLeastOne(c.maxProcessing)
  }

  /** How many permits of each pool are free. */
  datatype Permits = Permits(download: nat, processing: nat) {
    function Of(p: Pool): nat
    {
      match p
      case Download => download
      case Processing => processing
    }

    function With(p: Pool, n: nat): Permits
    {
      match p
      case Download => this.(download := n)
      case Processing => this.(processing := n)
    }
  }

  /**
   Where a worker stands in its loop. `Working` still asks for the permits of `todo`
   and holds the first of them while `holding`.
   */
  datatype Worker<T, R> =
    | Waiting
    | Receiving
    | Working(item: T, todo: seq<Pool>, holding: bool)
    | Sending(item: T, result: R)
    | Exited
  {
    predicate Holds(p: Pool)
    {
      Working? && holding && todo != [] && todo[0] == p
    }

    predicate Occupied()
    {
      Working? || Sending?
    }
  }

  datatype State<T, R> = State(
    pending: seq<T>,
    closed: bool,
    input: seq<T>,
    lock: Option<nat>,
    workers: seq<Worker<T, R>>,
    free: Permits,
    output: seq<(T, R)>,
    drained: seq<(T, R)>,
    lost: seq<T>,
    cancelled: bool)

  function Initial<T, R>(c: Config<T, R>, items: seq<T>): State<T, R>
  {
    State(items, false, [], None, seq(Workers(c), _ => Waiting),
          Permits(Capacity(c, Download), Capacity(c, Processing)), [], [], [], false)
  }

  /** What a worker does next in its loop, or its cancellation. */
  datatype Action = TakeLock | Receive | ReceiveClosed | Acquire | Release | Finish | Send | Cancel

  /** The atomic steps of the producer, of the drain loop, and of worker `w`. */
  datatype Step = Enqueue | Close | Abandon | Drain | Move(w: nat, action: Action)

  predicate AllExited<T, R>(s: State<T, R>)
  {
    forall i :: 0 <= i < |s.workers| ==> s.workers[i].Exited?
  }

  /** Whether a worker in the place `me` of its loop can take this action now. */
  predicate CanAct<T, R>(c: Config<T, R>, s: State<T, R>, me: Worker<T, R>, a: Action)
  {
    match a
    case TakeLock => me.Waiting? && s.lock.None?
    case Receive => me.Receiving? && s.input != []
    case ReceiveClosed => me.Receiving? && s.input == [] && s.closed
    case Acquire => me.Working? && !me.holding && me.todo != [] && s.free.Of(me.todo[0]) > 0
    case Release => me.Working? && me.holding && me.todo != []
    case Finish => me.Working? && !me.holding && me.todo == []
    case Send => me.Sending? && |s.output| < OutputCapacity(c)
    case Cancel => !me.Exited?
  }

  predicate Enabled<T, R>(c: Config<T, R>, s: State<T, R>, step: Step)
  {
    match step
    case Enqueue => s.pending != [] && |s.input| < InputCapacity(c) && !AllExited(s)
    case Close => s.pending == [] && !s.closed
    case Abandon => s.pending != [] && AllExited(s)
    case Drain => s.output != []
    case Move(w, a) => w < |s.workers| && CanAct(c, s, s.workers[w], a)
  }

  /** What the moving worker becomes. */
  function Moved<T, R>(c: Config<T, R>, s: State<T, R>, me: Worker<T, R>, a: Action): Worker<T, R>
    requires CanAct(c, s, me, a)
  {
    match a
    case TakeLock => Receiving
    case Receive => Working(s.input[0], c.needs(s.input[0]), false)
    case ReceiveClosed => Exited
    case Acquire => me.(holding := true)
    case Release => me.(holding := false, todo := me.todo[1..])
    case Finish => Sending(me.item, c.outcome(me.item))
    case Send => Waiting
    case Cancel => Exited
  }

  function GiveBack<T, R>(free: Permits, me: Worker<T, R>): Permits
  {
    if me.Working? && me.holding && me.todo != [] then free.With(me.todo[0], free.Of(me.todo[0]) + 1) else free
  }

  /** What else changes when worker `w` moves. */
  function Effect<T, R>(c: Config<T, R>, s: State<T, R>, w: nat, me: Worker<T, R>, a: Action): State<T, R>
    requires CanAct(c, s, me, a)
  {
    match a
    case TakeLock => s.(lock := Some(w))
    case Receive => s.(lock := None, input := s.input[1..])
    case ReceiveClosed => s.(lock := None)
    case Acquire => s.(free := s.free.With(me.todo[0], s.free.Of(me.todo[0]) - 1))
    case Release => s.(free := GiveBack(s.free, me))
    case Finish => s
    case Send => s.(output := s.output + [(me.item, me.result)])
    case Cancel =>
      s.(cancelled := true,
         lock := if me.Receiving? then None else s.lock,
         lost := if me.Occupied() then s.lost + [me.item] else s.lost,
         free := GiveBack(s.free, me))
  }

  function Apply<T, R>(c: Config<T, R>, s: State<T, R>, step: Step): State<T, R>
    requires Enabled(c, s, step)
  {
    match step
    case Enqueue => s.(input := s.input + [s.pending[0]], pending := s.pending[1..])
    case Close => s.(closed := true)
    case Abandon => s.(lost := s.lost + s.pending, pending := [])
    case Drain => s.(output := s.output[1..], drained := s.drained + [s.output[0]])
    case Move(w, a) =>
      Effect(c, s, w, s.workers[w], a).(workers := s.workers[w := Moved(c, s, s.workers[w], a)])
  }

  /** Nothing is left to happen: the producer is done, every worker has exited, every result is drained. */
  predicate Final<T, R>(s: State<T, R>)
  {
    s.closed && AllExited(s) && s.output == []
  }

  // ---- Sums over the workers ----

  datatype Gauge = Effort | Busy | Holders(pool: Pool)

  /**
   What one worker adds to a gauge. `Effort` bounds the steps it can still take before it
   needs a new item: two for each permit, then finishing and sending.
   */
  function Reading<T, R>(g: Gauge, w: Worker<T, R>): nat
  {
    match g
    case Busy => if w.Occupied() then 1 else 0
    case Holders(p) => if w.Holds(p) then 1 else 0
    case Effort =>
      match w
      case Waiting => 2
      case Receiving => 1
      case Working(_, todo, holding) => 6 + 2 * |todo| - if holding then 1 else 0
      case Sending(_, _) => 5
      case Exited => 0
  }

  function Total<T, R>(g: Gauge, ws: seq<Worker<T, R>>): nat
  {
    if ws == [] then 0 else Total(g, ws[..|ws| - 1]) + Reading(g, ws[|ws| - 1])
  }

  lemma {:induction false} TotalUpdate<T, R>(g: Gauge, ws: seq<Worker<T, R>>, i: nat, w: Worker<T, R>)
    requires i < |ws|
    ensures Total(g, ws[i := w]) == Total(g, ws) - Reading(g, ws[i]) + Reading(g, w)
  {
    var ext := ws[i := w];
    if i == |ws| - 1 {
      assert ext[..i] == ws[..i];
    } else {
      assert ext[..|ws| - 1] == ws[..|ws| - 1][i := w];
      TotalUpdate(g, ws[..|ws| - 1], i, w);
    }
  }

  lemma {:induction false} TotalZero<T, R>(g: Gauge, ws: seq<Worker<T, R>>)
    requires forall i :: 0 <= i < |ws| ==> Reading(g, ws[i]) == 0
    ensures Total(g, ws) == 0
  {
    if ws != [] {
      TotalZero(g, ws[..|ws| - 1]);
    }
  }

  lemma {:induction false} BusyAtMostAll<T, R>(ws: seq<Worker<T, R>>)
    ensures Total(Busy, ws) <= |ws|
    ensures Total(Busy, ws) == |ws| <==> forall i :: 0 <= i < |ws| ==> ws[i].Occupied()
  {
    if ws != [] {
      BusyAtMostAll(ws[..|ws| - 1]);
    }
  }

  /** The items the workers hold. */
  function Held<T, R>(ws: seq<Worker<T, R>>): multiset<T>
  {
    if ws == [] then multiset{}
    else Held(ws[..|ws| - 1]) + ItemOf(ws[|ws| - 1])
  }

  function ItemOf<T, R>(w: Worker<T, R>): multiset<T>
  {
    if w.Occupied() then multiset{w.item} else multiset{}
  }

  lemma AddToBoth<T>(a: multiset<T>, b: multiset<T>, mine: multiset<T>, next: multiset<T>, more: multiset<T>)
    requires a + mine == b + next
    ensures (a + more) + mine == (b + more) + next
  {
    assert (a + more) + mine == (a + mine) + more;
    assert (b + more) + next == (b + next) + more;
  }

  lemma {:induction false} HeldUpdate<T, R>(ws: seq<Worker<T, R>>, i: nat, w: Worker<T, R>)
    requires i < |ws|
    ensures Held(ws[i := w]) + ItemOf(ws[i]) == Held(ws) + ItemOf(w)
  {
    var ext, init, last := ws[i := w], ws[..|ws| - 1], |ws| - 1;
    if i == last {
      assert ext[..i] == init;
      AddToBoth(ItemOf(w), ItemOf(ws[i]), ItemOf(ws[i]), ItemOf(w), Held(init));
    } else {
      assert ext[..last] == init[i := w];
      HeldUpdate(init, i, w);
      AddToBoth(Held(init[i := w]), Held(init), ItemOf(ws[i]), ItemOf(w), ItemOf(ws[last]));
    }
  }

  lemma {:induction false} HeldCount<T, R>(ws: seq<Worker<T, R>>)
    ensures |Held(ws)| == Total(Busy, ws)
  {
    if ws != [] {
      HeldCount(ws[..|ws| - 1]);
    }
  }

  /** The items of a list of results. */
  function Items<T, R>(results: seq<(T, R)>): seq<T>
  {
    seq(|results|, i requires 0 <= i < |results| => results[i].0)
  }
}
