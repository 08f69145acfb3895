/** Durable per-version control-plane state (work_state.rs). */
module WorkStates {
  import opened Wrappers
  import opened Domain

  datatype WorkState = Discovered | Queued | Running | Published | Failed

  datatype InvalidTransition = InvalidTransition(from: WorkState, to: WorkState)

  predicate IsValidTransition(from: WorkState, to: WorkState)
  {
    || (from == Discovered && to == Queued)
    || (from == Queued && to == Running)
    || (from == Running && to == Published)
    || (from == Running && to == Failed)
    || (from == Running && to == Queued)
    || (from == Failed && to == Queued)
    || (from == Published && to == Published)
  }

  /** The persisted record of one version; times are opaque numbers. */
  datatype Record = Record(
    version: VersionId,
    sourceUrl: string,
    state: WorkState,
    attempt: nat,
    workerId: Option<string>,
    startedAt: Option<nat>,
    completedAt: Option<nat>,
    lastError: Option<string>)

  function NewRecord(version: VersionId, sourceUrl: string): Record
  {
    Record(version, sourceUrl, Discovered, 0, None, None, None, None)
  }

  /** The lifecycle operations, as seen by one record. */
  datatype WorkOp =
    | Queue
    | Start(worker: Option<string>, startTime: nat)
    | Publish(publishTime: nat)
    | Fail(error: string, failTime: nat)
    | Retry
    | RecoverStaleRunning
    | ReconcileAsPublished(observeTime: nat)

  /** The state an operation asks for. */
  function Target(op: WorkOp): WorkState
  {
    match op
    case Queue => Queued
    case Start(_, _) => Running
    case Publish(_) => Published
    case Fail(_, _) => Failed
    case Retry => Queued
    case RecoverStaleRunning => Queued
    case ReconcileAsPublished(_) => Published
  }

  /** An observation of the filesystem overrides the state graph; everything else obeys it. */
  predicate Accepts(r: Record, op: WorkOp)
  {
    op.ReconcileAsPublished? || IsValidTransition(r.state, Target(op))
  }

  /** The record after an operation; a rejected one changes nothing, nor does publishing twice. */
  function After(r: Record, op: WorkOp): Record
  {
    if !Accepts(r, op) then r
    else
      match op
      case Queue => r.(state := Queued)
      case Start(worker, now) =>
        r.(state := Running, attempt := r.attempt + 1, workerId := worker,
           startedAt := Some(now), completedAt := None, lastError := None)
      case Publish(now) =>
        if r.state == Published then r
        else r.(state := Published, workerId := None, completedAt := Some(now))
      case Fail(error, now) =>
        r.(state := Failed, workerId := None, completedAt := Some(now), lastError := Some(error))
      case Retry => r.(state := Queued)
      case RecoverStaleRunning => r.(state := Queued, workerId := None, startedAt := None)
      case ReconcileAsPublished(now) =>
        if r.state == Published then r
        else r.(state := Published, workerId := None, completedAt := Some(now))
  }

  /** The in-memory record, updated in place. Every method has exactly the effect `After` describes. */
  class VersionWork {
    const version: VersionId
    const sourceUrl: string
    var state: WorkState
    var attempt: nat
    var workerId: Option<string>
    var startedAt: Option<nat>
    var completedAt: Option<nat>
    var lastError: Option<string>

    function View(): Record
      reads this
    {
      Record(version, sourceUrl, state, attempt, workerId, startedAt, completedAt, lastError)
    }

    /** A copy of a persisted record. */
    constructor (r: Record)
      ensures View() == r
    {
      version, sourceUrl := r.version, r.sourceUrl;
      state, attempt := r.state, r.attempt;
      workerId, startedAt, completedAt, lastError := r.workerId, r.startedAt, r.completedAt, r.lastError;
    }

    method Transition(to: WorkState) returns (r: Result<(), InvalidTransition>)
      modifies this`state
      ensures r == if IsValidTransition(old(state), to) then Ok(()) else Err(InvalidTransition(old(state), to))
      ensures state == if r.Ok? then to else old(state)
    {
      if !IsValidTransition(state, to) {
        return Err(InvalidTransition(state, to));
      }
      state := to;
      r := Ok(());
    }

    method QueueUp() returns (r: Result<(), InvalidTransition>)
      modifies this
      ensures View() == After(old(View()), Queue)
      ensures r.Ok? <==> Accepts(old(View()), Queue)
      ensures r.Ok? <==> old(state) in {Discovered, Running, Failed}
      ensures View() == if r.Ok? then old(View()).(state := Queued) else old(View())
    {
      r := Transition(Queued);
    }

    method Begin(worker: Option<string>, now: nat) returns (r: Result<(), InvalidTransition>)
      modifies this
      ensures View() == After(old(View()), Start(worker, now))
      ensures r.Ok? <==> Accepts(old(View()), Start(worker, now))
      ensures r.Ok? <==> old(state) == Queued
      ensures r.Ok? ==>
        && state == Running && attempt == old(attempt) + 1 && workerId == worker
        && startedAt == Some(now) && completedAt == None && lastError == None
      ensures r.Err? ==> View() == old(View())
    {
      r := Transition(Running);
      if r.Err? {
        return;
      }
      attempt := attempt + 1;
      workerId := worker;
      startedAt := Some(now);
      completedAt := None;
      lastError := None;
    }

    method MarkPublished(now: nat) returns (r: Result<(), InvalidTransition>)
      modifies this
      ensures View() == After(old(View()), Publish(now))
      ensures r.Ok? <==> Accepts(old(View()), Publish(now))
      ensures r.Ok? <==> old(state) in {Running, Published}
      ensures old(state) == Running ==>
        View() == old(View()).(state := Published, workerId := None, completedAt := Some(now))
      ensures old(state) != Running ==> View() == old(View())
    {
      if state == Published {
        return Ok(());
      }
      r := Transition(Published);
      if r.Err? {
        return;
      }
      workerId := None;
      completedAt := Some(now);
    }

    method MarkFailed(error: string, now: nat) returns (r: Result<(), InvalidTransition>)
      modifies this
      ensures View() == After(old(View()), Fail(error, now))
      ensures r.Ok? <==> Accepts(old(View()), Fail(error, now))
      ensures r.Ok? <==> old(state) == Running
      ensures r.Ok? ==>
        View() == old(View()).(state := Failed, workerId := None, completedAt := Some(now), lastError := Some(error))
      ensures r.Err? ==> View() == old(View())
    {
      r := Transition(Failed);
      if r.Err? {
        return;
      }
      workerId := None;
      completedAt := Some(now);
      lastError := Some(error);
    }

    method TryAgain() returns (r: Result<(), InvalidTransition>)
      modifies this
      ensures View() == After(old(View()), Retry)
      ensures r.Ok? <==> Accepts(old(View()), Retry)
      ensures r.Ok? <==> old(state) in {Discovered, Running, Failed}
      ensures View() == if r.Ok? then old(View()).(state := Queued) else old(View())
    {
      r := Transition(Queued);
    }

    method RecoverStale() returns (r: Result<(), InvalidTransition>)
      modifies this
      ensures View() == After(old(View()), RecoverStaleRunning)
      ensures r.Ok? <==> Accepts(old(View()), RecoverStaleRunning)
      ensures r.Ok? <==> old(state) in {Discovered, Running, Failed}
      ensures View() ==
        if r.Ok? then old(View()).(state := Queued, workerId := None, startedAt := None) else old(View())
    {
      r := Transition(Queued);
      if r.Err? {
        return;
      }
      workerId := None;
      startedAt := None;
    }

    method ObservePublished(now: nat)
      modifies this
      ensures View() == After(old(View()), ReconcileAsPublished(now))
      ensures state == Published
      ensures View() == if old(state) == Published then old(View())
        else old(View()).(state := Published, workerId := None, completedAt := Some(now))
    {
      if state == Published {
        return;
      }
      state := Published;
      workerId := None;
      completedAt := Some(now);
    }
  }

  // ---- Lives of a record ----

  function AfterOps(r: Record, ops: seq<WorkOp>): Record
  {
    if ops == [] then r else After(AfterOps(r, ops[..|ops| - 1]), ops[|ops| - 1])
  }

  /** How many of the operations were accepted claims. */
  function AcceptedStarts(r: Record, ops: seq<WorkOp>): nat
  {
    if ops == [] then 0
    else
      var before := AfterOps(r, ops[..|ops| - 1]);
      AcceptedStarts(r, ops[..|ops| - 1])
        + if ops[|ops| - 1].Start? && Accepts(before, ops[|ops| - 1]) then 1 else 0
  }

  /** What the record's fields say about its state, whatever operations it went through. */
  predicate Coherent(r: Record)
  {
    && (r.state == Running ==> r.startedAt.Some? && r.completedAt.None? && r.lastError.None? && r.attempt > 0)
    && (r.state == Failed ==> r.completedAt.Some? && r.lastError.Some?)
    && (r.state == Published ==> r.completedAt.Some?)
    && (r.state == Discovered ==> r.attempt == 0)
    && (r.state in {Discovered, Published, Failed} ==> r.workerId.None?)
  }

  /**
   Over any sequence of operations on a new record: `attempt` counts exactly the claims,
   a record's fields fit its state, and its identity never changes.
   */
  lemma {:induction false} RecordLife(v: VersionId, url: string, ops: seq<WorkOp>)
    ensures var r := AfterOps(NewRecord(v, url), ops);
      && r.version == v && r.sourceUrl == url
      && r.attempt == AcceptedStarts(NewRecord(v, url), ops)
      && Coherent(r)
    decreases |ops|
  {
    if ops != [] {
      RecordLife(v, url, ops[..|ops| - 1]);
    }
  }

  /** A claimed record is never requeued as if it were new or failed. */
  predicate NeverRequeuesClaimed(r: Record, ops: seq<WorkOp>)
  {
    forall i :: 0 <= i < |ops| && (ops[i].Queue? || ops[i].Retry?) ==>
      var before := AfterOps(r, ops[..i]); !(before.state == Running && before.workerId.Some?)
  }

  /** Requeuing a RUNNING record that way keeps its owner; nothing else does. */
  lemma {:induction false} OwnedOnlyWhileRunning(v: VersionId, url: string, ops: seq<WorkOp>)
    requires NeverRequeuesClaimed(NewRecord(v, url), ops)
    ensures var r := AfterOps(NewRecord(v, url), ops); r.workerId.Some? ==> r.state == Running
    decreases |ops|
  {
    if ops != [] {
      var earlier := ops[..|ops| - 1];
      forall i | 0 <= i < |earlier| ensures earlier[..i] == ops[..i] {
      }
      OwnedOnlyWhileRunning(v, url, earlier);
      assert ops[|ops| - 1] == ops[|earlier|] && ops[..|earlier|] == earlier;
      RecordLife(v, url, earlier);
    }
  }

  /** PUBLISHED is final: no later operation changes the record. */
  lemma {:induction false} PublishedIsFinal(r: Record, ops: seq<WorkOp>)
    requires r.state == Published
    ensures AfterOps(r, ops) == r
    decreases |ops|
  {
    if ops != [] {
      PublishedIsFinal(r, ops[..|ops| - 1]);
    }
  }

  /** From QUEUED, a claim and then either way of finishing are always accepted. */
  lemma ClaimThenFinish(r: Record, worker: Option<string>, start: nat, end: nat, error: string)
    requires r.state == Queued
    ensures var claimed := After(r, Start(worker, start));
      && Accepts(r, Start(worker, start)) && claimed.state == Running && claimed.version == r.version
      && Accepts(claimed, Publish(end)) && Accepts(claimed, Fail(error, end))
      && After(claimed, Publish(end)).state == Published && After(claimed, Publish(end)).version == r.version
      && After(claimed, Fail(error, end)).state == Failed && After(claimed, Fail(error, end)).version == r.version
  {
  }
}
