/**
 The reconciliation pass (reconcile.rs): which listed versions this run should process,
 and what the control-plane records become.
 */
module Reconciliation {
  import opened Wrappers
  import opened Domain
  import opened Manifest
  import opened WorkStates

  type States = map<VersionId, Record>

  datatype ReconcileOutcome = ReconcileOutcome(
    states: States,
    eligible: seq<VersionId>,
    ignoredBelowCutoff: seq<VersionId>,
    recoveredFromStaleRunning: seq<VersionId>,
    divergedPublishedWithoutFilesystem: seq<VersionId>)

  // ---- Order ----

  predicate StrictlyIncreasing(s: seq<VersionId>)
  {
    forall i, j :: 0 <= i < j < |s| ==> s[i] < s[j]
  }

  predicate SortedByVersion(rs: seq<UpstreamResource>)
  {
    forall i, j :: 0 <= i < j < |rs| ==> rs[i].version <= rs[j].version
  }

  predicate DistinctVersions(rs: seq<UpstreamResource>)
  {
    forall i, j :: 0 <= i < j < |rs| ==> rs[i].version != rs[j].version
  }

  /** Places `r` after every resource of the same or a smaller version. */
  function Insert(rs: seq<UpstreamResource>, r: UpstreamResource): seq<UpstreamResource>
  {
    if rs == [] || r.version < rs[0].version then [r] + rs
    else [rs[0]] + Insert(rs[1..], r)
  }

  lemma {:induction false} InsertKeepsAll(rs: seq<UpstreamResource>, r: UpstreamResource)
    ensures multiset(Insert(rs, r)) == multiset(rs) + multiset{r}
  {
    if rs != [] && rs[0].version <= r.version {
      InsertKeepsAll(rs[1..], r);
      assert rs == [rs[0]] + rs[1..];
    }
  }

  lemma SortedCons(x: UpstreamResource, rest: seq<UpstreamResource>)
    requires SortedByVersion(rest) && forall i :: 0 <= i < |rest| ==> x.version <= rest[i].version
    ensures SortedByVersion([x] + rest)
  {
  }

  lemma {:induction false} InsertSorts(rs: seq<UpstreamResource>, r: UpstreamResource)
    requires SortedByVersion(rs)
    ensures SortedByVersion(Insert(rs, r))
  {
    if rs == [] || r.version < rs[0].version {
      SortedCons(r, rs);
    } else {
      var rest := Insert(rs[1..], r);
      InsertSorts(rs[1..], r);
      InsertKeepsAll(rs[1..], r);
      forall i | 0 <= i < |rest| ensures rs[0].version <= rest[i].version {
        assert rest[i] in multiset(rest);
        assert rest[i] == r || rest[i] in rs[1..];
      }
      SortedCons(rs[0], rest);
    }
  }

  /** A stable sort by version. */
  function Sorted(rs: seq<UpstreamResource>): (out: seq<UpstreamResource>)
    ensures SortedByVersion(out) && multiset(out) == multiset(rs)
  {
    if rs == [] then []
    else
      assert rs == rs[..|rs| - 1] + [rs[|rs| - 1]];
      InsertSorts(Sorted(rs[..|rs| - 1]), rs[|rs| - 1]);
      InsertKeepsAll(Sorted(rs[..|rs| - 1]), rs[|rs| - 1]);
      Insert(Sorted(rs[..|rs| - 1]), rs[|rs| - 1])
  }

  // ---- Stale RUNNING records ----

  /** A record that no live worker can own is requeued. */
  function Recovered(r: Record): Record
  {
    if r.state == Running then After(r, RecoverStaleRunning) else r
  }

  function RecoveredStates(states: States): States
  {
    map v | v in states :: Recovered(states[v])
  }

  predicate IsLeast(v: VersionId, s: set<VersionId>)
  {
    v in s && forall u :: u in s ==> v <= u
  }

  lemma {:induction false} LeastExists(s: set<VersionId>) returns (v: VersionId)
    requires s != {}
    ensures IsLeast(v, s)
  {
    var x :| x in s;
    var rest := s - {x};
    assert s == rest + {x};
    if rest == {} {
      v := x;
    } else {
      var y := LeastExists(rest);
      v := if x < y then x else y;
    }
  }

  /** The versions of `done` whose record was RUNNING, in order. */
  ghost predicate RunningIn(states: States, done: set<VersionId>, recovered: seq<VersionId>)
  {
    StrictlyIncreasing(recovered) && forall v :: v in recovered <==> v in done && v in states && states[v].state == Running
  }

  lemma RunningNext(states: States, done: set<VersionId>, recovered: seq<VersionId>, v: VersionId)
    requires RunningIn(states, done, recovered) && v in states && AllBelow(done, {v})
    ensures RunningIn(states, done + {v}, if states[v].state == Running then recovered + [v] else recovered)
  {
    forall i | 0 <= i < |recovered| ensures recovered[i] < v {
      assert recovered[i] in recovered;
    }
  }

  /** The records of `done` are recovered, the others are as they were. */
  ghost predicate HalfRecovered(states: States, done: set<VersionId>, out: States)
  {
    out == map v | v in states :: if v in done then Recovered(states[v]) else states[v]
  }

  predicate AllBelow(done: set<VersionId>, todo: set<VersionId>)
  {
    forall v, u :: v in done && u in todo ==> v < u
  }

  lemma BelowNext(done: set<VersionId>, todo: set<VersionId>, v: VersionId)
    requires AllBelow(done, todo) && IsLeast(v, todo)
    ensures AllBelow(done, {v}) && AllBelow(done + {v}, todo - {v})
  {
    forall x, u | x in done + {v} && u in todo - {v} ensures x < u {
      assert v <= u;
    }
  }

  /** Visits the records in version order and requeues the RUNNING ones. */
  method RecoverAllStaleRunning(states: States) returns (out: States, recovered: seq<VersionId>)
    ensures out == RecoveredStates(states)
    ensures RunningIn(states, states.Keys, recovered)
  {
    out, recovered := states, [];
    var todo := states.Keys;
    ghost var done := {};
    while todo != {}
      invariant done + todo == states.Keys
      invariant HalfRecovered(states, done, out)
      invariant RunningIn(states, done, recovered)
      invariant AllBelow(done, todo)
    {
      ghost var least := LeastExists(todo);
      var v :| v in todo && IsLeast(v, todo);
      assert v in done + todo;
      BelowNext(done, todo, v);
      assert done + {v} + (todo - {v}) == done + todo;
      RunningNext(states, done, recovered, v);
      if out[v].state == Running {
        out := out[v := After(out[v], RecoverStaleRunning)];
        recovered := recovered + [v];
      }
      todo := todo - {v};
      done := done + {v};
    }
    assert done == states.Keys;
  }

  // ---- The decision for one listed version ----

  datatype Decision = BelowCutoff | AlreadyInstalled | Diverged | Eligible

  /** What the filesystem, the cutoff and the recovered record say about a listed version. */
  function Decide(cutoff: Option<VersionId>, installed: set<VersionId>, recovered: States, v: VersionId): Decision
  {
    if cutoff.Some? && v < cutoff.value then BelowCutoff
    else if v in installed then AlreadyInstalled
    else if v in recovered && recovered[v].state == WorkState.Published then Diverged
    else Eligible
  }

  predicate Mentions(rs: seq<UpstreamResource>, v: VersionId)
  {
    exists i :: 0 <= i < |rs| && rs[i].version == v
  }

  /** The download URL of the first resource listing `v`. */
  function FirstUrl(rs: seq<UpstreamResource>, v: VersionId): string
  {
    if rs == [] then ""
    else if Mentions(rs[..|rs| - 1], v) then FirstUrl(rs[..|rs| - 1], v)
    else rs[|rs| - 1].downloadUrl
  }

  /** The record a listed version already had, or a new one. */
  function RecordFor(recovered: States, v: VersionId, url: string): Record
  {
    if v in recovered then recovered[v] else NewRecord(v, url)
  }

  predicate Acts(d: Decision)
  {
    d == AlreadyInstalled || d == Eligible
  }

  /** The record after the pass: installed is PUBLISHED, eligible is QUEUED, everything else is only recovered. */
  function Settled(rs: seq<UpstreamResource>, cutoff: Option<VersionId>, installed: set<VersionId>, recovered: States,
                   now: nat, v: VersionId): Record
    requires v in recovered || Mentions(rs, v)
  {
    if !Mentions(rs, v) then recovered[v]
    else
      var r := RecordFor(recovered, v, FirstUrl(rs, v));
      match Decide(cutoff, installed, recovered, v)
      case AlreadyInstalled => After(r, ReconcileAsPublished(now))
      case Eligible => r.(state := Queued)
      case _ => r
  }

  /** The versions that have a record after the pass. */
  function Recorded(rs: seq<UpstreamResource>, cutoff: Option<VersionId>, installed: set<VersionId>, recovered: States): set<VersionId>
  {
    recovered.Keys + set i | 0 <= i < |rs| && Acts(Decide(cutoff, installed, recovered, rs[i].version)) :: rs[i].version
  }

  function SettledStates(rs: seq<UpstreamResource>, cutoff: Option<VersionId>, installed: set<VersionId>,
          recovered: States, now: nat): States
  {
    map v | v in Recorded(rs, cutoff, installed, recovered) :: Settled(rs, cutoff, installed, recovered, now, v)
  }

  /** The listed versions, in list order, on which the decision is `d`. */
  function Deciding(rs: seq<UpstreamResource>, cutoff: Option<VersionId>, installed: set<VersionId>, recovered: States,
          d: Decision): seq<VersionId>
  {
    if rs == [] then []
    else
      var v := rs[|rs| - 1].version;
      Deciding(rs[..|rs| - 1], cutoff, installed, recovered, d)
        + if Decide(cutoff, installed, recovered, v) == d then [v] else []
  }

  lemma MentionsSnoc(rs: seq<UpstreamResource>, r: UpstreamResource, u: VersionId)
    ensures Mentions(rs + [r], u) <==> Mentions(rs, u) || u == r.version
    ensures FirstUrl(rs + [r], u) == if Mentions(rs, u) then FirstUrl(rs, u) else r.downloadUrl
  {
    var ext := rs + [r];
    assert ext[..|rs|] == rs && ext[|rs|] == r;
    if Mentions(rs, u) {
      var i :| 0 <= i < |rs| && rs[i].version == u;
      assert ext[i].version == u;
    }
  }

  /** What one more resource does to the records as they stand. */
  function Visited(before: States, r: UpstreamResource, d: Decision, now: nat): States
  {
    var v := r.version;
    var mine := if v in before then before[v] else NewRecord(v, r.downloadUrl);
    match d
    case AlreadyInstalled => before[v := After(mine, ReconcileAsPublished(now))]
    case Eligible => before[v := mine.(state := Queued)]
    case _ => before
  }

  /** `before` holds, for `u`, what settling the versions of `rs` makes of it. */
  predicate SettledAt(before: States, rs: seq<UpstreamResource>, cutoff: Option<VersionId>, installed: set<VersionId>,
                      recovered: States, now: nat, u: VersionId)
  {
    if u in recovered || (Mentions(rs, u) && Acts(Decide(cutoff, installed, recovered, u)))
    then u in before && before[u] == Settled(rs, cutoff, installed, recovered, now, u)
    else u !in before
  }

  lemma SettledSnocAt(before: States, rs: seq<UpstreamResource>, r: UpstreamResource, cutoff: Option<VersionId>,
          installed: set<VersionId>, recovered: States, now: nat, u: VersionId)
    requires SettledAt(before, rs, cutoff, installed, recovered, now, u)
    ensures SettledAt(Visited(before, r, Decide(cutoff, installed, recovered, r.version), now),
                      rs + [r], cutoff, installed, recovered, now, u)
  {
    MentionsSnoc(rs, r, u);
  }

  /** Pointwise settled is settled. */
  lemma SettledEverywhere(m: States, rs: seq<UpstreamResource>, cutoff: Option<VersionId>, installed: set<VersionId>,
                          recovered: States, now: nat)
    requires forall u :: SettledAt(m, rs, cutoff, installed, recovered, now, u)
    ensures m == SettledStates(rs, cutoff, installed, recovered, now)
  {
    forall u: VersionId ensures u in m <==> u in Recorded(rs, cutoff, installed, recovered) {
      RecordedExactly(rs, cutoff, installed, recovered, u);
      assert SettledAt(m, rs, cutoff, installed, recovered, now, u);
    }
    forall u | u in m ensures m[u] == SettledStates(rs, cutoff, installed, recovered, now)[u] {
      assert SettledAt(m, rs, cutoff, installed, recovered, now, u);
    }
  }

  lemma RecordedExactly(rs: seq<UpstreamResource>, cutoff: Option<VersionId>, installed: set<VersionId>,
          recovered: States, u: VersionId)
    ensures u in Recorded(rs, cutoff, installed, recovered)
      <==> u in recovered || (Mentions(rs, u) && Acts(Decide(cutoff, installed, recovered, u)))
  {
    if Mentions(rs, u) {
      var i :| 0 <= i < |rs| && rs[i].version == u;
    }
  }

  // ---- The pass ----

  /** The whole outcome, declaratively; `recovered` lists the requeued RUNNING records. */
  ghost predicate MeetsSpec(o: ReconcileOutcome, resources: seq<UpstreamResource>, cutoff: Option<VersionId>,
                            installed: set<VersionId>, states: States, now: nat)
  {
    var rs, recovered := Sorted(resources), RecoveredStates(states);
    && o.states == SettledStates(rs, cutoff, installed, recovered, now)
    && o.eligible == Deciding(rs, cutoff, installed, recovered, Eligible)
    && o.ignoredBelowCutoff == Deciding(rs, cutoff, installed, recovered, BelowCutoff)
    && o.divergedPublishedWithoutFilesystem == Deciding(rs, cutoff, installed, recovered, Diverged)
    && RunningIn(states, states.Keys, o.recoveredFromStaleRunning)
  }

  /** What the pass relies on about the records as they stand when it reaches `v`. */
  predicate Undisturbed(work: States, cutoff: Option<VersionId>, installed: set<VersionId>, recovered: States,
          v: VersionId)
  {
    && (v in work ==> work[v].state != Running)
    && (Decide(cutoff, installed, recovered, v) == Diverged ==> v in work && work[v].state == WorkState.Published)
    && (Decide(cutoff, installed, recovered, v) == Eligible && v in work ==> work[v].state != WorkState.Published)
  }

  /** The records after visiting `rs` one by one. */
  function Swept(rs: seq<UpstreamResource>, cutoff: Option<VersionId>, installed: set<VersionId>, recovered: States,
          now: nat): States
  {
    if rs == [] then recovered
    else
      var r := rs[|rs| - 1];
      Visited(Swept(rs[..|rs| - 1], cutoff, installed, recovered, now), r, Decide(cutoff, installed, recovered, r.version), now)
  }

  lemma {:induction false} SweptIsSettledAt(rs: seq<UpstreamResource>, cutoff: Option<VersionId>,
          installed: set<VersionId>, recovered: States, now: nat, u: VersionId)
    ensures SettledAt(Swept(rs, cutoff, installed, recovered, now), rs, cutoff, installed, recovered, now, u)
  {
    if rs != [] {
      var init, last := rs[..|rs| - 1], rs[|rs| - 1];
      SweptIsSettledAt(init, cutoff, installed, recovered, now, u);
      SettledSnocAt(Swept(init, cutoff, installed, recovered, now), init, last, cutoff, installed, recovered, now, u);
      assert init + [last] == rs;
    }
  }

  /** Visiting one by one settles every record as the declarative form says. */
  lemma SweptIsSettled(rs: seq<UpstreamResource>, cutoff: Option<VersionId>, installed: set<VersionId>,
          recovered: States, now: nat)
    ensures Swept(rs, cutoff, installed, recovered, now) == SettledStates(rs, cutoff, installed, recovered, now)
  {
    forall u: VersionId ensures SettledAt(Swept(rs, cutoff, installed, recovered, now), rs, cutoff, installed, recovered, now, u) {
      SweptIsSettledAt(rs, cutoff, installed, recovered, now, u);
    }
    SettledEverywhere(Swept(rs, cutoff, installed, recovered, now), rs, cutoff, installed, recovered, now);
  }

  lemma SettledUndisturbed(rs: seq<UpstreamResource>, cutoff: Option<VersionId>, installed: set<VersionId>,
          recovered: States, now: nat, v: VersionId)
    requires v in recovered ==> recovered[v].state != Running
    ensures Undisturbed(SettledStates(rs, cutoff, installed, recovered, now), cutoff, installed, recovered, v)
  {
  }

  lemma SweptUndisturbed(rs: seq<UpstreamResource>, cutoff: Option<VersionId>, installed: set<VersionId>,
          recovered: States, now: nat, v: VersionId)
    requires v in recovered ==> recovered[v].state != Running
    ensures Undisturbed(Swept(rs, cutoff, installed, recovered, now), cutoff, installed, recovered, v)
  {
    SweptIsSettled(rs, cutoff, installed, recovered, now);
    SettledUndisturbed(rs, cutoff, installed, recovered, now, v);
  }

  /** One listed version: updates its record in place and says what was decided. */
  method Visit(work: States, r: UpstreamResource, cutoff: Option<VersionId>, installed: map<VersionId, SnapshotMeta>,
               now: nat, ghost recovered: States) returns (out: States, d: Decision)
    requires Undisturbed(work, cutoff, installed.Keys, recovered, r.version)
    ensures d == Decide(cutoff, installed.Keys, recovered, r.version)
    ensures out == Visited(work, r, d, now)
  {
    var v := r.version;
    out := work;
    if cutoff.Some? && v < cutoff.value {
      return out, BelowCutoff;
    }
    if v in installed {
      var entry := if v in work then work[v] else NewRecord(v, r.downloadUrl);
      out := work[v := After(entry, ReconcileAsPublished(now))];
      return out, AlreadyInstalled;
    }
    d := Eligible;
    if v !in work {
      out := work[v := After(NewRecord(v, r.downloadUrl), Queue)];
    } else {
      match work[v].state {
        case Discovered => out := work[v := After(work[v], Queue)];
        case Queued => assert work[v := work[v]] == work;
        case Running => assert false;
        case Failed => out := work[v := After(work[v], Retry)];
        case Published => d := Diverged;
      }
    }
  }

  /** The versions put on each list by the resources visited so far. */
  ghost predicate ListsSoFar(rs: seq<UpstreamResource>, cutoff: Option<VersionId>, installed: set<VersionId>,
          recovered: States, eligible: seq<VersionId>, ignored: seq<VersionId>, diverged: seq<VersionId>)
  {
    && eligible == Deciding(rs, cutoff, installed, recovered, Eligible)
    && ignored == Deciding(rs, cutoff, installed, recovered, BelowCutoff)
    && diverged == Deciding(rs, cutoff, installed, recovered, Diverged)
  }

  lemma ListsSnoc(rs: seq<UpstreamResource>, r: UpstreamResource, cutoff: Option<VersionId>, installed: set<VersionId>,
          recovered: States, eligible: seq<VersionId>, ignored: seq<VersionId>, diverged: seq<VersionId>)
    requires ListsSoFar(rs, cutoff, installed, recovered, eligible, ignored, diverged)
    ensures var d := Decide(cutoff, installed, recovered, r.version);
      ListsSoFar(rs + [r], cutoff, installed, recovered,
        if d == Eligible then eligible + [r.version] else eligible,
        if d == BelowCutoff then ignored + [r.version] else ignored,
        if d == Diverged then diverged + [r.version] else diverged)
  {
    assert (rs + [r])[..|rs|] == rs;
  }

  lemma SweptSnoc(rs: seq<UpstreamResource>, r: UpstreamResource, cutoff: Option<VersionId>, installed: set<VersionId>,
          recovered: States, now: nat)
    ensures Swept(rs + [r], cutoff, installed, recovered, now)
      == Visited(Swept(rs, cutoff, installed, recovered, now), r, Decide(cutoff, installed, recovered, r.version), now)
  {
    assert (rs + [r])[..|rs|] == rs;
  }

  /** Puts `v` on the list its decision asks for. */
  method Classify(d: Decision, v: VersionId, eligible: seq<VersionId>, ignored: seq<VersionId>,
          diverged: seq<VersionId>)
    returns (e: seq<VersionId>, i: seq<VersionId>, x: seq<VersionId>)
    ensures e == if d == Eligible then eligible + [v] else eligible
    ensures i == if d == BelowCutoff then ignored + [v] else ignored
    ensures x == if d == Diverged then diverged + [v] else diverged
  {
    e, i, x := eligible, ignored, diverged;
    match d {
      case BelowCutoff => i := i + [v];
      case AlreadyInstalled =>
      case Eligible => e := e + [v];
      case Diverged => x := x + [v];
    }
  }

  /** Visits `r` after the resources of `rs`. */
  method VisitNext(work: States, e: seq<VersionId>, i: seq<VersionId>, x: seq<VersionId>, r: UpstreamResource,
          cutoff: Option<VersionId>, installed: map<VersionId, SnapshotMeta>, now: nat,
          ghost rs: seq<UpstreamResource>, ghost recovered: States)
    returns (out: States, eligible: seq<VersionId>, ignored: seq<VersionId>, diverged: seq<VersionId>)
    requires r.version in recovered ==> recovered[r.version].state != Running
    requires work == Swept(rs, cutoff, installed.Keys, recovered, now)
    requires ListsSoFar(rs, cutoff, installed.Keys, recovered, e, i, x)
    ensures out == Swept(rs + [r], cutoff, installed.Keys, recovered, now)
    ensures ListsSoFar(rs + [r], cutoff, installed.Keys, recovered, eligible, ignored, diverged)
  {
    SweptUndisturbed(rs, cutoff, installed.Keys, recovered, now, r.version);
    ListsSnoc(rs, r, cutoff, installed.Keys, recovered, e, i, x);
    SweptSnoc(rs, r, cutoff, installed.Keys, recovered, now);
    var d;
    out, d := Visit(work, r, cutoff, installed, now, recovered);
    eligible, ignored, diverged := Classify(d, r.version, e, i, x);
  }

  /** Visits the listed versions in order, updating the records in place and filling the three lists. */
  method VisitAll(recovered: States, sorted: seq<UpstreamResource>, cutoff: Option<VersionId>,
          installed: map<VersionId, SnapshotMeta>, now: nat)
    returns (work: States, eligible: seq<VersionId>, ignored: seq<VersionId>, diverged: seq<VersionId>)
    requires forall v :: v in recovered ==> recovered[v].state != Running
    ensures work == Swept(sorted, cutoff, installed.Keys, recovered, now)
    ensures ListsSoFar(sorted, cutoff, installed.Keys, recovered, eligible, ignored, diverged)
  {
    work := recovered;
    eligible, ignored, diverged := [], [], [];
    for i := 0 to |sorted|
      invariant work == Swept(sorted[..i], cutoff, installed.Keys, recovered, now)
      invariant ListsSoFar(sorted[..i], cutoff, installed.Keys, recovered, eligible, ignored, diverged)
    {
      assert sorted[..i + 1] == sorted[..i] + [sorted[i]];
      work, eligible, ignored, diverged :=
        VisitNext(work, eligible, ignored, diverged, sorted[i], cutoff, installed, now, sorted[..i], recovered);
    }
    assert sorted[..|sorted|] == sorted;
  }

  lemma VisitedAllMeetsSpec(o: ReconcileOutcome, resources: seq<UpstreamResource>, cutoff: Option<VersionId>,
                            installed: set<VersionId>, states: States, now: nat)
    requires o.states == Swept(Sorted(resources), cutoff, installed, RecoveredStates(states), now)
    requires ListsSoFar(Sorted(resources), cutoff, installed, RecoveredStates(states),
                        o.eligible, o.ignoredBelowCutoff, o.divergedPublishedWithoutFilesystem)
    requires RunningIn(states, states.Keys, o.recoveredFromStaleRunning)
    ensures MeetsSpec(o, resources, cutoff, installed, states, now)
  {
    SweptIsSettled(Sorted(resources), cutoff, installed, RecoveredStates(states), now);
  }

  /** One reconciliation pass. */
  method Reconcile(resources: seq<UpstreamResource>, cutoff: Option<VersionId>, installed: map<VersionId, SnapshotMeta>,
                   states: States, now: nat) returns (o: ReconcileOutcome)
    ensures MeetsSpec(o, resources, cutoff, installed.Keys, states, now)
  {
    var recovered, recoveredFromStaleRunning := RecoverAllStaleRunning(states);
    var sorted := Sorted(resources);
    var work, eligible, ignored, diverged := VisitAll(recovered, sorted, cutoff, installed, now);
    o := ReconcileOutcome(work, eligible, ignored, recoveredFromStaleRunning, diverged);
    VisitedAllMeetsSpec(o, resources, cutoff, installed.Keys, states, now);
  }
}
