/** What a reconciliation pass guarantees, stated of its outcome alone. */
module ReconciliationProperties {
  import opened Wrappers
  import opened Domain
  import opened WorkStates
  import opened Reconciliation

  // ---- Lists ----

  lemma {:induction false} DecidingExactly(rs: seq<UpstreamResource>, cutoff: Option<VersionId>,
          installed: set<VersionId>, recovered: States, d: Decision, v: VersionId)
    ensures v in Deciding(rs, cutoff, installed, recovered, d)
      <==> Mentions(rs, v) && Decide(cutoff, installed, recovered, v) == d
  {
    if rs != [] {
      var init, last := rs[..|rs| - 1], rs[|rs| - 1];
      DecidingExactly(init, cutoff, installed, recovered, d, v);
      assert rs == init + [last];
      MentionsSnoc(init, last, v);
    }
  }

  lemma {:induction false} DecidingOrdered(rs: seq<UpstreamResource>, cutoff: Option<VersionId>,
          installed: set<VersionId>, recovered: States, d: Decision)
    requires SortedByVersion(rs) && DistinctVersions(rs)
    ensures StrictlyIncreasing(Deciding(rs, cutoff, installed, recovered, d))
  {
    if rs != [] {
      var init, last := rs[..|rs| - 1], rs[|rs| - 1];
      DecidingOrdered(init, cutoff, installed, recovered, d);
      forall i | 0 <= i < |Deciding(init, cutoff, installed, recovered, d)|
        ensures Deciding(init, cutoff, installed, recovered, d)[i] < last.version
      {
        var v := Deciding(init, cutoff, installed, recovered, d)[i];
        DecidingExactly(init, cutoff, installed, recovered, d, v);
        var j :| 0 <= j < |init| && init[j].version == v;
        assert rs[j].version == v && rs[j].version <= rs[|rs| - 1].version && rs[j].version != rs[|rs| - 1].version;
      }
    }
  }

  // ---- Distinct versions survive sorting ----

  /** No two resources of the bag share a version. */
  ghost predicate DistinctBag(bag: multiset<UpstreamResource>)
  {
    && (forall x :: x in bag ==> bag[x] == 1)
    && forall x, y :: x in bag && y in bag && x.version == y.version ==> x == y
  }

  lemma {:induction false} DistinctToBag(rs: seq<UpstreamResource>)
    requires DistinctVersions(rs)
    ensures DistinctBag(multiset(rs))
  {
    if rs != [] {
      var init, last := rs[..|rs| - 1], rs[|rs| - 1];
      assert rs == init + [last];
      DistinctToBag(init);
      forall x: UpstreamResource | x in multiset(init) ensures x.version != last.version {
        assert x in init;
        var i :| 0 <= i < |init| && init[i] == x;
        assert rs[i].version != rs[|rs| - 1].version;
      }
    }
  }

  lemma SmallerBagDistinct(bag: multiset<UpstreamResource>, x: UpstreamResource)
    requires DistinctBag(bag + multiset{x})
    ensures DistinctBag(bag)
  {
    forall y | y in bag ensures bag[y] == 1 {
      assert y in bag + multiset{x};
    }
    forall y, z | y in bag && z in bag && y.version == z.version ensures y == z {
      assert y in bag + multiset{x} && z in bag + multiset{x};
    }
  }

  lemma {:induction false} BagToDistinct(rs: seq<UpstreamResource>)
    requires DistinctBag(multiset(rs))
    ensures DistinctVersions(rs)
  {
    if rs != [] {
      var init, last := rs[..|rs| - 1], rs[|rs| - 1];
      assert rs == init + [last];
      assert multiset(rs) == multiset(init) + multiset{last};
      assert multiset(rs)[last] == 1;
      assert last !in multiset(init);
      SmallerBagDistinct(multiset(init), last);
      BagToDistinct(init);
      forall i | 0 <= i < |init| ensures init[i].version != last.version {
        assert init[i] in multiset(init);
      }
    }
  }

  lemma LastIsGreatest(a: seq<UpstreamResource>, x: UpstreamResource)
    requires SortedByVersion(a) && x in multiset(a)
    ensures a != [] && x.version <= a[|a| - 1].version
  {
    assert x in a;
    var i :| 0 <= i < |a| && a[i] == x;
  }

  /** Two such lists end in the same resource, and what comes before has the same contents. */
  lemma SameLast(a: seq<UpstreamResource>, b: seq<UpstreamResource>)
    requires SortedByVersion(a) && SortedByVersion(b) && multiset(a) == multiset(b) && DistinctBag(multiset(a))
    requires a != [] && b != []
    ensures a[|a| - 1] == b[|b| - 1]
    ensures multiset(a[..|a| - 1]) == multiset(b[..|b| - 1]) && DistinctBag(multiset(a[..|a| - 1]))
  {
    var x, y := a[|a| - 1], b[|b| - 1];
    assert x in multiset(a) && y in multiset(b);
    LastIsGreatest(b, x);
    LastIsGreatest(a, y);
    SplitLast(a);
    SplitLast(b);
    SameRest(multiset(a[..|a| - 1]), multiset(b[..|b| - 1]), x);
  }

  lemma SameRest(a: multiset<UpstreamResource>, b: multiset<UpstreamResource>, x: UpstreamResource)
    requires a + multiset{x} == b + multiset{x} && DistinctBag(a + multiset{x})
    ensures a == b && DistinctBag(a)
  {
    SmallerBagDistinct(a, x);
    assert a == a + multiset{x} - multiset{x};
    assert b == b + multiset{x} - multiset{x};
  }

  lemma SplitLast(a: seq<UpstreamResource>)
    requires a != []
    ensures a == a[..|a| - 1] + [a[|a| - 1]]
    ensures multiset(a) == multiset(a[..|a| - 1]) + multiset{a[|a| - 1]}
  {
    assert a == a[..|a| - 1] + [a[|a| - 1]];
  }

  /** A list of distinct versions in order is determined by its contents. */
  lemma {:induction false} SortedIsUnique(a: seq<UpstreamResource>, b: seq<UpstreamResource>)
    requires SortedByVersion(a) && SortedByVersion(b) && multiset(a) == multiset(b) && DistinctBag(multiset(a))
    ensures a == b
    decreases |a|
  {
    assert |a| == |multiset(a)| == |b|;
    if a != [] {
      SameLast(a, b);
      var x, y := a[..|a| - 1], b[..|b| - 1];
      StillSorted(a);
      StillSorted(b);
      SortedIsUnique(x, y);
      SplitLast(a);
      SplitLast(b);
    }
  }

  lemma StillSorted(a: seq<UpstreamResource>)
    requires SortedByVersion(a) && a != []
    ensures SortedByVersion(a[..|a| - 1])
  {
  }

  lemma SortedDistinct(rs: seq<UpstreamResource>)
    requires DistinctVersions(rs)
    ensures DistinctVersions(Sorted(rs))
  {
    DistinctToBag(rs);
    BagToDistinct(Sorted(rs));
  }

  lemma SortedMentions(rs: seq<UpstreamResource>, v: VersionId)
    ensures Mentions(Sorted(rs), v) <==> Mentions(rs, v)
  {
    var s := Sorted(rs);
    if Mentions(s, v) {
      var i :| 0 <= i < |s| && s[i].version == v;
      assert s[i] in multiset(s);
      assert s[i] in rs;
    }
    if Mentions(rs, v) {
      var i :| 0 <= i < |rs| && rs[i].version == v;
      assert rs[i] in multiset(rs);
      assert rs[i] in s;
    }
  }

  // ---- The declarative reading of a pass ----

  /** Listed, not below the cutoff, not installed, and not believed PUBLISHED. */
  predicate IsEligible(resources: seq<UpstreamResource>, cutoff: Option<VersionId>, installed: set<VersionId>,
          states: States, v: VersionId)
  {
    && Mentions(resources, v)
    && (cutoff.None? || v >= cutoff.value)
    && v !in installed
    && !(v in states && states[v].state == WorkState.Published)
  }

  lemma EligibleDecision(resources: seq<UpstreamResource>, cutoff: Option<VersionId>, installed: set<VersionId>,
          states: States, v: VersionId)
    ensures IsEligible(resources, cutoff, installed, states, v)
      <==> Mentions(resources, v) && Decide(cutoff, installed, RecoveredStates(states), v) == Eligible
  {
  }

  /** `eligible` is exactly the eligible versions, oldest first, each once when the list has no duplicates. */
  lemma EligibleExactly(o: ReconcileOutcome, resources: seq<UpstreamResource>, cutoff: Option<VersionId>,
          installed: set<VersionId>, states: States, now: nat)
    requires MeetsSpec(o, resources, cutoff, installed, states, now)
    ensures forall v :: v in o.eligible <==> IsEligible(resources, cutoff, installed, states, v)
    ensures DistinctVersions(resources) ==> StrictlyIncreasing(o.eligible)
  {
    var rs, recovered := Sorted(resources), RecoveredStates(states);
    forall v: VersionId ensures v in o.eligible <==> IsEligible(resources, cutoff, installed, states, v) {
      DecidingExactly(rs, cutoff, installed, recovered, Eligible, v);
      SortedMentions(resources, v);
      EligibleDecision(resources, cutoff, installed, states, v);
    }
    if DistinctVersions(resources) {
      SortedDistinct(resources);
      DecidingOrdered(rs, cutoff, installed, recovered, Eligible);
    }
  }

  /** What being on the eligible list says about a version and its record. */
  lemma EligibleSettled(resources: seq<UpstreamResource>, cutoff: Option<VersionId>, installed: set<VersionId>,
          recovered: States, now: nat, v: VersionId)
    requires v in Deciding(Sorted(resources), cutoff, installed, recovered, Eligible)
    ensures Mentions(resources, v) && v !in installed
    ensures v in recovered ==> recovered[v].state != WorkState.Published
    ensures var settled := SettledStates(Sorted(resources), cutoff, installed, recovered, now);
      && v in settled && settled[v].state == Queued
      && settled[v].version == if v in recovered then recovered[v].version else v
  {
    var rs := Sorted(resources);
    DecidingExactly(rs, cutoff, installed, recovered, Eligible, v);
    RecordedExactly(rs, cutoff, installed, recovered, v);
    SortedMentions(resources, v);
  }

  /** Every eligible version has a QUEUED record that a worker can claim, and a listed resource to work from. */
  lemma EligibleAreClaimable(o: ReconcileOutcome, resources: seq<UpstreamResource>, cutoff: Option<VersionId>,
          installed: set<VersionId>, states: States, now: nat, v: VersionId, worker: Option<string>, start: nat)
    requires MeetsSpec(o, resources, cutoff, installed, states, now) && v in o.eligible
    ensures Mentions(resources, v)
    ensures v in o.states && o.states[v].state == Queued && Accepts(o.states[v], Start(worker, start))
  {
    EligibleSettled(resources, cutoff, installed, RecoveredStates(states), now, v);
  }

  /** The records of a pass, one version at a time. */
  lemma RecordAfter(o: ReconcileOutcome, resources: seq<UpstreamResource>, cutoff: Option<VersionId>,
          installed: set<VersionId>, states: States, now: nat, v: VersionId)
    requires MeetsSpec(o, resources, cutoff, installed, states, now)
    ensures var rs, recovered := Sorted(resources), RecoveredStates(states);
      && (v in o.states <==> v in Recorded(rs, cutoff, installed, recovered))
      && (v in o.states ==> o.states[v] == Settled(rs, cutoff, installed, recovered, now, v))
  {
  }

  lemma UnlistedNotRecorded(rs: seq<UpstreamResource>, cutoff: Option<VersionId>, installed: set<VersionId>,
          recovered: States, now: nat, v: VersionId)
    requires !Mentions(rs, v) || !Acts(Decide(cutoff, installed, recovered, v))
    ensures v in Recorded(rs, cutoff, installed, recovered) <==> v in recovered
    ensures v in recovered ==> Settled(rs, cutoff, installed, recovered, now, v) == recovered[v]
  {
    if Mentions(rs, v) {
      assert !Acts(Decide(cutoff, installed, recovered, v));
    }
  }

  /** Records of versions that are not listed, below the cutoff or diverged change only by stale-RUNNING recovery. */
  lemma OthersOnlyRecovered(o: ReconcileOutcome, resources: seq<UpstreamResource>, cutoff: Option<VersionId>,
          installed: set<VersionId>, states: States, now: nat, v: VersionId)
    requires MeetsSpec(o, resources, cutoff, installed, states, now)
    requires !Mentions(resources, v) || !Acts(Decide(cutoff, installed, RecoveredStates(states), v))
    ensures v in o.states <==> v in states
    ensures v in states ==> o.states[v] == Recovered(states[v])
  {
    SortedMentions(resources, v);
    RecordAfter(o, resources, cutoff, installed, states, now, v);
    UnlistedNotRecorded(Sorted(resources), cutoff, installed, RecoveredStates(states), now, v);
  }

  // ---- What becomes of each record ----

  /** A record that was RUNNING has no live owner: it is QUEUED again, without owner or start time. */
  predicate Requeued(before: Record, r: Record)
  {
    r == if before.state == Running then before.(state := Queued, workerId := None, startedAt := None) else before
  }

  lemma RecoveredRequeues(r: Record)
    ensures Requeued(r, Recovered(r))
  {
  }

  /** This is the URL of the first resource that lists the version. */
  predicate FirstListedUrl(resources: seq<UpstreamResource>, v: VersionId, url: string)
  {
    exists i :: 0 <= i < |resources| && resources[i].version == v && resources[i].downloadUrl == url
      && forall j :: 0 <= j < i ==> resources[j].version != v
  }

  lemma {:induction false} FirstUrlIsFirst(rs: seq<UpstreamResource>, v: VersionId)
    requires Mentions(rs, v)
    ensures FirstListedUrl(rs, v, FirstUrl(rs, v))
  {
    var init, last := rs[..|rs| - 1], rs[|rs| - 1];
    assert rs == init + [last];
    MentionsSnoc(init, last, v);
    if Mentions(init, v) {
      FirstUrlIsFirst(init, v);
      var i :| 0 <= i < |init| && init[i].version == v && init[i].downloadUrl == FirstUrl(init, v)
        && forall j :: 0 <= j < i ==> init[j].version != v;
      assert rs[i].version == v;
    } else {
      assert rs[|rs| - 1].version == v;
      forall j | 0 <= j < |rs| - 1 ensures rs[j].version != v {
        assert init[j] == rs[j];
      }
    }
  }

  /** The resources listing `v`, in list order. */
  function Listing(rs: seq<UpstreamResource>, v: VersionId): seq<UpstreamResource>
  {
    if rs == [] then [] else (if rs[0].version == v then [rs[0]] else []) + Listing(rs[1..], v)
  }

  lemma {:induction false} ListingSnoc(rs: seq<UpstreamResource>, r: UpstreamResource, v: VersionId)
    ensures Listing(rs + [r], v) == Listing(rs, v) + if r.version == v then [r] else []
  {
    if rs == [] {
      assert rs + [r] == [r] && [r][1..] == [];
    } else {
      assert (rs + [r])[1..] == rs[1..] + [r];
      ListingSnoc(rs[1..], r, v);
    }
  }

  lemma {:induction false} InsertComesLast(rs: seq<UpstreamResource>, r: UpstreamResource, v: VersionId)
    requires SortedByVersion(rs)
    ensures Listing(Insert(rs, r), v) == Listing(rs, v) + if r.version == v then [r] else []
  {
    if rs == [] || r.version < rs[0].version {
      assert ([r] + rs)[1..] == rs;
      if r.version == v {
        NoneListing(rs, v);
      }
    } else {
      InsertComesLast(rs[1..], r, v);
      assert ([rs[0]] + Insert(rs[1..], r))[1..] == Insert(rs[1..], r);
    }
  }

  lemma {:induction false} NoneListing(rs: seq<UpstreamResource>, v: VersionId)
    requires forall i :: 0 <= i < |rs| ==> rs[i].version != v
    ensures Listing(rs, v) == []
  {
    if rs != [] {
      NoneListing(rs[1..], v);
    }
  }

  /** The sort is stable: the resources listing one version stay in upstream's order. */
  lemma {:induction false} SortIsStable(rs: seq<UpstreamResource>, v: VersionId)
    ensures Listing(Sorted(rs), v) == Listing(rs, v)
  {
    if rs != [] {
      var init, last := rs[..|rs| - 1], rs[|rs| - 1];
      assert rs == init + [last];
      SortIsStable(init, v);
      InsertComesLast(Sorted(init), last, v);
      ListingSnoc(init, last, v);
    }
  }

  lemma {:induction false} FirstOfListing(rs: seq<UpstreamResource>, v: VersionId, url: string)
    ensures FirstListedUrl(rs, v, url) <==> Listing(rs, v) != [] && Listing(rs, v)[0].downloadUrl == url
  {
    if rs != [] {
      FirstOfListing(rs[1..], v, url);
      if rs[0].version == v {
        if FirstListedUrl(rs, v, url) {
          var i :| 0 <= i < |rs| && rs[i].version == v && rs[i].downloadUrl == url
            && forall j :: 0 <= j < i ==> rs[j].version != v;
          assert i == 0;
        }
      } else {
        FirstInTail(rs, v, url);
      }
    }
  }

  lemma FirstInTail(rs: seq<UpstreamResource>, v: VersionId, url: string)
    requires rs != [] && rs[0].version != v
    ensures FirstListedUrl(rs, v, url) <==> FirstListedUrl(rs[1..], v, url)
  {
    var tail := rs[1..];
    if FirstListedUrl(rs, v, url) {
      var i :| 0 <= i < |rs| && rs[i].version == v && rs[i].downloadUrl == url
        && forall j :: 0 <= j < i ==> rs[j].version != v;
      assert tail[i - 1] == rs[i];
      forall j | 0 <= j < i - 1 ensures tail[j].version != v {
        assert tail[j] == rs[j + 1];
      }
    }
    if FirstListedUrl(tail, v, url) {
      var i :| 0 <= i < |tail| && tail[i].version == v && tail[i].downloadUrl == url
        && forall j :: 0 <= j < i ==> tail[j].version != v;
      assert rs[i + 1] == tail[i];
      forall j | 0 <= j < i + 1 ensures rs[j].version != v {
        assert j > 0 ==> rs[j] == tail[j - 1];
      }
    }
  }

  lemma SortedUrl(resources: seq<UpstreamResource>, v: VersionId, url: string)
    requires FirstListedUrl(Sorted(resources), v, url)
    ensures FirstListedUrl(resources, v, url)
  {
    SortIsStable(resources, v);
    FirstOfListing(resources, v, url);
    FirstOfListing(Sorted(resources), v, url);
  }

  /** What a pass starts from for `v`: its record, recovered, or a new one that was never tried. */
  predicate StartsFrom(resources: seq<UpstreamResource>, states: States, v: VersionId, r: Record)
  {
    if v in states then Requeued(states[v], r)
    else
      && r.version == v && FirstListedUrl(resources, v, r.sourceUrl) && r.state == Discovered && r.attempt == 0
      && r.workerId == None && r.startedAt == None && r.completedAt == None && r.lastError == None
  }

  lemma RecordStarts(resources: seq<UpstreamResource>, states: States, v: VersionId)
    requires Mentions(resources, v)
    ensures var rs := Sorted(resources);
      StartsFrom(resources, states, v, RecordFor(RecoveredStates(states), v, FirstUrl(rs, v)))
  {
    SortedMentions(resources, v);
    FirstUrlIsFirst(Sorted(resources), v);
    SortedUrl(resources, v, FirstUrl(Sorted(resources), v));
    if v in states {
      RecoveredRequeues(states[v]);
    }
  }

  lemma ObservedAsPublished(r: Record, now: nat)
    ensures After(r, ReconcileAsPublished(now))
      == if r.state == WorkState.Published then r
         else r.(state := WorkState.Published, workerId := None, completedAt := Some(now))
  {
  }

  lemma InstalledSettles(o: ReconcileOutcome, resources: seq<UpstreamResource>, cutoff: Option<VersionId>,
          installed: set<VersionId>, states: States, now: nat, v: VersionId)
    requires MeetsSpec(o, resources, cutoff, installed, states, now)
    requires Mentions(resources, v) && v in installed && (cutoff.None? || cutoff.value <= v)
    ensures var before := RecordFor(RecoveredStates(states), v, FirstUrl(Sorted(resources), v));
      v in o.states && o.states[v] == After(before, ReconcileAsPublished(now))
  {
    RecordAfter(o, resources, cutoff, installed, states, now, v);
    SortedMentions(resources, v);
  }

  /** What a pass starts from was PUBLISHED exactly if the record was, and has its attempts and last error. */
  lemma StartsAs(resources: seq<UpstreamResource>, states: States, v: VersionId, r: Record)
    requires StartsFrom(resources, states, v, r)
    ensures r.state == WorkState.Published <==> v in states && states[v].state == WorkState.Published
    ensures r.state == WorkState.Published ==> r == states[v]
    ensures r.attempt == (if v in states then states[v].attempt else 0)
    ensures r.lastError == (if v in states then states[v].lastError else None)
  {
  }

  /**
   A listed version at or above the cutoff whose snapshot is installed has a PUBLISHED record
   after the pass: the very same one if it was PUBLISHED before; otherwise its record or a new
   one, with no owner and completed now, its attempts and last error untouched.
   */
  lemma InstalledIsPublished(o: ReconcileOutcome, resources: seq<UpstreamResource>, cutoff: Option<VersionId>,
          installed: set<VersionId>, states: States, now: nat, v: VersionId) returns (before: Record)
    requires MeetsSpec(o, resources, cutoff, installed, states, now)
    requires Mentions(resources, v) && v in installed && (cutoff.None? || cutoff.value <= v)
    ensures v in o.states && o.states[v].state == WorkState.Published
    ensures v in states && states[v].state == WorkState.Published ==> o.states[v] == states[v]
    ensures !(v in states && states[v].state == WorkState.Published) ==>
      && StartsFrom(resources, states, v, before)
      && o.states[v] == before.(state := WorkState.Published, workerId := None, completedAt := Some(now))
      && o.states[v].attempt == (if v in states then states[v].attempt else 0)
      && o.states[v].lastError == (if v in states then states[v].lastError else None)
  {
    before := RecordFor(RecoveredStates(states), v, FirstUrl(Sorted(resources), v));
    InstalledSettles(o, resources, cutoff, installed, states, now, v);
    RecordStarts(resources, states, v);
    StartsAs(resources, states, v, before);
    ObservedAsPublished(before, now);
  }

  /** An eligible version's record is QUEUED, and otherwise its record or a new one. */
  lemma EligibleIsQueued(o: ReconcileOutcome, resources: seq<UpstreamResource>, cutoff: Option<VersionId>,
          installed: set<VersionId>, states: States, now: nat, v: VersionId) returns (before: Record)
    requires MeetsSpec(o, resources, cutoff, installed, states, now) && v in o.eligible
    ensures StartsFrom(resources, states, v, before)
    ensures v in o.states && o.states[v] == before.(state := Queued)
  {
    before := RecordFor(RecoveredStates(states), v, FirstUrl(Sorted(resources), v));
    DecidingExactly(Sorted(resources), cutoff, installed, RecoveredStates(states), Eligible, v);
    RecordAfter(o, resources, cutoff, installed, states, now, v);
    SortedMentions(resources, v);
    RecordStarts(resources, states, v);
  }

  /** Every other record is only requeued if it was RUNNING, and no other version gets one. */
  lemma OthersAreRequeued(o: ReconcileOutcome, resources: seq<UpstreamResource>, cutoff: Option<VersionId>,
          installed: set<VersionId>, states: States, now: nat, v: VersionId)
    requires MeetsSpec(o, resources, cutoff, installed, states, now)
    requires v !in o.eligible && !(Mentions(resources, v) && v in installed && (cutoff.None? || cutoff.value <= v))
    ensures v in o.states <==> v in states
    ensures v in states ==> Requeued(states[v], o.states[v])
  {
    DecidingExactly(Sorted(resources), cutoff, installed, RecoveredStates(states), Eligible, v);
    SortedMentions(resources, v);
    OthersOnlyRecovered(o, resources, cutoff, installed, states, now, v);
    if v in states {
      RecoveredRequeues(states[v]);
    }
  }

  /** Each list of the outcome, by what is listed, installed and recorded. */
  lemma ListsExactly(o: ReconcileOutcome, resources: seq<UpstreamResource>, cutoff: Option<VersionId>,
          installed: set<VersionId>, states: States, now: nat, v: VersionId)
    requires MeetsSpec(o, resources, cutoff, installed, states, now)
    ensures v in o.ignoredBelowCutoff <==> Mentions(resources, v) && cutoff.Some? && v < cutoff.value
    ensures v in o.divergedPublishedWithoutFilesystem <==>
      && Mentions(resources, v) && (cutoff.None? || cutoff.value <= v) && v !in installed
      && v in states && states[v].state == WorkState.Published
    ensures v in o.recoveredFromStaleRunning <==> v in states && states[v].state == Running
  {
    var rs, recovered := Sorted(resources), RecoveredStates(states);
    DecidingExactly(rs, cutoff, installed, recovered, BelowCutoff, v);
    DecidingExactly(rs, cutoff, installed, recovered, Diverged, v);
    SortedMentions(resources, v);
  }

  lemma SettledPublished(rs: seq<UpstreamResource>, cutoff: Option<VersionId>, installed: set<VersionId>,
          recovered: States, now: nat, v: VersionId)
    requires v in recovered || Mentions(rs, v)
    requires Settled(rs, cutoff, installed, recovered, now, v).state == WorkState.Published
    ensures v in installed || (v in recovered && recovered[v].state == WorkState.Published)
  {
  }

  lemma SettledVersion(rs: seq<UpstreamResource>, cutoff: Option<VersionId>, installed: set<VersionId>,
          recovered: States, now: nat, v: VersionId)
    requires v in recovered || Mentions(rs, v)
    requires v in recovered ==> recovered[v].version == v
    ensures Settled(rs, cutoff, installed, recovered, now, v).version == v
  {
  }

  /** A PUBLISHED record either was one before, or belongs to an installed version. */
  lemma PublishedOnlyIfInstalled(o: ReconcileOutcome, resources: seq<UpstreamResource>, cutoff: Option<VersionId>,
          installed: set<VersionId>, states: States, now: nat, v: VersionId)
    requires MeetsSpec(o, resources, cutoff, installed, states, now)
    requires v in o.states && o.states[v].state == WorkState.Published
    ensures v in installed || (v in states && states[v].state == WorkState.Published)
  {
    RecordAfter(o, resources, cutoff, installed, states, now, v);
    SettledPublished(Sorted(resources), cutoff, installed, RecoveredStates(states), now, v);
  }

  /** When every PUBLISHED record belongs to an installed version, nothing diverges. */
  lemma NothingDiverges(o: ReconcileOutcome, resources: seq<UpstreamResource>, cutoff: Option<VersionId>,
          installed: set<VersionId>, states: States, now: nat)
    requires MeetsSpec(o, resources, cutoff, installed, states, now)
    requires forall v :: v in states && states[v].state == WorkState.Published ==> v in installed
    ensures o.divergedPublishedWithoutFilesystem == []
  {
    NoneDecided(Sorted(resources), cutoff, installed, RecoveredStates(states), Diverged);
  }

  lemma NoneDecided(rs: seq<UpstreamResource>, cutoff: Option<VersionId>, installed: set<VersionId>, recovered: States,
          d: Decision)
    requires forall v :: Decide(cutoff, installed, recovered, v) != d
    ensures Deciding(rs, cutoff, installed, recovered, d) == []
  {
    if rs != [] {
      NoneDecided(rs[..|rs| - 1], cutoff, installed, recovered, d);
    }
  }

  // ---- When is a version offered only once? ----

  /** How often upstream lists the version. */
  function TimesListed(rs: seq<UpstreamResource>, v: VersionId): nat
  {
    if rs == [] then 0 else TimesListed(rs[1..], v) + if rs[0].version == v then 1 else 0
  }

  lemma {:induction false} TimesListedConcat(a: seq<UpstreamResource>, b: seq<UpstreamResource>, v: VersionId)
    ensures TimesListed(a + b, v) == TimesListed(a, v) + TimesListed(b, v)
  {
    if a == [] {
      assert a + b == b;
    } else {
      assert (a + b)[1..] == a[1..] + b;
      TimesListedConcat(a[1..], b, v);
    }
  }

  lemma TimesListedSnoc(a: seq<UpstreamResource>, r: UpstreamResource, v: VersionId)
    ensures TimesListed(a + [r], v) == TimesListed(a, v) + if r.version == v then 1 else 0
  {
    TimesListedConcat(a, [r], v);
    assert [r][1..] == [];
  }

  lemma {:induction false} InsertLists(rs: seq<UpstreamResource>, r: UpstreamResource, v: VersionId)
    ensures TimesListed(Insert(rs, r), v) == TimesListed(rs, v) + if r.version == v then 1 else 0
  {
    if rs == [] || r.version < rs[0].version {
      assert ([r] + rs)[1..] == rs;
    } else {
      InsertLists(rs[1..], r, v);
      assert ([rs[0]] + Insert(rs[1..], r))[1..] == Insert(rs[1..], r);
    }
  }

  lemma SortedSnoc(rs: seq<UpstreamResource>, r: UpstreamResource)
    ensures Sorted(rs + [r]) == Insert(Sorted(rs), r)
  {
    assert (rs + [r])[..|rs|] == rs;
  }

  lemma {:induction false} SortedLists(rs: seq<UpstreamResource>, v: VersionId)
    ensures TimesListed(Sorted(rs), v) == TimesListed(rs, v)
  {
    if rs != [] {
      SortedLists(rs[..|rs| - 1], v);
      SplitLast(rs);
      SortedListsSnoc(rs[..|rs| - 1], rs[|rs| - 1], v);
    }
  }

  lemma SortedListsSnoc(rs: seq<UpstreamResource>, r: UpstreamResource, v: VersionId)
    requires TimesListed(Sorted(rs), v) == TimesListed(rs, v)
    ensures TimesListed(Sorted(rs + [r]), v) == TimesListed(rs + [r], v)
  {
    SortedSnoc(rs, r);
    InsertLists(Sorted(rs), r, v);
    TimesListedSnoc(rs, r, v);
  }

  /** A decided version is on its list as often as it is listed upstream. */
  lemma {:induction false} DecidingCounts(rs: seq<UpstreamResource>, cutoff: Option<VersionId>,
          installed: set<VersionId>, recovered: States, d: Decision, v: VersionId)
    ensures multiset(Deciding(rs, cutoff, installed, recovered, d))[v]
      == if Decide(cutoff, installed, recovered, v) == d then TimesListed(rs, v) else 0
  {
    if rs != [] {
      var init, last := rs[..|rs| - 1], rs[|rs| - 1];
      DecidingCounts(init, cutoff, installed, recovered, d, v);
      TimesListedSnoc(init, last, v);
      assert rs == init + [last];
    }
  }

  predicate Nondecreasing(s: seq<VersionId>)
  {
    forall i, j :: 0 <= i < j < |s| ==> s[i] <= s[j]
  }

  lemma {:induction false} DecidingNondecreasing(rs: seq<UpstreamResource>, cutoff: Option<VersionId>,
          installed: set<VersionId>, recovered: States, d: Decision)
    requires SortedByVersion(rs)
    ensures Nondecreasing(Deciding(rs, cutoff, installed, recovered, d))
  {
    if rs != [] {
      var init, last := rs[..|rs| - 1], rs[|rs| - 1];
      var s := Deciding(init, cutoff, installed, recovered, d);
      DecidingNondecreasing(init, cutoff, installed, recovered, d);
      forall i | 0 <= i < |s| ensures s[i] <= last.version {
        DecidingExactly(init, cutoff, installed, recovered, d, s[i]);
        var j :| 0 <= j < |init| && init[j].version == s[i];
        assert rs[j].version <= rs[|rs| - 1].version;
      }
    }
  }

  lemma IncreasingIffOnce(s: seq<VersionId>)
    requires Nondecreasing(s)
    ensures StrictlyIncreasing(s) <==> forall v :: multiset(s)[v] <= 1
  {
    if StrictlyIncreasing(s) {
      forall v: VersionId ensures multiset(s)[v] <= 1 {
        OnceInIncreasing(s, v);
      }
    } else {
      var i, j :| 0 <= i < j < |s| && s[i] >= s[j];
      assert s == s[..j] + [s[j]] + s[j + 1..];
      assert s[i] in s[..j];
      assert multiset(s)[s[i]] >= 2;
    }
  }

  lemma OnceInIncreasing(s: seq<VersionId>, v: VersionId)
    requires StrictlyIncreasing(s)
    ensures multiset(s)[v] <= 1
  {
    if v in s {
      var k :| 0 <= k < |s| && s[k] == v;
      assert s == s[..k] + [s[k]] + s[k + 1..];
      assert v !in s[..k] && v !in s[k + 1..];
    }
  }

  /**
   Each eligible version is offered to the queue only once if and only if upstream does not
   list an eligible version twice: the pass itself does not remove duplicates.
   */
  lemma OfferedOnceIff(o: ReconcileOutcome, resources: seq<UpstreamResource>, cutoff: Option<VersionId>,
          installed: set<VersionId>, states: States, now: nat)
    requires MeetsSpec(o, resources, cutoff, installed, states, now)
    ensures StrictlyIncreasing(o.eligible)
      <==> forall v :: IsEligible(resources, cutoff, installed, states, v) ==> TimesListed(resources, v) <= 1
  {
    var rs, recovered := Sorted(resources), RecoveredStates(states);
    DecidingNondecreasing(rs, cutoff, installed, recovered, Eligible);
    IncreasingIffOnce(o.eligible);
    forall v: VersionId ensures multiset(o.eligible)[v] <= 1
      <==> (IsEligible(resources, cutoff, installed, states, v) ==> TimesListed(resources, v) <= 1)
    {
      EligibleCount(resources, cutoff, installed, states, v);
    }
  }

  lemma EligibleCount(resources: seq<UpstreamResource>, cutoff: Option<VersionId>, installed: set<VersionId>,
          states: States, v: VersionId)
    ensures multiset(Deciding(Sorted(resources), cutoff, installed, RecoveredStates(states), Eligible))[v]
      == if IsEligible(resources, cutoff, installed, states, v) then TimesListed(resources, v) else 0
  {
    DecidingCounts(Sorted(resources), cutoff, installed, RecoveredStates(states), Eligible, v);
    SortedLists(resources, v);
    ListedIffMentioned(resources, v);
    EligibleDecision(resources, cutoff, installed, states, v);
  }

  lemma {:induction false} ListedIffMentioned(rs: seq<UpstreamResource>, v: VersionId)
    ensures TimesListed(rs, v) > 0 <==> Mentions(rs, v)
  {
    if rs != [] {
      ListedIffMentioned(rs[1..], v);
      if Mentions(rs[1..], v) {
        var i :| 0 <= i < |rs[1..]| && rs[1..][i].version == v;
        assert rs[i + 1].version == v;
      }
      if Mentions(rs, v) && rs[0].version != v {
        var i :| 0 <= i < |rs| && rs[i].version == v;
        assert rs[1..][i - 1].version == v;
      }
    }
  }

  // ---- Idempotence ----

  lemma {:induction false} DecidingSame(rs: seq<UpstreamResource>, cutoff: Option<VersionId>,
          installed: set<VersionId>, a: States, b: States, d: Decision)
    requires forall v :: Mentions(rs, v) ==> Decide(cutoff, installed, a, v) == Decide(cutoff, installed, b, v)
    ensures Deciding(rs, cutoff, installed, a, d) == Deciding(rs, cutoff, installed, b, d)
  {
    if rs != [] {
      var init, last := rs[..|rs| - 1], rs[|rs| - 1];
      assert rs == init + [last];
      forall v: VersionId | Mentions(init, v) ensures Mentions(rs, v) {
        MentionsSnoc(init, last, v);
      }
      assert Mentions(rs, last.version);
      DecidingSame(init, cutoff, installed, a, b, d);
    }
  }

  /** Decisions do not change when the settled records are fed back. */
  lemma DecideAgain(rs: seq<UpstreamResource>, cutoff: Option<VersionId>, installed: set<VersionId>, recovered: States,
          now: nat, v: VersionId)
    ensures var settled := SettledStates(rs, cutoff, installed, recovered, now);
      Decide(cutoff, installed, settled, v) == Decide(cutoff, installed, recovered, v)
  {
  }

  lemma SettledNotRunning(rs: seq<UpstreamResource>, cutoff: Option<VersionId>, installed: set<VersionId>,
          states: States, now: nat)
    ensures var settled := SettledStates(rs, cutoff, installed, RecoveredStates(states), now);
      RecoveredStates(settled) == settled && forall v :: v in settled ==> settled[v].state != Running
  {
    var recovered := RecoveredStates(states);
    var settled := SettledStates(rs, cutoff, installed, recovered, now);
    forall v | v in settled ensures settled[v].state != Running {
      assert v in recovered ==> recovered[v].state != Running;
    }
  }

  lemma SettledAgainAt(rs: seq<UpstreamResource>, cutoff: Option<VersionId>, installed: set<VersionId>,
          recovered: States, now: nat, later: nat, u: VersionId)
    ensures var settled := SettledStates(rs, cutoff, installed, recovered, now);
      SettledAt(settled, rs, cutoff, installed, settled, later, u)
  {
    RecordedExactly(rs, cutoff, installed, recovered, u);
    DecideAgain(rs, cutoff, installed, recovered, now, u);
  }

  /** Settling settled records again changes nothing, at any later time. */
  lemma SettledAgain(rs: seq<UpstreamResource>, cutoff: Option<VersionId>, installed: set<VersionId>,
          recovered: States, now: nat, later: nat)
    ensures var settled := SettledStates(rs, cutoff, installed, recovered, now);
      SettledStates(rs, cutoff, installed, settled, later) == settled
  {
    var settled := SettledStates(rs, cutoff, installed, recovered, now);
    forall u: VersionId ensures SettledAt(settled, rs, cutoff, installed, settled, later, u) {
      SettledAgainAt(rs, cutoff, installed, recovered, now, later, u);
    }
    SettledEverywhere(settled, rs, cutoff, installed, settled, later);
  }

  lemma NonEmptyHasMember(s: seq<VersionId>)
    ensures s != [] ==> exists v :: v in s
  {
    if s != [] {
      assert s[0] in s;
    }
  }

  lemma NoneRunning(states: States, recovered: seq<VersionId>)
    requires forall v :: v in states ==> states[v].state != Running
    requires RunningIn(states, states.Keys, recovered)
    ensures recovered == []
  {
    NonEmptyHasMember(recovered);
  }

  /**
   Reconciliation is idempotent: for any prior records, duplicates in the list included,
   running it again at any time on its own output reproduces the records and every list,
   and recovers nothing.
   */
  lemma ReconcileIdempotent(o: ReconcileOutcome, again: ReconcileOutcome, resources: seq<UpstreamResource>,
          cutoff: Option<VersionId>, installed: set<VersionId>, states: States, now: nat, later: nat)
    requires MeetsSpec(o, resources, cutoff, installed, states, now)
    requires MeetsSpec(again, resources, cutoff, installed, o.states, later)
    ensures again.states == o.states && again.eligible == o.eligible
    ensures again.ignoredBelowCutoff == o.ignoredBelowCutoff
    ensures again.divergedPublishedWithoutFilesystem == o.divergedPublishedWithoutFilesystem
    ensures again.recoveredFromStaleRunning == []
  {
    var rs, recovered := Sorted(resources), RecoveredStates(states);
    SettledNotRunning(rs, cutoff, installed, states, now);
    SettledAgain(rs, cutoff, installed, recovered, now, later);
    forall v: VersionId ensures Decide(cutoff, installed, o.states, v) == Decide(cutoff, installed, recovered, v) {
      DecideAgain(rs, cutoff, installed, recovered, now, v);
    }
    DecidingSame(rs, cutoff, installed, o.states, recovered, Eligible);
    DecidingSame(rs, cutoff, installed, o.states, recovered, BelowCutoff);
    DecidingSame(rs, cutoff, installed, o.states, recovered, Diverged);
    NoneRunning(o.states, again.recoveredFromStaleRunning);
  }

  lemma {:induction false} IncreasingIsUnique(a: seq<VersionId>, b: seq<VersionId>)
    requires StrictlyIncreasing(a) && StrictlyIncreasing(b)
    requires forall v :: v in a <==> v in b
    ensures a == b
  {
    if a == [] {
      assert forall i :: 0 <= i < |b| ==> b[i] in b;
    } else {
      assert a[|a| - 1] in b;
      assert b != [];
      assert b[|b| - 1] in a;
      var m, n := |a| - 1, |b| - 1;
      assert a[m] == b[n];
      forall v: VersionId ensures v in a[..m] <==> v in b[..n] {
        assert v in a[..m] ==> v in a && v < a[m];
        assert v in b[..n] ==> v in b && v < b[n];
        assert v in a && v != a[m] ==> v in a[..m];
        assert v in b && v != b[n] ==> v in b[..n];
      }
      IncreasingIsUnique(a[..m], b[..n]);
    }
  }

  /** For distinct versions the outcome does not depend on the order in which upstream lists them. */
  lemma ReconcileOrderIndependent(o: ReconcileOutcome, p: ReconcileOutcome, resources: seq<UpstreamResource>,
          shuffled: seq<UpstreamResource>, cutoff: Option<VersionId>, installed: set<VersionId>, states: States,
          now: nat)
    requires DistinctVersions(resources) && multiset(shuffled) == multiset(resources)
    requires MeetsSpec(o, resources, cutoff, installed, states, now)
    requires MeetsSpec(p, shuffled, cutoff, installed, states, now)
    ensures o == p
  {
    DistinctToBag(resources);
    SortedIsUnique(Sorted(resources), Sorted(shuffled));
    IncreasingIsUnique(o.recoveredFromStaleRunning, p.recoveredFromStaleRunning);
  }
}
