/** What the Zurich subset derivation means, independently of how it is computed. */
module SubsetProperties {
  import opened Wrappers
  import opened Tables
  import opened Subset

  // ---- The meaning of the universe ----

  /** The name of the stop is the prefix followed by anything. */
  ghost predicate NameBegins(r: Row, prefix: string)
  {
    exists rest: string :: StopName in r && r[StopName] == Some(prefix + rest)
  }

  lemma NamedWithMeans(r: Row, prefix: string)
    ensures NamedWith(r, prefix) <==> NameBegins(r, prefix)
  {
    if NamedWith(r, prefix) {
      var name := r[StopName].value;
      assert name == prefix + name[|prefix|..];
    }
  }

  /** The id is that of a stop row in Zurich, by the prefix of its name. */
  ghost predicate ZurichStopId(f: Feed, prefix: string, id: string)
  {
    exists r :: r in f.stops && StopId in r && r[StopId] == Some(id) && NameBegins(r, prefix)
  }

  /** A stop row is in the subset, as often as in the snapshot, exactly when its name begins with the prefix. */
  lemma StopUniverse(f: Feed, prefix: string, r: Row)
    ensures r in BuildZurichSubset(f, prefix).stops <==> r in f.stops && NameBegins(r, prefix)
    ensures NameBegins(r, prefix) ==> multiset(BuildZurichSubset(f, prefix).stops)[r] == multiset(f.stops)[r]
  {
    FilterStopsMembers(f.stops, prefix, r);
    NamedWithMeans(r, prefix);
  }

  /** The stop time is at a Zurich stop. */
  ghost predicate AtZurich(f: Feed, prefix: string, r: Row)
  {
    Get(r, StopId).Some? && ZurichStopId(f, prefix, Get(r, StopId).value)
  }

  /** Some stop time of the trip is at a Zurich stop. */
  ghost predicate ServesZurich(f: Feed, prefix: string, trip: string)
  {
    exists r :: r in f.stopTimes && Get(r, TripId) == Some(trip) && AtZurich(f, prefix, r)
  }

  /** Every stop time of the trip is at a Zurich stop. */
  ghost predicate StaysInZurich(f: Feed, prefix: string, trip: string)
  {
    forall r :: r in f.stopTimes && Get(r, TripId) == Some(trip) ==> AtZurich(f, prefix, r)
  }

  lemma {:induction false} FilterStopsMembers(rows: seq<Row>, prefix: string, r: Row)
    ensures r in FilterStops(rows, prefix) <==> r in rows && NamedWith(r, prefix)
    ensures multiset(FilterStops(rows, prefix))[r] == if NamedWith(r, prefix) then multiset(rows)[r] else 0
  {
    if rows != [] {
      FilterStopsMembers(rows[1..], prefix, r);
      assert rows == [rows[0]] + rows[1..];
    }
  }

  lemma StopKeys(f: Feed, prefix: string, id: string)
    ensures id in Keys(BuildStops(f, prefix), StopId) <==> ZurichStopId(f, prefix, id)
  {
    if id in Keys(BuildStops(f, prefix), StopId) {
      var r := KeyOf(BuildStops(f, prefix), StopId, id);
      StopUniverse(f, prefix, r);
    }
    if ZurichStopId(f, prefix, id) {
      var r :| r in f.stops && StopId in r && r[StopId] == Some(id) && NameBegins(r, prefix);
      StopUniverse(f, prefix, r);
    }
  }

  lemma AtZurichIsKey(f: Feed, prefix: string, r: Row)
    ensures HasKey(r, StopId, Keys(BuildStops(f, prefix), StopId)) <==> AtZurich(f, prefix, r)
  {
    if Get(r, StopId).Some? {
      StopKeys(f, prefix, Get(r, StopId).value);
    }
  }

  /** The trip ids are exactly those of the trips that serve Zurich. */
  lemma TripIdsMean(f: Feed, prefix: string, trip: string)
    ensures trip in NonNull(BuildTripIds(f, BuildStops(f, prefix))) <==> ServesZurich(f, prefix, trip)
  {
    var keys := Keys(BuildStops(f, prefix), StopId);
    var at := SemiJoin(f.stopTimes, StopId, keys);
    UniqueCellsExactly(at, TripId);
    if ServesZurich(f, prefix, trip) {
      var r :| r in f.stopTimes && Get(r, TripId) == Some(trip) && AtZurich(f, prefix, r);
      SemiJoinMembers(f.stopTimes, StopId, keys, r);
      AtZurichIsKey(f, prefix, r);
      assert Some(trip) in UniqueCells(at, TripId);
    }
    if trip in NonNull(BuildTripIds(f, BuildStops(f, prefix))) {
      assert Some(trip) in UniqueCells(at, TripId);
      var r :| r in at && Get(r, TripId) == Some(trip);
      SemiJoinMembers(f.stopTimes, StopId, keys, r);
      AtZurichIsKey(f, prefix, r);
    }
  }

  function SubsetTripIds(f: Feed, prefix: string): set<string>
  {
    NonNull(BuildTripIds(f, BuildStops(f, prefix)))
  }

  function SubsetTrips(f: Feed, prefix: string): seq<Row>
  {
    BuildTrips(f, BuildTripIds(f, BuildStops(f, prefix)))
  }

  /** A trip row is in the subset, as often as in the snapshot, exactly when its trip serves Zurich. */
  lemma TripUniverse(f: Feed, prefix: string, r: Row)
    ensures BuildZurichSubset(f, prefix).trips == SubsetTrips(f, prefix)
    ensures r in SubsetTrips(f, prefix) <==>
      r in f.trips && Get(r, TripId).Some? && ServesZurich(f, prefix, Get(r, TripId).value)
    ensures r in SubsetTrips(f, prefix) ==> multiset(SubsetTrips(f, prefix))[r] == multiset(f.trips)[r]
  {
    SemiJoinMembers(f.trips, TripId, SubsetTripIds(f, prefix), r);
    if Get(r, TripId).Some? {
      TripIdsMean(f, prefix, Get(r, TripId).value);
    }
  }

  /** A route row is in the subset exactly when some trip that serves Zurich runs on it. */
  lemma RouteUniverse(f: Feed, prefix: string, r: Row)
    ensures r in BuildRoutes(f, SubsetTrips(f, prefix)) <==>
      r in f.routes && Get(r, RouteId).Some?
      && exists t :: t in SubsetTrips(f, prefix) && Get(t, RouteId) == Get(r, RouteId)
    ensures BuildZurichSubset(f, prefix).routes == BuildRoutes(f, SubsetTrips(f, prefix))
    ensures r in BuildZurichSubset(f, prefix).routes ==>
      multiset(BuildZurichSubset(f, prefix).routes)[r] == multiset(f.routes)[r]
  {
    var trips := SubsetTrips(f, prefix);
    SemiJoinMembers(f.routes, RouteId, Keys(trips, RouteId), r);
    if HasKey(r, RouteId, Keys(trips, RouteId)) {
      var t := KeyOf(trips, RouteId, Get(r, RouteId).value);
    }
  }

  /** The trip ids, each once, are those of the stop times at Zurich stops, a missing one included. */
  lemma TripIdUniverse(f: Feed, prefix: string, x: Cell)
    ensures var ids := BuildZurichSubset(f, prefix).tripIds;
      && (x in ids <==> exists r :: r in f.stopTimes && Get(r, TripId) == x && AtZurich(f, prefix, r))
      && forall i, j :: 0 <= i < j < |ids| ==> ids[i] != ids[j]
  {
    var keys := Keys(BuildStops(f, prefix), StopId);
    var at := SemiJoin(f.stopTimes, StopId, keys);
    UniqueCellsExactly(at, TripId);
    forall r ensures r in at <==> r in f.stopTimes && AtZurich(f, prefix, r) {
      SemiJoinMembers(f.stopTimes, StopId, keys, r);
      AtZurichIsKey(f, prefix, r);
    }
  }

  // ---- Counting equals meaning ----

  function SubsetTripTypes(f: Feed, prefix: string): map<string, TripType>
  {
    TripClassification(f, BuildStops(f, prefix), SubsetTrips(f, prefix))
  }

  lemma SubsetTripServes(f: Feed, prefix: string, trip: string)
    requires trip in Keys(SubsetTrips(f, prefix), TripId)
    ensures ServesZurich(f, prefix, trip)
  {
    var t := KeyOf(SubsetTrips(f, prefix), TripId, trip);
    TripUniverse(f, prefix, t);
  }

  /** The relevant stop times of a subset trip are all its stop times. */
  lemma RelevantOf(f: Feed, ids: set<string>, trip: string, r: Row)
    requires trip in ids
    ensures r in SemiJoin(f.stopTimes, TripId, ids) && Get(r, TripId) == Some(trip)
      <==> r in f.stopTimes && Get(r, TripId) == Some(trip)
  {
    SemiJoinMembers(f.stopTimes, TripId, ids, r);
  }

  /** Equal counts mean that every stop time of the trip is in Zurich. */
  lemma EqualCountsMean(f: Feed, prefix: string, ids: set<string>, trip: string)
    requires trip in ids
    ensures var relevant := SemiJoin(f.stopTimes, TripId, ids);
      var atStops := SemiJoin(relevant, StopId, Keys(BuildStops(f, prefix), StopId));
      CountKey(relevant, TripId, trip) == CountKey(atStops, TripId, trip) <==> StaysInZurich(f, prefix, trip)
  {
    var relevant := SemiJoin(f.stopTimes, TripId, ids);
    CountsAgree(relevant, TripId, trip, StopId, Keys(BuildStops(f, prefix), StopId));
    forall r ensures r in relevant && Get(r, TripId) == Some(trip) <==> r in f.stopTimes && Get(r, TripId) == Some(trip)
             ensures HasKey(r, StopId, Keys(BuildStops(f, prefix), StopId)) <==> AtZurich(f, prefix, r)
    {
      RelevantOf(f, ids, trip, r);
      AtZurichIsKey(f, prefix, r);
    }
  }

  /** A trip that serves Zurich is in both groups of the counting join, so none is lost. */
  lemma BothCounted(f: Feed, prefix: string, ids: set<string>, trip: string)
    requires trip in ids && ServesZurich(f, prefix, trip)
    ensures var relevant := SemiJoin(f.stopTimes, TripId, ids);
      var atStops := SemiJoin(relevant, StopId, Keys(BuildStops(f, prefix), StopId));
      trip in Keys(relevant, TripId) && trip in Keys(atStops, TripId)
  {
    var relevant := SemiJoin(f.stopTimes, TripId, ids);
    var r :| r in f.stopTimes && Get(r, TripId) == Some(trip) && AtZurich(f, prefix, r);
    RelevantOf(f, ids, trip, r);
    AtZurichIsKey(f, prefix, r);
    SemiJoinMembers(relevant, StopId, Keys(BuildStops(f, prefix), StopId), r);
  }

  /** Every subset trip is classified, and as internal exactly when it never leaves Zurich. */
  lemma TripTypeMeans(f: Feed, prefix: string, trip: string)
    requires trip in Keys(SubsetTrips(f, prefix), TripId)
    ensures var types := SubsetTripTypes(f, prefix);
      trip in types && (types[trip] == Internal <==> StaysInZurich(f, prefix, trip))
  {
    var ids := Keys(SubsetTrips(f, prefix), TripId);
    SubsetTripServes(f, prefix, trip);
    BothCounted(f, prefix, ids, trip);
    EqualCountsMean(f, prefix, ids, trip);
  }

  lemma {:induction false} TripsOfTypeMembers(trips: seq<Row>, types: map<string, TripType>, t: TripType, r: Row)
    ensures r in TripsOfType(trips, types, t) <==> r in trips && IsOfType(r, types, t)
    ensures multiset(TripsOfType(trips, types, t))[r] == if IsOfType(r, types, t) then multiset(trips)[r] else 0
  {
    if trips != [] {
      TripsOfTypeMembers(trips[1..], types, t, r);
      assert trips == [trips[0]] + trips[1..];
    }
  }

  /** The trip of this row never leaves Zurich. */
  ghost predicate NeverLeaves(f: Feed, prefix: string, r: Row)
  {
    Get(r, TripId).Some? && StaysInZurich(f, prefix, Get(r, TripId).value)
  }

  /**
   Classification by counting equals its meaning: internal and crossing trips partition the
   subset trips as multisets, and a trip is internal exactly when all its stop times are at
   Zurich stops.
   */
  lemma TripsPartition(f: Feed, prefix: string)
    ensures var s := BuildZurichSubset(f, prefix);
      && multiset(s.internalTrips) + multiset(s.crossingTrips) == multiset(s.trips)
      && (forall r :: r in s.internalTrips <==> r in s.trips && NeverLeaves(f, prefix, r))
      && (forall r :: r in s.crossingTrips <==> r in s.trips && !NeverLeaves(f, prefix, r))
  {
    var s, types := BuildZurichSubset(f, prefix), SubsetTripTypes(f, prefix);
    forall r: Row
      ensures multiset(s.internalTrips)[r] + multiset(s.crossingTrips)[r] == multiset(s.trips)[r]
      ensures r in s.internalTrips <==> r in s.trips && NeverLeaves(f, prefix, r)
      ensures r in s.crossingTrips <==> r in s.trips && !NeverLeaves(f, prefix, r)
    {
      TripTypeOfRow(f, prefix, r);
      TripsOfTypeMembers(s.trips, types, Internal, r);
      TripsOfTypeMembers(s.trips, types, Crossing, r);
    }
  }

  lemma TripTypeOfRow(f: Feed, prefix: string, r: Row)
    ensures r in SubsetTrips(f, prefix) ==>
      && (IsOfType(r, SubsetTripTypes(f, prefix), Internal) <==> NeverLeaves(f, prefix, r))
      && (IsOfType(r, SubsetTripTypes(f, prefix), Crossing) <==> !NeverLeaves(f, prefix, r))
  {
    TripUniverse(f, prefix, r);
    if r in SubsetTrips(f, prefix) {
      TripTypeMeans(f, prefix, Get(r, TripId).value);
    }
  }

  // ---- Routes ----

  predicate OnRoute(r: Row, trip: Row)
  {
    Get(r, RouteId).Some? && Get(trip, RouteId) == Get(r, RouteId)
  }

  /** Some subset trip of this kind runs on the route. */
  predicate RouteHas(s: ZurichSubset, r: Row, t: TripType)
  {
    exists trip :: trip in (if t == Internal then s.internalTrips else s.crossingTrips) && OnRoute(r, trip)
  }

  lemma TypesMean(internalTrips: seq<Row>, crossingTrips: seq<Row>, k: string)
    ensures Internal in TypesOf(internalTrips, crossingTrips, k) <==> k in Keys(internalTrips, RouteId)
    ensures Crossing in TypesOf(internalTrips, crossingTrips, k) <==> k in Keys(crossingTrips, RouteId)
    ensures |TypesOf(internalTrips, crossingTrips, k)| == 1 <==> (k in Keys(internalTrips, RouteId)) != (k in Keys(crossingTrips, RouteId))
  {
    var types := TypesOf(internalTrips, crossingTrips, k);
    assert Internal in types <==> k in Keys(internalTrips, RouteId);
    assert Crossing in types <==> k in Keys(crossingTrips, RouteId);
    if Internal in types && Crossing in types {
      assert types == {Internal, Crossing};
    } else if Internal in types {
      assert types == {Internal};
    } else if Crossing in types {
      assert types == {Crossing};
    } else {
      assert types == {};
    }
  }

  /** A route with trips of one kind has that kind, and one with both is mixed. */
  lemma RouteTypeMeans(internalTrips: seq<Row>, crossingTrips: seq<Row>, k: string)
    ensures var types := RouteClassification(internalTrips, crossingTrips);
      var i, x := k in Keys(internalTrips, RouteId), k in Keys(crossingTrips, RouteId);
      && (k in types <==> i || x)
      && (k in types ==> types[k] == if i && x then MixedRoute else if i then InternalRoute else CrossingRoute)
  {
    TypesMean(internalTrips, crossingTrips, k);
    assert k in Keys(internalTrips + crossingTrips, RouteId) <==> k in Keys(internalTrips, RouteId) || k in Keys(crossingTrips, RouteId);
  }

  lemma {:induction false} RoutesOfTypeMembers(routes: seq<Row>, types: map<string, RouteType>, t: RouteType, r: Row)
    ensures r in RoutesOfType(routes, types, t) <==> r in routes && RouteIsOfType(r, types, t)
    ensures multiset(RoutesOfType(routes, types, t))[r] == if RouteIsOfType(r, types, t) then multiset(routes)[r] else 0
  {
    if routes != [] {
      RoutesOfTypeMembers(routes[1..], types, t, r);
      assert routes == [routes[0]] + routes[1..];
    }
  }

  lemma RouteHasKey(s: ZurichSubset, r: Row, t: TripType)
    ensures RouteHas(s, r, t) <==> HasKey(r, RouteId, Keys(if t == Internal then s.internalTrips else s.crossingTrips, RouteId))
  {
    var trips := if t == Internal then s.internalTrips else s.crossingTrips;
    if HasKey(r, RouteId, Keys(trips, RouteId)) {
      var trip := KeyOf(trips, RouteId, Get(r, RouteId).value);
      assert OnRoute(r, trip);
    }
  }

  /** A subset route has a subset trip, and that trip is internal or crossing. */
  lemma RouteHasSome(f: Feed, prefix: string, r: Row)
    ensures var s := BuildZurichSubset(f, prefix);
      r in s.routes ==> Get(r, RouteId).Some? && (RouteHas(s, r, Internal) || RouteHas(s, r, Crossing))
  {
    var s := BuildZurichSubset(f, prefix);
    RouteUniverse(f, prefix, r);
    TripsPartition(f, prefix);
    if r in s.routes {
      var t :| t in s.trips && Get(t, RouteId) == Get(r, RouteId);
      assert t in s.internalTrips || t in s.crossingTrips;
      assert OnRoute(r, t);
    }
  }

  lemma RouteRow(s: ZurichSubset, types: map<string, RouteType>, r: Row)
    requires types == RouteClassification(s.internalTrips, s.crossingTrips)
    requires Get(r, RouteId).Some? && (RouteHas(s, r, Internal) || RouteHas(s, r, Crossing))
    ensures RouteIsOfType(r, types, InternalRoute) <==> !RouteHas(s, r, Crossing)
    ensures RouteIsOfType(r, types, CrossingRoute) <==> !RouteHas(s, r, Internal)
    ensures RouteIsOfType(r, types, MixedRoute) <==> RouteHas(s, r, Internal) && RouteHas(s, r, Crossing)
  {
    RouteTypeMeans(s.internalTrips, s.crossingTrips, Get(r, RouteId).value);
    RouteHasKey(s, r, Internal);
    RouteHasKey(s, r, Crossing);
  }

  /** Where one route row ends up. */
  lemma RouteGoes(f: Feed, prefix: string, r: Row)
    ensures var s := BuildZurichSubset(f, prefix);
      && multiset(s.internalRoutes)[r] + multiset(s.crossingRoutes)[r] + multiset(s.mixedRoutes)[r] == multiset(s.routes)[r]
      && (r in s.internalRoutes <==> r in s.routes && !RouteHas(s, r, Crossing))
      && (r in s.crossingRoutes <==> r in s.routes && !RouteHas(s, r, Internal))
      && (r in s.mixedRoutes <==> r in s.routes && RouteHas(s, r, Internal) && RouteHas(s, r, Crossing))
  {
    var s := BuildZurichSubset(f, prefix);
    var types := RouteClassification(s.internalTrips, s.crossingTrips);
    RoutesOfTypeMembers(s.routes, types, InternalRoute, r);
    RoutesOfTypeMembers(s.routes, types, CrossingRoute, r);
    RoutesOfTypeMembers(s.routes, types, MixedRoute, r);
    RouteHasSome(f, prefix, r);
    if r in s.routes {
      RouteRow(s, types, r);
    }
  }

  /**
   Routes split into internal, crossing and mixed exactly by the kinds of their subset trips,
   and the inner joins lose none of them.
   */
  lemma RoutesPartition(f: Feed, prefix: string)
    ensures var s := BuildZurichSubset(f, prefix);
      && multiset(s.internalRoutes) + multiset(s.crossingRoutes) + multiset(s.mixedRoutes) == multiset(s.routes)
      && (forall r :: r in s.internalRoutes <==> r in s.routes && !RouteHas(s, r, Crossing))
      && (forall r :: r in s.crossingRoutes <==> r in s.routes && !RouteHas(s, r, Internal))
      && (forall r :: r in s.mixedRoutes <==> r in s.routes && RouteHas(s, r, Internal) && RouteHas(s, r, Crossing))
  {
    var s := BuildZurichSubset(f, prefix);
    forall r: Row
      ensures multiset(s.internalRoutes)[r] + multiset(s.crossingRoutes)[r] + multiset(s.mixedRoutes)[r] == multiset(s.routes)[r]
      ensures r in s.internalRoutes <==> r in s.routes && !RouteHas(s, r, Crossing)
      ensures r in s.crossingRoutes <==> r in s.routes && !RouteHas(s, r, Internal)
      ensures r in s.mixedRoutes <==> r in s.routes && RouteHas(s, r, Internal) && RouteHas(s, r, Crossing)
    {
      RouteGoes(f, prefix, r);
    }
  }

  // ---- Stop times ----

  lemma SplitRow(rows: seq<Row>, c: Column, a: set<string>, b: set<string>, all: set<string>, r: Row)
    requires a !! b && a + b <= all
    ensures multiset(SemiJoin(rows, c, a))[r] + multiset(SemiJoin(rows, c, b))[r]
      == if HasKey(r, c, a + b) then multiset(SemiJoin(rows, c, all))[r] else 0
  {
    SemiJoinMembers(rows, c, a, r);
    SemiJoinMembers(rows, c, b, r);
    SemiJoinMembers(rows, c, all, r);
  }

  /** Two parts make up a whole exactly when nothing of the whole is outside both. */
  lemma PartsMakeWhole(x: multiset<Row>, y: multiset<Row>, z: seq<Row>, c: Column, keys: set<string>)
    requires forall r :: x[r] + y[r] == if HasKey(r, c, keys) then multiset(z)[r] else 0
    ensures x + y == multiset(z) <==> forall r :: r in z ==> HasKey(r, c, keys)
  {
    if forall r :: r in z ==> HasKey(r, c, keys) {
      forall r: Row ensures (x + y)[r] == multiset(z)[r] {
        assert r in z <==> multiset(z)[r] > 0;
      }
    } else {
      var r :| r in z && !HasKey(r, c, keys);
      assert (x + y)[r] == 0 < multiset(z)[r];
    }
  }

  /** Two disjoint key sets inside `all` split the rows, unless some row's key is in neither. */
  lemma SplitRows(rows: seq<Row>, c: Column, a: set<string>, b: set<string>, all: set<string>)
    requires a !! b && a + b <= all
    ensures multiset(SemiJoin(rows, c, a)) + multiset(SemiJoin(rows, c, b)) == multiset(SemiJoin(rows, c, all))
      <==> forall r :: r in SemiJoin(rows, c, all) ==> HasKey(r, c, a + b)
  {
    var x, y := multiset(SemiJoin(rows, c, a)), multiset(SemiJoin(rows, c, b));
    forall r: Row ensures x[r] + y[r] == if HasKey(r, c, a + b) then multiset(SemiJoin(rows, c, all))[r] else 0 {
      SplitRow(rows, c, a, b, all, r);
    }
    PartsMakeWhole(x, y, SemiJoin(rows, c, all), c, a + b);
  }

  /** A trip id is internal or crossing, never both, and is one of a subset trip. */
  lemma TripKeysSplit(f: Feed, prefix: string)
    ensures var s := BuildZurichSubset(f, prefix);
      var i, x := Keys(s.internalTrips, TripId), Keys(s.crossingTrips, TripId);
      i !! x && i + x == Keys(s.trips, TripId) && i + x <= NonNull(s.tripIds)
  {
    var s := BuildZurichSubset(f, prefix);
    TripsPartition(f, prefix);
    forall k ensures k in Keys(s.internalTrips, TripId) <==> k in Keys(s.trips, TripId) && StaysInZurich(f, prefix, k)
             ensures k in Keys(s.crossingTrips, TripId) <==> k in Keys(s.trips, TripId) && !StaysInZurich(f, prefix, k)
             ensures k in Keys(s.trips, TripId) ==> k in NonNull(s.tripIds)
    {
      TripKeySplit(f, prefix, s, k);
    }
  }

  lemma TripKeySplit(f: Feed, prefix: string, s: ZurichSubset, k: string)
    requires s == BuildZurichSubset(f, prefix)
    requires forall r :: r in s.internalTrips <==> r in s.trips && NeverLeaves(f, prefix, r)
    requires forall r :: r in s.crossingTrips <==> r in s.trips && !NeverLeaves(f, prefix, r)
    ensures k in Keys(s.internalTrips, TripId) <==> k in Keys(s.trips, TripId) && StaysInZurich(f, prefix, k)
    ensures k in Keys(s.crossingTrips, TripId) <==> k in Keys(s.trips, TripId) && !StaysInZurich(f, prefix, k)
    ensures k in Keys(s.trips, TripId) ==> k in NonNull(s.tripIds)
  {
    if k in Keys(s.trips, TripId) {
      var r := KeyOf(s.trips, TripId, k);
      assert r in s.internalTrips || r in s.crossingTrips;
      SemiJoinMembers(f.trips, TripId, NonNull(s.tripIds), r);
    }
  }

  /**
   Internal and crossing stop times partition the subset's stop times if and only if every
   subset stop time belongs to a trip of the trips table.
   */
  lemma StopTimesPartitionIff(f: Feed, prefix: string)
    ensures var s := BuildZurichSubset(f, prefix);
      multiset(s.internalStopTimes) + multiset(s.crossingStopTimes) == multiset(s.stopTimes)
        <==> forall r :: r in s.stopTimes ==> HasKey(r, TripId, Keys(f.trips, TripId))
  {
    var s := BuildZurichSubset(f, prefix);
    var i, x := Keys(s.internalTrips, TripId), Keys(s.crossingTrips, TripId);
    TripKeysSplit(f, prefix);
    SplitRows(f.stopTimes, TripId, i, x, NonNull(s.tripIds));
    forall r | r in s.stopTimes ensures HasKey(r, TripId, i + x) <==> HasKey(r, TripId, Keys(f.trips, TripId)) {
      SemiJoinMembers(f.stopTimes, TripId, NonNull(s.tripIds), r);
      SubsetTripKeys(f, NonNull(s.tripIds), Get(r, TripId).value);
    }
  }

  /**
   A stop time is in the subset when its trip serves Zurich, and is internal or crossing by
   whether a listed trip of that id never leaves; each as often as in the snapshot.
   */
  lemma StopTimeUniverse(f: Feed, prefix: string, r: Row)
    ensures var s := BuildZurichSubset(f, prefix);
      var trip := Get(r, TripId);
      && (r in s.stopTimes <==> r in f.stopTimes && trip.Some? && ServesZurich(f, prefix, trip.value))
      && (r in s.internalStopTimes <==>
            r in f.stopTimes && trip.Some? && HasTrip(s, trip.value) && StaysInZurich(f, prefix, trip.value))
      && (r in s.crossingStopTimes <==>
            r in f.stopTimes && trip.Some? && HasTrip(s, trip.value) && !StaysInZurich(f, prefix, trip.value))
      && (r in s.stopTimes ==> multiset(s.stopTimes)[r] == multiset(f.stopTimes)[r])
  {
    var s := BuildZurichSubset(f, prefix);
    SemiJoinMembers(f.stopTimes, TripId, NonNull(s.tripIds), r);
    SemiJoinMembers(f.stopTimes, TripId, Keys(s.internalTrips, TripId), r);
    SemiJoinMembers(f.stopTimes, TripId, Keys(s.crossingTrips, TripId), r);
    TripsPartition(f, prefix);
    if Get(r, TripId).Some? {
      TripIdsMean(f, prefix, Get(r, TripId).value);
      TripKeySplit(f, prefix, s, Get(r, TripId).value);
      HasTripIsKey(s, Get(r, TripId).value);
    }
  }

  /** Some subset trip has this id. */
  predicate HasTrip(s: ZurichSubset, id: string)
  {
    exists t :: t in s.trips && Get(t, TripId) == Some(id)
  }

  lemma HasTripIsKey(s: ZurichSubset, id: string)
    ensures HasTrip(s, id) <==> id in Keys(s.trips, TripId)
  {
    if id in Keys(s.trips, TripId) {
      var t := KeyOf(s.trips, TripId, id);
    }
  }

  lemma SubsetTripKeys(f: Feed, ids: set<string>, k: string)
    requires k in ids
    ensures k in Keys(SemiJoin(f.trips, TripId, ids), TripId) <==> k in Keys(f.trips, TripId)
  {
    if k in Keys(f.trips, TripId) {
      var r := KeyOf(f.trips, TripId, k);
      SemiJoinMembers(f.trips, TripId, ids, r);
    }
    if k in Keys(SemiJoin(f.trips, TripId, ids), TripId) {
      var r := KeyOf(SemiJoin(f.trips, TripId, ids), TripId, k);
      SemiJoinMembers(f.trips, TripId, ids, r);
    }
  }

  /** The stop of every internal stop time is a stop of the subset. */
  lemma InternalStopsAreInSubset(f: Feed, prefix: string, r: Row)
    ensures var s := BuildZurichSubset(f, prefix);
      r in s.internalStopTimes ==> HasKey(r, StopId, Keys(s.stops, StopId))
  {
    var s := BuildZurichSubset(f, prefix);
    if r in s.internalStopTimes {
      SemiJoinMembers(f.stopTimes, TripId, Keys(s.internalTrips, TripId), r);
      TripsPartition(f, prefix);
      var t := KeyOf(s.internalTrips, TripId, Get(r, TripId).value);
      assert StaysInZurich(f, prefix, Get(r, TripId).value);
      AtZurichIsKey(f, prefix, r);
    }
  }

  // ---- Closure ----

  /** The subset's own core tables, as the input of another derivation. */
  function AsFeed(s: ZurichSubset): Feed
  {
    Feed(s.stops, s.routes, s.trips, s.stopTimes)
  }

  lemma {:induction false} FilterStopsTwice(rows: seq<Row>, prefix: string)
    ensures FilterStops(FilterStops(rows, prefix), prefix) == FilterStops(rows, prefix)
  {
    if rows != [] {
      FilterStopsTwice(rows[1..], prefix);
      var rest := FilterStops(rows[1..], prefix);
      if NamedWith(rows[0], prefix) {
        assert ([rows[0]] + rest)[1..] == rest;
      } else {
        assert [] + rest == rest;
      }
    }
  }

  /** The stop times that decide the trip ids, on the derived tables. */
  lemma DerivedAtStops(stopTimes: seq<Row>, stopKeys: set<string>, ids: set<string>)
    requires ids == NonNull(UniqueCells(SemiJoin(stopTimes, StopId, stopKeys), TripId))
    ensures var at, again := SemiJoin(stopTimes, StopId, stopKeys), SemiJoin(SemiJoin(stopTimes, TripId, ids), StopId, stopKeys);
      && again == SemiJoin(at, TripId, ids)
      && NonNull(UniqueCells(again, TripId)) == ids
      && (None !in UniqueCells(at, TripId) ==> again == at)
      && None !in UniqueCells(again, TripId)
  {
    var at := SemiJoin(stopTimes, StopId, stopKeys);
    var again := SemiJoin(at, TripId, ids);
    SemiJoinsCommute(stopTimes, TripId, ids, StopId, stopKeys);
    UniqueCellsExactly(at, TripId);
    UniqueCellsExactly(again, TripId);
    forall r ensures r in again <==> r in at && HasKey(r, TripId, ids) {
      SemiJoinMembers(at, TripId, ids, r);
    }
    forall r | r in at ensures Get(r, TripId) in UniqueCells(at, TripId) {
    }
    forall k ensures k in NonNull(UniqueCells(again, TripId)) <==> k in ids {
      SameKey(at, again, ids, k);
    }
    if None !in UniqueCells(at, TripId) {
      SemiJoinAll(at, TripId, ids);
    }
  }

  lemma SameKey(at: seq<Row>, again: seq<Row>, ids: set<string>, k: string)
    requires forall r :: r in again <==> r in at && HasKey(r, TripId, ids)
    requires forall x :: x in UniqueCells(at, TripId) <==> exists r :: r in at && Get(r, TripId) == x
    requires forall x :: x in UniqueCells(again, TripId) <==> exists r :: r in again && Get(r, TripId) == x
    requires ids == NonNull(UniqueCells(at, TripId))
    ensures k in NonNull(UniqueCells(again, TripId)) <==> k in ids
  {
    if k in ids {
      assert Some(k) in UniqueCells(at, TripId);
      var r :| r in at && Get(r, TripId) == Some(k);
      assert r in again;
      assert Some(k) in UniqueCells(again, TripId);
    }
    if k in NonNull(UniqueCells(again, TripId)) {
      assert Some(k) in UniqueCells(again, TripId);
    }
  }

  /** The filters that pick the other tables are idempotent. */
  lemma DerivedTables(f: Feed, s: ZurichSubset, prefix: string)
    requires s == BuildZurichSubset(f, prefix)
    ensures SemiJoin(s.trips, TripId, NonNull(s.tripIds)) == s.trips
    ensures SemiJoin(s.routes, RouteId, Keys(s.trips, RouteId)) == s.routes
    ensures SemiJoin(s.stopTimes, TripId, NonNull(s.tripIds)) == s.stopTimes
    ensures SemiJoin(s.stopTimes, TripId, Keys(s.trips, TripId)) == SemiJoin(f.stopTimes, TripId, Keys(s.trips, TripId))
    ensures SemiJoin(s.stopTimes, TripId, Keys(s.internalTrips, TripId)) == s.internalStopTimes
    ensures SemiJoin(s.stopTimes, TripId, Keys(s.crossingTrips, TripId)) == s.crossingStopTimes
  {
    var ids := NonNull(s.tripIds);
    TripKeysSplit(f, prefix);
    SemiJoinTwice(f.trips, TripId, ids, ids);
    SemiJoinTwice(f.routes, RouteId, Keys(s.trips, RouteId), Keys(s.trips, RouteId));
    SemiJoinTwice(f.stopTimes, TripId, ids, ids);
    SemiJoinTwice(f.stopTimes, TripId, ids, Keys(s.trips, TripId));
    SemiJoinTwice(f.stopTimes, TripId, ids, Keys(s.internalTrips, TripId));
    SemiJoinTwice(f.stopTimes, TripId, ids, Keys(s.crossingTrips, TripId));
  }

  /**
   The derivation is a closure: run again on its own output it gives the same stops, trips,
   routes, stop times and classifications; and the same list of trip ids if and only if that
   list holds no null.
   */
  lemma DerivationIsClosure(f: Feed, prefix: string)
    ensures var s := BuildZurichSubset(f, prefix);
      var t := BuildZurichSubset(AsFeed(s), prefix);
      && t == s.(tripIds := t.tripIds)
      && NonNull(t.tripIds) == NonNull(s.tripIds)
      && (t.tripIds == s.tripIds <==> None !in s.tripIds)
  {
    var s := BuildZurichSubset(f, prefix);
    FilterStopsTwice(f.stops, prefix);
    DerivedAtStops(f.stopTimes, Keys(s.stops, StopId), NonNull(s.tripIds));
    DerivedTables(f, s, prefix);
    SameDerivation(f, s, prefix);
  }

  lemma SameDerivation(f: Feed, s: ZurichSubset, prefix: string)
    requires s == BuildZurichSubset(f, prefix)
    requires BuildStops(AsFeed(s), prefix) == s.stops
    requires NonNull(BuildTripIds(AsFeed(s), s.stops)) == NonNull(s.tripIds)
    requires SemiJoin(s.trips, TripId, NonNull(s.tripIds)) == s.trips
    requires SemiJoin(s.routes, RouteId, Keys(s.trips, RouteId)) == s.routes
    requires SemiJoin(s.stopTimes, TripId, NonNull(s.tripIds)) == s.stopTimes
    requires SemiJoin(s.stopTimes, TripId, Keys(s.trips, TripId)) == SemiJoin(f.stopTimes, TripId, Keys(s.trips, TripId))
    requires SemiJoin(s.stopTimes, TripId, Keys(s.internalTrips, TripId)) == s.internalStopTimes
    requires SemiJoin(s.stopTimes, TripId, Keys(s.crossingTrips, TripId)) == s.crossingStopTimes
    ensures var t := BuildZurichSubset(AsFeed(s), prefix); t == s.(tripIds := t.tripIds)
  {
    var t := BuildZurichSubset(AsFeed(s), prefix);
    assert t.stops == s.stops && t.trips == s.trips && t.routes == s.routes;
    assert TripClassification(AsFeed(s), s.stops, s.trips) == TripClassification(f, s.stops, s.trips);
    assert t.internalTrips == s.internalTrips && t.crossingTrips == s.crossingTrips;
  }
}
