/** The Zurich subset derivation (subset.py), step by step as it is written. */
module Subset {
  import opened Wrappers
  import opened Tables

  datatype TripType = Internal | Crossing

  datatype RouteType = InternalRoute | CrossingRoute | MixedRoute

  /** The four core tables of a snapshot. */
  datatype Feed = Feed(stops: seq<Row>, routes: seq<Row>, trips: seq<Row>, stopTimes: seq<Row>)

  datatype ZurichSubset = ZurichSubset(
    stops: seq<Row>,
    tripIds: seq<Cell>,
    trips: seq<Row>,
    internalTrips: seq<Row>,
    crossingTrips: seq<Row>,
    routes: seq<Row>,
    internalRoutes: seq<Row>,
    crossingRoutes: seq<Row>,
    mixedRoutes: seq<Row>,
    stopTimes: seq<Row>,
    internalStopTimes: seq<Row>,
    crossingStopTimes: seq<Row>)

  // ---- The universe ----

  predicate NamedWith(r: Row, prefix: string)
  {
    Get(r, StopName).Some? && prefix <= Get(r, StopName).value
  }

  function BuildStops(f: Feed, prefix: string): seq<Row>
  {
    FilterStops(f.stops, prefix)
  }

  function FilterStops(rows: seq<Row>, prefix: string): seq<Row>
  {
    if rows == [] then []
    else (if NamedWith(rows[0], prefix) then [rows[0]] else []) + FilterStops(rows[1..], prefix)
  }

  function BuildTripIds(f: Feed, stops: seq<Row>): seq<Cell>
  {
    UniqueCells(SemiJoin(f.stopTimes, StopId, Keys(stops, StopId)), TripId)
  }

  function BuildTrips(f: Feed, tripIds: seq<Cell>): seq<Row>
  {
    SemiJoin(f.trips, TripId, NonNull(tripIds))
  }

  function BuildRoutes(f: Feed, trips: seq<Row>): seq<Row>
  {
    SemiJoin(f.routes, RouteId, Keys(trips, RouteId))
  }

  function BuildStopTimes(f: Feed, tripIds: set<string>): seq<Row>
  {
    SemiJoin(f.stopTimes, TripId, tripIds)
  }

  // ---- Trip classification, by counting ----

  /** The inner join of the two counts, with the type that equal counts or unequal ones give. */
  function ClassifyByCount(total: map<string, nat>, zurich: map<string, nat>): map<string, TripType>
  {
    map k | k in total && k in zurich :: if total[k] == zurich[k] then Internal else Crossing
  }

  function TripClassification(f: Feed, stops: seq<Row>, trips: seq<Row>): map<string, TripType>
  {
    var relevant := SemiJoin(f.stopTimes, TripId, Keys(trips, TripId));
    var atStops := SemiJoin(relevant, StopId, Keys(stops, StopId));
    ClassifyByCount(GroupCount(relevant, TripId), GroupCount(atStops, TripId))
  }

  /** The inner join with the classification, restricted to one type. */
  function TripsOfType(trips: seq<Row>, types: map<string, TripType>, t: TripType): seq<Row>
  {
    if trips == [] then []
    else (if IsOfType(trips[0], types, t) then [trips[0]] else []) + TripsOfType(trips[1..], types, t)
  }

  predicate IsOfType(r: Row, types: map<string, TripType>, t: TripType)
  {
    HasKey(r, TripId, types.Keys) && types[Get(r, TripId).value] == t
  }

  // ---- Route classification ----

  /** The types that the trips of route `k` have. */
  function TypesOf(internalTrips: seq<Row>, crossingTrips: seq<Row>, k: string): set<TripType>
  {
    (set r | r in internalTrips && Get(r, RouteId) == Some(k) :: Internal)
      + (set r | r in crossingTrips && Get(r, RouteId) == Some(k) :: Crossing)
  }

  /** One type: that one; otherwise mixed. */
  function RouteClassification(internalTrips: seq<Row>, crossingTrips: seq<Row>): map<string, RouteType>
  {
    map k | k in Keys(internalTrips + crossingTrips, RouteId) ::
      var types := TypesOf(internalTrips, crossingTrips, k);
      if |types| != 1 then MixedRoute else if Internal in types then InternalRoute else CrossingRoute
  }

  function RoutesOfType(routes: seq<Row>, types: map<string, RouteType>, t: RouteType): seq<Row>
  {
    if routes == [] then []
    else (if RouteIsOfType(routes[0], types, t) then [routes[0]] else []) + RoutesOfType(routes[1..], types, t)
  }

  predicate RouteIsOfType(r: Row, types: map<string, RouteType>, t: RouteType)
  {
    HasKey(r, RouteId, types.Keys) && types[Get(r, RouteId).value] == t
  }

  // ---- The whole derivation ----

  function BuildZurichSubset(f: Feed, prefix: string): ZurichSubset
  {
    var stops := BuildStops(f, prefix);
    var tripIds := BuildTripIds(f, stops);
    var trips := BuildTrips(f, tripIds);
    var routes := BuildRoutes(f, trips);
    var tripTypes := TripClassification(f, stops, trips);
    var internalTrips, crossingTrips := TripsOfType(trips, tripTypes, Internal), TripsOfType(trips, tripTypes, Crossing);
    var routeTypes := RouteClassification(internalTrips, crossingTrips);
    ZurichSubset(
      stops, tripIds, trips, internalTrips, crossingTrips,
      routes,
      RoutesOfType(routes, routeTypes, InternalRoute),
      RoutesOfType(routes, routeTypes, CrossingRoute),
      RoutesOfType(routes, routeTypes, MixedRoute),
      BuildStopTimes(f, NonNull(tripIds)),
      BuildStopTimes(f, Keys(internalTrips, TripId)),
      BuildStopTimes(f, Keys(crossingTrips, TripId)))
  }
}
