/** The content-level validation that gates the subset derivation (validate.py). */
module Validation {
  import opened Wrappers
  import opened Tables
  import opened Subset
  import opened SubsetProperties

  type Snapshot = map<TableName, Table>

  function RequiredColumns(t: TableName): seq<Column>
  {
    match t
    case Stops => [StopId, StopName, StopLat, StopLon]
    case Routes => [RouteId]
    case Trips => [TripId, RouteId]
    case StopTimes => [TripId, StopId, StopSequence]
    case OtherTable(_) => []
  }

  datatype Bounds = Bounds(least: nat, most: nat)

  function RowCountRange(t: TableName): Option<Bounds>
  {
    match t
    case Stops => Some(Bounds(10_000, 1_000_000))
    case Routes => Some(Bounds(500, 50_000))
    case Trips => Some(Bounds(100_000, 10_000_000))
    case StopTimes => Some(Bounds(1_000_000, 100_000_000))
    case OtherTable(_) => None
  }

  datatype Reference = Reference(child: TableName, childColumn: Column, parent: TableName, parentColumn: Column)

  const REFERENCES := [
    Reference(Trips, RouteId, Routes, RouteId),
    Reference(StopTimes, TripId, Trips, TripId),
    Reference(StopTimes, StopId, Stops, StopId)]

  datatype Check =
    | MissingColumns(columns: seq<Column>)
    | HasNulls(column: Column, nulls: nat)
    | RowCountOutOfRange(rows: nat)
    | Orphans(column: Column, count: nat, parent: TableName)

  datatype Failure = Failure(table: TableName, check: Check)

  // ---- What each check reports ----

  function Missing(required: seq<Column>, t: Table): seq<Column>
  {
    if required == [] then []
    else
      var c := required[|required| - 1];
      Missing(required[..|required| - 1], t) + if c in t.columns then [] else [c]
  }

  function ColumnFailures(name: TableName, t: Table): seq<Failure>
  {
    var missing := Missing(RequiredColumns(name), t);
    if missing == [] then [] else [Failure(name, MissingColumns(missing))]
  }

  function NullFailures(name: TableName, required: seq<Column>, t: Table): seq<Failure>
  {
    if required == [] then []
    else
      var c := required[|required| - 1];
      NullFailures(name, required[..|required| - 1], t)
        + if c in t.columns && NullCount(t.rows, c) != 0 then [Failure(name, HasNulls(c, NullCount(t.rows, c)))] else []
  }

  function RangeFailures(name: TableName, t: Table): seq<Failure>
  {
    match RowCountRange(name)
    case None => []
    case Some(b) => if b.least <= |t.rows| <= b.most then [] else [Failure(name, RowCountOutOfRange(|t.rows|))]
  }

  function TableFailures(names: seq<TableName>, tables: Snapshot): seq<Failure>
  {
    if names == [] then []
    else
      var name := names[|names| - 1];
      TableFailures(names[..|names| - 1], tables)
        + if name !in tables then []
          else ColumnFailures(name, tables[name])
               + NullFailures(name, RequiredColumns(name), tables[name])
               + RangeFailures(name, tables[name])
  }

  /** Both tables are there and have the referring columns. */
  predicate Applies(ref: Reference, tables: Snapshot)
  {
    && ref.child in tables && ref.parent in tables
    && ref.childColumn in tables[ref.child].columns && ref.parentColumn in tables[ref.parent].columns
  }

  function OrphansOf(ref: Reference, tables: Snapshot): seq<Row>
    requires Applies(ref, tables)
  {
    AntiJoin(tables[ref.child].rows, ref.childColumn, Keys(tables[ref.parent].rows, ref.parentColumn))
  }

  function ReferenceFailures(refs: seq<Reference>, tables: Snapshot): seq<Failure>
  {
    if refs == [] then []
    else
      var ref := refs[|refs| - 1];
      ReferenceFailures(refs[..|refs| - 1], tables)
        + if Applies(ref, tables) && OrphansOf(ref, tables) != []
          then [Failure(ref.child, Orphans(ref.childColumn, |OrphansOf(ref, tables)|, ref.parent))] else []
  }

  function AllFailures(names: seq<TableName>, tables: Snapshot): seq<Failure>
  {
    TableFailures(names, tables) + ReferenceFailures(REFERENCES, tables)
  }

  // ---- The checks, appending to a report ----

  class ValidationReport {
    const snapshotVersion: string
    var failures: seq<Failure>

    constructor (version: string)
      ensures snapshotVersion == version && failures == []
    {
      snapshotVersion, failures := version, [];
    }

    predicate Passed()
      reads this
    {
      failures == []
    }

    method Add(table: TableName, check: Check)
      modifies this
      ensures failures == old(failures) + [Failure(table, check)]
    {
      failures := failures + [Failure(table, check)];
    }

    method CheckRequiredColumns(name: TableName, t: Table)
      modifies this
      ensures failures == old(failures) + ColumnFailures(name, t)
    {
      var required, missing := RequiredColumns(name), [];
      for i := 0 to |required|
        invariant missing == Missing(required[..i], t) && failures == old(failures)
      {
        assert required[..i + 1][..i] == required[..i];
        if required[i] !in t.columns {
          missing := missing + [required[i]];
        }
      }
      assert required[..|required|] == required;
      if missing != [] {
        Add(name, MissingColumns(missing));
      }
    }

    method CheckNotNull(name: TableName, t: Table)
      modifies this
      ensures failures == old(failures) + NullFailures(name, RequiredColumns(name), t)
    {
      var required := RequiredColumns(name);
      for i := 0 to |required|
        invariant failures == old(failures) + NullFailures(name, required[..i], t)
      {
        assert required[..i + 1][..i] == required[..i];
        var c := required[i];
        if c !in t.columns {
          continue;
        }
        var nulls := NullCount(t.rows, c);
        if nulls != 0 {
          Add(name, HasNulls(c, nulls));
        }
      }
      assert required[..|required|] == required;
    }

    method CheckRowCountRange(name: TableName, t: Table)
      modifies this
      ensures failures == old(failures) + RangeFailures(name, t)
    {
      match RowCountRange(name) {
        case None =>
        case Some(b) =>
          if !(b.least <= |t.rows| <= b.most) {
            Add(name, RowCountOutOfRange(|t.rows|));
          }
      }
    }

    method CheckReferentialIntegrity(tables: Snapshot)
      modifies this
      ensures failures == old(failures) + ReferenceFailures(REFERENCES, tables)
    {
      for i := 0 to |REFERENCES|
        invariant failures == old(failures) + ReferenceFailures(REFERENCES[..i], tables)
      {
        assert REFERENCES[..i + 1][..i] == REFERENCES[..i];
        var ref := REFERENCES[i];
        if ref.child !in tables || ref.parent !in tables {
          continue;
        }
        if ref.childColumn !in tables[ref.child].columns || ref.parentColumn !in tables[ref.parent].columns {
          continue;
        }
        var orphans := OrphansOf(ref, tables);
        if orphans != [] {
          Add(ref.child, Orphans(ref.childColumn, |orphans|, ref.parent));
        }
      }
      assert REFERENCES[..|REFERENCES|] == REFERENCES;
    }

    /** Every check on every table, in the order in which the tables are listed. */
    method Validate(names: seq<TableName>, tables: Snapshot)
      requires failures == []
      modifies this
      ensures failures == AllFailures(names, tables)
    {
      for i := 0 to |names|
        invariant failures == TableFailures(names[..i], tables)
      {
        assert names[..i + 1][..i] == names[..i];
        if names[i] !in tables {
          continue;
        }
        var t := tables[names[i]];
        CheckRequiredColumns(names[i], t);
        CheckNotNull(names[i], t);
        CheckRowCountRange(names[i], t);
      }
      assert names[..|names|] == names;
      CheckReferentialIntegrity(tables);
    }
  }

  // ---- What passing means ----

  /** The table has its required columns, none of them with a null, and a sane number of rows. */
  predicate TableSound(name: TableName, t: Table)
  {
    && (forall c :: c in RequiredColumns(name) ==> c in t.columns && forall r :: r in t.rows ==> Get(r, c).Some?)
    && match RowCountRange(name)
       case None => true
       case Some(b) => b.least <= |t.rows| <= b.most
  }

  /** Every non-null reference points at a row of the parent table. */
  predicate ReferenceHolds(ref: Reference, tables: Snapshot)
  {
    Applies(ref, tables) ==>
      forall r :: r in tables[ref.child].rows && Get(r, ref.childColumn).Some? ==>
        Get(r, ref.childColumn).value in Keys(tables[ref.parent].rows, ref.parentColumn)
  }

  lemma {:induction false} MissingNone(required: seq<Column>, t: Table)
    ensures Missing(required, t) == [] <==> forall c :: c in required ==> c in t.columns
  {
    if required != [] {
      var init, last := required[..|required| - 1], required[|required| - 1];
      MissingNone(init, t);
      assert required == init + [last];
    }
  }

  lemma {:induction false} NullFailuresNone(name: TableName, required: seq<Column>, t: Table)
    ensures NullFailures(name, required, t) == []
      <==> forall c :: c in required && c in t.columns ==> forall r :: r in t.rows ==> Get(r, c).Some?
  {
    if required != [] {
      var init, last := required[..|required| - 1], required[|required| - 1];
      NullFailuresNone(name, init, t);
      NullCountZero(t.rows, last);
      assert required == init + [last];
    }
  }

  lemma OneTable(name: TableName, t: Table)
    ensures ColumnFailures(name, t) + NullFailures(name, RequiredColumns(name), t) + RangeFailures(name, t) == [] <==> TableSound(name, t)
  {
    MissingNone(RequiredColumns(name), t);
    NullFailuresNone(name, RequiredColumns(name), t);
  }

  lemma {:induction false} TablesPass(names: seq<TableName>, tables: Snapshot)
    ensures TableFailures(names, tables) == [] <==> forall n :: n in names && n in tables ==> TableSound(n, tables[n])
  {
    if names != [] {
      var init, last := names[..|names| - 1], names[|names| - 1];
      TablesPass(init, tables);
      if last in tables {
        OneTable(last, tables[last]);
      }
      assert names == init + [last];
    }
  }

  lemma {:induction false} ReferencesPass(refs: seq<Reference>, tables: Snapshot)
    ensures ReferenceFailures(refs, tables) == [] <==> forall i :: 0 <= i < |refs| ==> ReferenceHolds(refs[i], tables)
  {
    if refs != [] {
      var init, last := refs[..|refs| - 1], refs[|refs| - 1];
      ReferencesPass(init, tables);
      if Applies(last, tables) {
        AntiJoinEmpty(tables[last.child].rows, last.childColumn, Keys(tables[last.parent].rows, last.parentColumn));
      }
    }
  }

  /** A snapshot passes if and only if every table in it is sound and every applicable reference holds. */
  lemma PassesIff(names: seq<TableName>, tables: Snapshot)
    requires forall n :: n in names <==> n in tables
    ensures AllFailures(names, tables) == [] <==>
      && (forall n :: n in tables ==> TableSound(n, tables[n]))
      && (forall i :: 0 <= i < |REFERENCES| ==> ReferenceHolds(REFERENCES[i], tables))
  {
    TablesPass(names, tables);
    ReferencesPass(REFERENCES, tables);
  }

  // ---- What each failure says ----

  /** The lowest and the highest number of rows a core table may have. */
  predicate RowsInRange(name: TableName, n: nat)
  {
    && (name == Stops ==> 10_000 <= n <= 1_000_000)
    && (name == Routes ==> 500 <= n <= 50_000)
    && (name == Trips ==> 100_000 <= n <= 10_000_000)
    && (name == StopTimes ==> 1_000_000 <= n <= 100_000_000)
  }

  /** The columns each core table must have. */
  predicate MustHave(name: TableName, c: Column)
  {
    || (name == Stops && c in {StopId, StopName, StopLat, StopLon})
    || (name == Routes && c == RouteId)
    || (name == Trips && c in {TripId, RouteId})
    || (name == StopTimes && c in {TripId, StopId, StopSequence})
  }

  /** The references: trips to their routes, stop times to their trips and stops. */
  predicate Refers(child: TableName, c: Column, parent: TableName, d: Column)
  {
    || (child == Trips && c == RouteId && parent == Routes && d == RouteId)
    || (child == StopTimes && c == TripId && parent == Trips && d == TripId)
    || (child == StopTimes && c == StopId && parent == Stops && d == StopId)
  }

  /** What a failure claims about a snapshot. */
  ghost predicate Claims(tables: Snapshot, f: Failure)
  {
    match f.check
    case MissingColumns(columns) =>
      && f.table in tables && columns != []
      && forall c :: c in columns <==> MustHave(f.table, c) && c !in tables[f.table].columns
    case HasNulls(c, nulls) =>
      && f.table in tables && MustHave(f.table, c) && c in tables[f.table].columns
      && nulls == |NullsAt(tables[f.table].rows, c)| && nulls > 0
    case RowCountOutOfRange(n) =>
      f.table in tables && n == |tables[f.table].rows| && !RowsInRange(f.table, n)
    case Orphans(c, count, parent) =>
      exists d :: Dangling(tables, f.table, c, parent, d, count)
  }

  /** So many rows of `child` refer to no row of `parent`. */
  predicate Dangling(tables: Snapshot, child: TableName, c: Column, parent: TableName, d: Column, count: nat)
  {
    && Refers(child, c, parent, d) && child in tables && parent in tables
    && c in tables[child].columns && d in tables[parent].columns
    && count == |OrphansAt(tables[child].rows, c, tables[parent].rows, d)| && count > 0
  }

  lemma MustHaveIsRequired(name: TableName, c: Column)
    ensures c in RequiredColumns(name) <==> MustHave(name, c)
  {
    if name == Stops && MustHave(name, c) {
      assert c == RequiredColumns(name)[0] || c == RequiredColumns(name)[1] || c == RequiredColumns(name)[2]
        || c == RequiredColumns(name)[3];
    }
    if name == Routes && MustHave(name, c) {
      assert c == RequiredColumns(name)[0];
    }
    if name == Trips && MustHave(name, c) {
      assert c == RequiredColumns(name)[0] || c == RequiredColumns(name)[1];
    }
    if name == StopTimes && MustHave(name, c) {
      assert c == RequiredColumns(name)[0] || c == RequiredColumns(name)[1] || c == RequiredColumns(name)[2];
    }
  }

  lemma RefersIsReference(child: TableName, c: Column, parent: TableName, d: Column)
    ensures Reference(child, c, parent, d) in REFERENCES <==> Refers(child, c, parent, d)
  {
    var r := Reference(child, c, parent, d);
    if Refers(child, c, parent, d) {
      assert r == REFERENCES[0] || r == REFERENCES[1] || r == REFERENCES[2];
    }
  }

  lemma {:induction false} MissingExactly(required: seq<Column>, t: Table, c: Column)
    ensures c in Missing(required, t) <==> c in required && c !in t.columns
  {
    if required != [] {
      MissingExactly(required[..|required| - 1], t, c);
      assert required == required[..|required| - 1] + [required[|required| - 1]];
    }
  }

  lemma {:induction false} NullFailuresExactly(name: TableName, required: seq<Column>, t: Table, f: Failure)
    ensures f in NullFailures(name, required, t) <==>
      && f.table == name && f.check.HasNulls? && f.check.column in required && f.check.column in t.columns
      && f.check.nulls == |NullsAt(t.rows, f.check.column)| && f.check.nulls > 0
  {
    if required != [] {
      var init, last := required[..|required| - 1], required[|required| - 1];
      NullFailuresExactly(name, init, t, f);
      NullCountIs(t.rows, last);
      assert required == init + [last];
    }
  }

  lemma ColumnFailuresExactly(name: TableName, t: Table, f: Failure)
    ensures f in ColumnFailures(name, t) <==>
      f.table == name && f.check.MissingColumns? && f.check.columns == Missing(RequiredColumns(name), t)
      && f.check.columns != []
  {
  }

  lemma RangeFailuresExactly(name: TableName, t: Table, f: Failure)
    ensures f in RangeFailures(name, t) <==>
      f.table == name && f.check.RowCountOutOfRange? && f.check.rows == |t.rows| && !RowsInRange(name, |t.rows|)
  {
  }

  lemma MissingColumnsClaim(tables: Snapshot, name: TableName, f: Failure)
    requires name in tables && f in ColumnFailures(name, tables[name])
    ensures Claims(tables, f)
  {
    ColumnFailuresExactly(name, tables[name], f);
    forall c ensures c in f.check.columns <==> MustHave(name, c) && c !in tables[name].columns {
      MissingExactly(RequiredColumns(name), tables[name], c);
      MustHaveIsRequired(name, c);
    }
  }

  lemma OneTableClaims(tables: Snapshot, name: TableName, f: Failure)
    requires name in tables
    ensures var t := tables[name];
      f in ColumnFailures(name, t) + NullFailures(name, RequiredColumns(name), t) + RangeFailures(name, t) ==>
        f.table == name && !f.check.Orphans? && Claims(tables, f)
    ensures var t := tables[name];
      f.table == name && (f.check.HasNulls? || f.check.RowCountOutOfRange?) && Claims(tables, f) ==>
        f in ColumnFailures(name, t) + NullFailures(name, RequiredColumns(name), t) + RangeFailures(name, t)
  {
    var t := tables[name];
    ColumnFailuresExactly(name, t, f);
    NullFailuresExactly(name, RequiredColumns(name), t, f);
    RangeFailuresExactly(name, t, f);
    if f in ColumnFailures(name, t) {
      MissingColumnsClaim(tables, name, f);
    }
    if f.check.HasNulls? {
      MustHaveIsRequired(name, f.check.column);
    }
  }

  lemma {:induction false} TableFailuresClaim(names: seq<TableName>, tables: Snapshot, f: Failure)
    ensures f in TableFailures(names, tables) ==> f.table in names && f.table in tables && !f.check.Orphans? && Claims(tables, f)
    ensures f.table in names && f.table in tables && (f.check.HasNulls? || f.check.RowCountOutOfRange?) && Claims(tables, f) ==>
      f in TableFailures(names, tables)
    ensures forall c :: f.table in names && f.table in tables && MustHave(f.table, c) && c !in tables[f.table].columns ==>
      Failure(f.table, MissingColumns(Missing(RequiredColumns(f.table), tables[f.table]))) in TableFailures(names, tables)
  {
    if names != [] {
      var init, last := names[..|names| - 1], names[|names| - 1];
      TableFailuresClaim(init, tables, f);
      assert names == init + [last];
      if last in tables {
        OneTableClaims(tables, last, f);
        MissingIsReported(tables, last);
      }
    }
  }

  lemma MissingIsReported(tables: Snapshot, name: TableName)
    requires name in tables
    ensures forall c :: MustHave(name, c) && c !in tables[name].columns ==>
      Failure(name, MissingColumns(Missing(RequiredColumns(name), tables[name]))) in ColumnFailures(name, tables[name])
  {
    forall c | MustHave(name, c) && c !in tables[name].columns
      ensures Missing(RequiredColumns(name), tables[name]) != []
    {
      MustHaveIsRequired(name, c);
      MissingExactly(RequiredColumns(name), tables[name], c);
    }
  }

  lemma {:induction false} ReferenceFailuresExactly(refs: seq<Reference>, tables: Snapshot, f: Failure)
    ensures f in ReferenceFailures(refs, tables) <==>
      f.check.Orphans? && exists i :: 0 <= i < |refs| && Reports(refs[i], tables, f)
  {
    if refs != [] {
      var init, last := refs[..|refs| - 1], refs[|refs| - 1];
      ReferenceFailuresExactly(init, tables, f);
      assert refs == init + [last];
      if Applies(last, tables) {
        AntiJoinCounts(tables[last.child].rows, last.childColumn, tables[last.parent].rows, last.parentColumn);
      }
      if f.check.Orphans? && exists i :: 0 <= i < |refs| && Reports(refs[i], tables, f) {
        var i :| 0 <= i < |refs| && Reports(refs[i], tables, f);
        assert i < |init| ==> init[i] == refs[i];
      }
    }
  }

  predicate Reports(ref: Reference, tables: Snapshot, f: Failure)
    requires f.check.Orphans?
  {
    && ref.child == f.table && ref.childColumn == f.check.column && ref.parent == f.check.parent
    && ref.child in tables && ref.parent in tables
    && ref.childColumn in tables[ref.child].columns && ref.parentColumn in tables[ref.parent].columns
    && f.check.count == |OrphansAt(tables[ref.child].rows, ref.childColumn, tables[ref.parent].rows, ref.parentColumn)|
    && f.check.count > 0
  }

  lemma OrphansClaim(tables: Snapshot, f: Failure)
    ensures f in ReferenceFailures(REFERENCES, tables) <==> f.check.Orphans? && Claims(tables, f)
  {
    ReferenceFailuresExactly(REFERENCES, tables, f);
    if f in ReferenceFailures(REFERENCES, tables) {
      var i :| 0 <= i < |REFERENCES| && Reports(REFERENCES[i], tables, f);
      var ref := REFERENCES[i];
      RefersIsReference(ref.child, ref.childColumn, ref.parent, ref.parentColumn);
      assert Dangling(tables, f.table, f.check.column, f.check.parent, ref.parentColumn, f.check.count);
    }
    if f.check.Orphans? && Claims(tables, f) {
      var d :| Dangling(tables, f.table, f.check.column, f.check.parent, d, f.check.count);
      RefersIsReference(f.table, f.check.column, f.check.parent, d);
      var i :| 0 <= i < |REFERENCES| && REFERENCES[i] == Reference(f.table, f.check.column, f.check.parent, d);
      assert Reports(REFERENCES[i], tables, f);
    }
  }

  /**
   A failure is reported if and only if what it says is so: a required column that is there
   holds so many nulls, a table has a number of rows out of its range, or so many rows refer to
   nothing. Columns are reported missing exactly when some required ones are, all at once.
   */
  lemma FailuresAreTrue(names: seq<TableName>, tables: Snapshot, f: Failure)
    requires forall n :: n in names <==> n in tables
    ensures f in AllFailures(names, tables) ==> Claims(tables, f)
    ensures !f.check.MissingColumns? && Claims(tables, f) ==> f in AllFailures(names, tables)
    ensures forall c :: f.table in tables && MustHave(f.table, c) && c !in tables[f.table].columns ==>
      exists columns :: c in columns && Failure(f.table, MissingColumns(columns)) in AllFailures(names, tables)
  {
    TableFailuresClaim(names, tables, f);
    OrphansClaim(tables, f);
    forall c | f.table in tables && MustHave(f.table, c) && c !in tables[f.table].columns
      ensures exists columns :: c in columns && Failure(f.table, MissingColumns(columns)) in AllFailures(names, tables)
    {
      var columns := Missing(RequiredColumns(f.table), tables[f.table]);
      MustHaveIsRequired(f.table, c);
      MissingExactly(RequiredColumns(f.table), tables[f.table], c);
      assert Failure(f.table, MissingColumns(columns)) in TableFailures(names, tables);
    }
  }

  /** Tables are reported before references. */
  lemma ReportOrder(names: seq<TableName>, tables: Snapshot, i: nat, j: nat)
    requires i < j < |AllFailures(names, tables)|
    ensures AllFailures(names, tables)[i].check.Orphans? ==> AllFailures(names, tables)[j].check.Orphans?
  {
    var all, head := AllFailures(names, tables), TableFailures(names, tables);
    TableFailuresClaim(names, tables, all[i]);
    ReferenceFailuresExactly(REFERENCES, tables, all[j]);
    if i < |head| {
      assert all[i] in head;
    }
    if j >= |head| {
      assert all[j] in ReferenceFailures(REFERENCES, tables);
    }
  }

  /** A core table without any column lacks all it should have, in the documented order. */
  lemma MissingInOrder(t: Table)
    requires t.columns == {}
    ensures Missing(RequiredColumns(Stops), t) == [StopId, StopName, StopLat, StopLon]
    ensures Missing(RequiredColumns(Routes), t) == [RouteId]
    ensures Missing(RequiredColumns(Trips), t) == [TripId, RouteId]
    ensures Missing(RequiredColumns(StopTimes), t) == [TripId, StopId, StopSequence]
  {
    AllMissing(RequiredColumns(Stops), t);
    AllMissing(RequiredColumns(Routes), t);
    AllMissing(RequiredColumns(Trips), t);
    AllMissing(RequiredColumns(StopTimes), t);
  }

  lemma {:induction false} AllMissing(required: seq<Column>, t: Table)
    ensures t.columns == {} ==> Missing(required, t) == required
  {
    if required != [] {
      AllMissing(required[..|required| - 1], t);
      assert required == required[..|required| - 1] + [required[|required| - 1]];
    }
  }

  // ---- What the gate gives the derivation ----

  predicate HasCoreTables(tables: Snapshot)
  {
    Stops in tables && Routes in tables && Trips in tables && StopTimes in tables
  }

  function FeedOf(tables: Snapshot): Feed
    requires HasCoreTables(tables)
  {
    Feed(tables[Stops].rows, tables[Routes].rows, tables[Trips].rows, tables[StopTimes].rows)
  }

  /** No null where the derivation joins, and no reference into nothing. */
  predicate Integral(f: Feed)
  {
    && (forall r :: r in f.trips ==> HasKey(r, RouteId, Keys(f.routes, RouteId)) && Get(r, TripId).Some?)
    && (forall r :: r in f.stopTimes ==> HasKey(r, TripId, Keys(f.trips, TripId)) && HasKey(r, StopId, Keys(f.stops, StopId)))
  }

  lemma SoundColumn(name: TableName, t: Table, k: nat)
    requires TableSound(name, t) && k < |RequiredColumns(name)|
    ensures RequiredColumns(name)[k] in t.columns && forall r :: r in t.rows ==> Get(r, RequiredColumns(name)[k]).Some?
  {
    assert RequiredColumns(name)[k] in RequiredColumns(name);
  }

  /** A reference between sound tables leaves no row of the child without its parent. */
  lemma ReferenceSound(ref: Reference, tables: Snapshot, i: nat, j: nat)
    requires ref.child in tables && ref.parent in tables && ReferenceHolds(ref, tables)
    requires TableSound(ref.child, tables[ref.child]) && TableSound(ref.parent, tables[ref.parent])
    requires i < |RequiredColumns(ref.child)| && RequiredColumns(ref.child)[i] == ref.childColumn
    requires j < |RequiredColumns(ref.parent)| && RequiredColumns(ref.parent)[j] == ref.parentColumn
    ensures forall r :: r in tables[ref.child].rows ==> HasKey(r, ref.childColumn, Keys(tables[ref.parent].rows, ref.parentColumn))
  {
    SoundColumn(ref.child, tables[ref.child], i);
    SoundColumn(ref.parent, tables[ref.parent], j);
  }

  /** So a passing snapshot's k-th reference leaves none. */
  lemma PassingReference(names: seq<TableName>, tables: Snapshot, k: nat, i: nat, j: nat)
    requires (forall n :: n in names <==> n in tables) && HasCoreTables(tables)
    requires AllFailures(names, tables) == [] && k < |REFERENCES|
    requires var ref := REFERENCES[k];
      && i < |RequiredColumns(ref.child)| && RequiredColumns(ref.child)[i] == ref.childColumn
      && j < |RequiredColumns(ref.parent)| && RequiredColumns(ref.parent)[j] == ref.parentColumn
    ensures var ref := REFERENCES[k];
      && ref.child in tables && ref.parent in tables
      && forall r :: r in tables[ref.child].rows ==> HasKey(r, ref.childColumn, Keys(tables[ref.parent].rows, ref.parentColumn))
  {
    PassesIff(names, tables);
    assert ReferenceHolds(REFERENCES[k], tables);
    ReferenceSound(REFERENCES[k], tables, i, j);
  }

  /** A passing snapshot with all four core tables is integral. */
  lemma GateGivesIntegrity(names: seq<TableName>, tables: Snapshot)
    requires (forall n :: n in names <==> n in tables) && HasCoreTables(tables)
    requires AllFailures(names, tables) == []
    ensures Integral(FeedOf(tables))
  {
    PassesIff(names, tables);
    SoundColumn(Trips, tables[Trips], 0);
    PassingReference(names, tables, 0, 1, 0);
    PassingReference(names, tables, 1, 0, 0);
    PassingReference(names, tables, 2, 1, 0);
  }

  /**
   After a passing validation with all four core tables: internal and crossing stop times
   partition the subset's stop times, every subset trip runs on a subset route, and every
   internal stop time is at a subset stop.
   */
  lemma GatedSubsetIsConsistent(names: seq<TableName>, tables: Snapshot, prefix: string)
    requires (forall n :: n in names <==> n in tables) && HasCoreTables(tables)
    requires AllFailures(names, tables) == []
    ensures var s := BuildZurichSubset(FeedOf(tables), prefix);
      && multiset(s.internalStopTimes) + multiset(s.crossingStopTimes) == multiset(s.stopTimes)
      && (forall r :: r in s.trips ==> HasKey(r, RouteId, Keys(s.routes, RouteId)))
      && (forall r :: r in s.internalStopTimes ==> HasKey(r, StopId, Keys(s.stops, StopId)))
      && BuildZurichSubset(AsFeed(s), prefix) == s
  {
    var f := FeedOf(tables);
    var s := BuildZurichSubset(f, prefix);
    GateGivesIntegrity(names, tables);
    StopTimesPartitionIff(f, prefix);
    forall r | r in s.stopTimes ensures HasKey(r, TripId, Keys(f.trips, TripId)) {
      SemiJoinMembers(f.stopTimes, TripId, NonNull(s.tripIds), r);
    }
    forall r | r in s.trips ensures HasKey(r, RouteId, Keys(s.routes, RouteId)) {
      TripRouteIsInSubset(f, prefix, r);
    }
    forall r | r in s.internalStopTimes ensures HasKey(r, StopId, Keys(s.stops, StopId)) {
      InternalStopsAreInSubset(f, prefix, r);
    }
    DerivationIsClosure(f, prefix);
    NoNullTripIds(f, s.stops);
  }

  lemma TripRouteIsInSubset(f: Feed, prefix: string, r: Row)
    requires Integral(f) && r in BuildZurichSubset(f, prefix).trips
    ensures HasKey(r, RouteId, Keys(BuildZurichSubset(f, prefix).routes, RouteId))
  {
    var s := BuildZurichSubset(f, prefix);
    TripUniverse(f, prefix, r);
    var route := KeyOf(f.routes, RouteId, Get(r, RouteId).value);
    SemiJoinMembers(f.routes, RouteId, Keys(s.trips, RouteId), route);
  }

  lemma NoNullTripIds(f: Feed, stops: seq<Row>)
    requires Integral(f)
    ensures None !in BuildTripIds(f, stops)
  {
    var keys := Keys(stops, StopId);
    var at := SemiJoin(f.stopTimes, StopId, keys);
    UniqueCellsExactly(at, TripId);
    forall r | r in at ensures Get(r, TripId).Some? {
      SemiJoinMembers(f.stopTimes, StopId, keys, r);
    }
  }

  // ---- The transformation of one snapshot ----

  datatype TransformError = ValidationFailed(failures: seq<Failure>) | MissingTable

  /** Validates, and derives the subset only from a snapshot that passes; an absent core table is an error of its own. */
  method TransformSnapshot(version: string, names: seq<TableName>, tables: Snapshot, prefix: string)
    returns (r: Result<ZurichSubset, TransformError>)
    requires forall n :: n in names <==> n in tables
    ensures r.Ok? <==>
      AllFailures(names, tables) == [] && Stops in tables && Routes in tables && Trips in tables && StopTimes in tables
    ensures r.Ok? ==>
      r.value == BuildZurichSubset(
        Feed(tables[Stops].rows, tables[Routes].rows, tables[Trips].rows, tables[StopTimes].rows), prefix)
    ensures r == Err(MissingTable) <==> AllFailures(names, tables) == [] && !HasCoreTables(tables)
    ensures AllFailures(names, tables) != [] ==> r == Err(ValidationFailed(AllFailures(names, tables)))
  {
    var report := new ValidationReport(version);
    report.Validate(names, tables);
    if !report.Passed() {
      return Err(ValidationFailed(report.failures));
    }
    if Stops !in tables || Routes !in tables || Trips !in tables || StopTimes !in tables {
      return Err(MissingTable);
    }
    r := Ok(BuildZurichSubset(FeedOf(tables), prefix));
  }

  /** Validation says nothing about absent tables: a snapshot passes with any of them left out. */
  lemma PassingSurvivesRemoval(names: seq<TableName>, fewer: seq<TableName>, tables: Snapshot, gone: TableName)
    requires (forall n :: n in names <==> n in tables) && (forall n :: n in fewer <==> n in tables - {gone})
    requires AllFailures(names, tables) == []
    ensures AllFailures(fewer, tables - {gone}) == []
  {
    PassesIff(names, tables);
    PassesIff(fewer, tables - {gone});
    forall i | 0 <= i < |REFERENCES| ensures ReferenceHolds(REFERENCES[i], tables - {gone}) {
      assert ReferenceHolds(REFERENCES[i], tables);
    }
  }
}
