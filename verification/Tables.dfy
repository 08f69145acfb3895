/**
 Tables and the relational operators the transform is written with (validate.py, subset.py).
 Results are compared as multisets of rows: nothing relies on row order.
 */
module Tables {
  import opened Wrappers

  datatype TableName = Stops | Routes | Trips | StopTimes | OtherTable(name: string)

  datatype Column = StopId | StopName | StopLat | StopLon | RouteId | TripId | StopSequence | OtherColumn(name: string)

  /** A cell is null or holds a value. */
  type Cell = Option<string>

  type Row = map<Column, Cell>

  datatype Table = Table(columns: set<Column>, rows: seq<Row>)

  function Get(r: Row, c: Column): Cell
  {
    if c in r then r[c] else None
  }

  /** The non-null values of a column. */
  function Keys(rows: seq<Row>, c: Column): set<string>
  {
    set r | r in rows && Get(r, c).Some? :: Get(r, c).value
  }

  predicate HasKey(r: Row, c: Column, keys: set<string>)
  {
    Get(r, c).Some? && Get(r, c).value in keys
  }

  /** The rows whose key is among `keys`; a null key matches nothing. */
  function SemiJoin(rows: seq<Row>, c: Column, keys: set<string>): seq<Row>
  {
    if rows == [] then []
    else (if HasKey(rows[0], c, keys) then [rows[0]] else []) + SemiJoin(rows[1..], c, keys)
  }

  /** The rows whose non-null key is not among `keys`. */
  function AntiJoin(rows: seq<Row>, c: Column, keys: set<string>): seq<Row>
  {
    if rows == [] then []
    else (if Get(rows[0], c).Some? && Get(rows[0], c).value !in keys then [rows[0]] else []) + AntiJoin(rows[1..], c, keys)
  }

  function NullCount(rows: seq<Row>, c: Column): nat
  {
    if rows == [] then 0 else (if Get(rows[0], c).None? then 1 else 0) + NullCount(rows[1..], c)
  }

  /** How many rows have the key `k`. */
  function CountKey(rows: seq<Row>, c: Column, k: string): nat
  {
    if rows == [] then 0 else (if Get(rows[0], c) == Some(k) then 1 else 0) + CountKey(rows[1..], c, k)
  }

  /** Row counts per non-null key. */
  function GroupCount(rows: seq<Row>, c: Column): map<string, nat>
  {
    map k | k in Keys(rows, c) :: CountKey(rows, c, k)
  }

  /** The distinct values of a column, each once. */
  function UniqueCells(rows: seq<Row>, c: Column): seq<Cell>
  {
    if rows == [] then []
    else
      var init := UniqueCells(rows[..|rows| - 1], c);
      var last := Get(rows[|rows| - 1], c);
      if last in init then init else init + [last]
  }

  function NonNull(cells: seq<Cell>): set<string>
  {
    set x | x in cells && x.Some? :: x.value
  }

  // ---- What the operators mean ----

  lemma {:induction false} SemiJoinMembers(rows: seq<Row>, c: Column, keys: set<string>, r: Row)
    ensures r in SemiJoin(rows, c, keys) <==> r in rows && HasKey(r, c, keys)
    ensures multiset(SemiJoin(rows, c, keys))[r] == if HasKey(r, c, keys) then multiset(rows)[r] else 0
  {
    if rows != [] {
      SemiJoinMembers(rows[1..], c, keys, r);
      assert rows == [rows[0]] + rows[1..];
    }
  }

  lemma {:induction false} AntiJoinEmpty(rows: seq<Row>, c: Column, keys: set<string>)
    ensures AntiJoin(rows, c, keys) == [] <==> forall r :: r in rows && Get(r, c).Some? ==> Get(r, c).value in keys
  {
    if rows != [] {
      AntiJoinEmpty(rows[1..], c, keys);
      assert rows == [rows[0]] + rows[1..];
      assert rows[0] in rows;
    }
  }

  lemma {:induction false} NullCountZero(rows: seq<Row>, c: Column)
    ensures NullCount(rows, c) == 0 <==> forall r :: r in rows ==> Get(r, c).Some?
  {
    if rows != [] {
      NullCountZero(rows[1..], c);
      assert rows == [rows[0]] + rows[1..];
      assert rows[0] in rows;
    }
  }

  lemma KeyOf(rows: seq<Row>, c: Column, k: string) returns (r: Row)
    requires k in Keys(rows, c)
    ensures r in rows && Get(r, c) == Some(k)
  {
    r :| r in rows && Get(r, c) == Some(k);
  }

  /** Filtering twice by keys of one column, the second set inside the first, is filtering once. */
  lemma {:induction false} SemiJoinTwice(rows: seq<Row>, c: Column, outer: set<string>, inner: set<string>)
    requires inner <= outer
    ensures SemiJoin(SemiJoin(rows, c, outer), c, inner) == SemiJoin(rows, c, inner)
  {
    if rows != [] {
      SemiJoinTwice(rows[1..], c, outer, inner);
      var rest := SemiJoin(rows[1..], c, outer);
      if HasKey(rows[0], c, outer) {
        assert ([rows[0]] + rest)[1..] == rest;
      } else {
        assert [] + rest == rest;
      }
    }
  }

  /** Filters on different columns commute. */
  lemma {:induction false} SemiJoinsCommute(rows: seq<Row>, c: Column, a: set<string>, d: Column, b: set<string>)
    ensures SemiJoin(SemiJoin(rows, c, a), d, b) == SemiJoin(SemiJoin(rows, d, b), c, a)
  {
    if rows != [] {
      SemiJoinsCommute(rows[1..], c, a, d, b);
      JoinOne(rows[0], SemiJoin(rows[1..], c, a), HasKey(rows[0], c, a), d, b);
      JoinOne(rows[0], SemiJoin(rows[1..], d, b), HasKey(rows[0], d, b), c, a);
    }
  }

  lemma JoinOne(r: Row, rest: seq<Row>, kept: bool, d: Column, b: set<string>)
    ensures SemiJoin((if kept then [r] else []) + rest, d, b)
      == (if kept && HasKey(r, d, b) then [r] else []) + SemiJoin(rest, d, b)
  {
    if kept {
      assert ([r] + rest)[1..] == rest;
    } else {
      assert [] + rest == rest;
    }
  }

  /** Filtering by keys every row has changes nothing. */
  lemma {:induction false} SemiJoinAll(rows: seq<Row>, c: Column, keys: set<string>)
    requires forall r :: r in rows ==> HasKey(r, c, keys)
    ensures SemiJoin(rows, c, keys) == rows
  {
    if rows != [] {
      assert forall r :: r in rows[1..] ==> r in rows;
      SemiJoinAll(rows[1..], c, keys);
      assert rows == [rows[0]] + rows[1..];
    }
  }

  /** A key counts as many rows after a filter as before exactly when the filter drops none of them. */
  lemma {:induction false} CountsAgree(rows: seq<Row>, c: Column, k: string, d: Column, keys: set<string>)
    ensures CountKey(SemiJoin(rows, d, keys), c, k) <= CountKey(rows, c, k)
    ensures CountKey(SemiJoin(rows, d, keys), c, k) == CountKey(rows, c, k)
      <==> forall r :: r in rows && Get(r, c) == Some(k) ==> HasKey(r, d, keys)
  {
    if rows != [] {
      var rest := SemiJoin(rows[1..], d, keys);
      CountsAgree(rows[1..], c, k, d, keys);
      if HasKey(rows[0], d, keys) {
        assert ([rows[0]] + rest)[1..] == rest;
      } else {
        assert [] + rest == rest;
      }
      assert rows == [rows[0]] + rows[1..];
      assert rows[0] in rows;
    }
  }

  lemma {:induction false} UniqueCellsExactly(rows: seq<Row>, c: Column)
    ensures forall x :: x in UniqueCells(rows, c) <==> exists r :: r in rows && Get(r, c) == x
    ensures forall i, j :: 0 <= i < j < |UniqueCells(rows, c)| ==> UniqueCells(rows, c)[i] != UniqueCells(rows, c)[j]
  {
    if rows != [] {
      var init, last := rows[..|rows| - 1], rows[|rows| - 1];
      UniqueCellsExactly(init, c);
      assert rows == init + [last];
      assert last in rows;
    }
  }

  // ---- What the counts count ----

  /** The positions of the rows that are marked. */
  function Positions(marks: seq<bool>): set<nat>
  {
    set i: nat | i < |marks| && marks[i]
  }

  lemma PositionsCons(marks: seq<bool>)
    requires marks != []
    ensures |Positions(marks)| == (if marks[0] then 1 else 0) + |Positions(marks[1..])|
  {
    var rest := Positions(marks[1..]);
    var moved, first: set<nat> := set i | i in rest :: i + 1, if marks[0] then {0} else {};
    ShiftedSize(rest, moved);
    forall i: nat ensures i in Positions(marks) <==> i in first || i in moved {
      if i > 0 {
        assert i - 1 in rest <==> i in Positions(marks);
      }
    }
    assert Positions(marks) == first + moved;
  }

  lemma {:induction false} ShiftedSize(s: set<nat>, moved: set<nat>)
    requires moved == set i | i in s :: i + 1
    ensures |moved| == |s|
  {
    if s != {} {
      var x :| x in s;
      var rest := set i | i in s - {x} :: i + 1;
      ShiftedSize(s - {x}, rest);
      forall y: nat ensures y in moved <==> y == x + 1 || y in rest {
        if y in moved && y != x + 1 {
          var k :| k in s && y == k + 1;
          assert k in s - {x};
        }
      }
      assert moved == rest + {x + 1};
    } else {
      assert moved == {};
    }
  }

  /** The row has no value in this column. */
  predicate Lacks(r: Row, c: Column)
  {
    c !in r || r[c] == None
  }

  /** The positions of the rows without a value in this column. */
  function NullsAt(rows: seq<Row>, c: Column): set<nat>
  {
    set i: nat | i < |rows| && Lacks(rows[i], c)
  }

  function NullMarks(rows: seq<Row>, c: Column): seq<bool>
  {
    seq(|rows|, i requires 0 <= i < |rows| => Lacks(rows[i], c))
  }

  lemma NullsMarked(rows: seq<Row>, c: Column)
    ensures NullsAt(rows, c) == Positions(NullMarks(rows, c))
    ensures rows != [] ==> NullMarks(rows, c)[1..] == NullMarks(rows[1..], c)
  {
    var marks := NullMarks(rows, c);
    forall i: nat ensures i in NullsAt(rows, c) <==> i in Positions(marks) {
      assert i < |rows| ==> marks[i] == Lacks(rows[i], c);
    }
    if rows != [] {
      var rest := NullMarks(rows[1..], c);
      forall i | 0 <= i < |rest| ensures marks[1..][i] == rest[i] {
        assert rows[1..][i] == rows[i + 1];
      }
      assert marks[1..] == rest;
    }
  }

  /** The null count is the number of rows without a value. */
  lemma {:induction false} NullCountIs(rows: seq<Row>, c: Column)
    ensures NullCount(rows, c) == |NullsAt(rows, c)|
  {
    NullsMarked(rows, c);
    if rows != [] {
      NullCountIs(rows[1..], c);
      PositionsCons(NullMarks(rows, c));
      NullsMarked(rows[1..], c);
    } else {
      assert Positions(NullMarks(rows, c)) == {};
    }
  }

  /** The row has a value in this column that no row of `parents` has in `d`. */
  predicate IsOrphan(r: Row, c: Column, parents: seq<Row>, d: Column)
  {
    c in r && r[c].Some? && forall p :: p in parents ==> !(d in p && p[d] == r[c])
  }

  function OrphansAt(rows: seq<Row>, c: Column, parents: seq<Row>, d: Column): set<nat>
  {
    set i: nat | i < |rows| && IsOrphan(rows[i], c, parents, d)
  }

  lemma OrphanIffNoKey(r: Row, c: Column, parents: seq<Row>, d: Column)
    ensures IsOrphan(r, c, parents, d) <==> Get(r, c).Some? && Get(r, c).value !in Keys(parents, d)
  {
    if Get(r, c).Some? {
      if Get(r, c).value in Keys(parents, d) {
        var p := KeyOf(parents, d, Get(r, c).value);
      }
      forall p | p in parents && d in p && p[d] == r[c] ensures Get(r, c).value in Keys(parents, d) {
        assert Get(p, d) == r[c];
      }
    }
  }

  function OrphanMarks(rows: seq<Row>, c: Column, parents: seq<Row>, d: Column): seq<bool>
  {
    seq(|rows|, i requires 0 <= i < |rows| => IsOrphan(rows[i], c, parents, d))
  }

  lemma OrphansMarked(rows: seq<Row>, c: Column, parents: seq<Row>, d: Column)
    ensures OrphansAt(rows, c, parents, d) == Positions(OrphanMarks(rows, c, parents, d))
    ensures rows != [] ==> OrphanMarks(rows, c, parents, d)[1..] == OrphanMarks(rows[1..], c, parents, d)
  {
    var marks := OrphanMarks(rows, c, parents, d);
    forall i: nat ensures i in OrphansAt(rows, c, parents, d) <==> i in Positions(marks) {
      assert i < |rows| ==> marks[i] == IsOrphan(rows[i], c, parents, d);
    }
    if rows != [] {
      var rest := OrphanMarks(rows[1..], c, parents, d);
      forall i | 0 <= i < |rest| ensures marks[1..][i] == rest[i] {
        assert rows[1..][i] == rows[i + 1];
      }
      assert marks[1..] == rest;
    }
  }

  lemma AntiJoinCons(rows: seq<Row>, c: Column, parents: seq<Row>, d: Column)
    requires rows != []
    ensures |AntiJoin(rows, c, Keys(parents, d))|
      == (if IsOrphan(rows[0], c, parents, d) then 1 else 0) + |AntiJoin(rows[1..], c, Keys(parents, d))|
  {
    OrphanIffNoKey(rows[0], c, parents, d);
  }

  /** An anti join keeps as many rows as refer to nothing. */
  lemma {:induction false} AntiJoinCounts(rows: seq<Row>, c: Column, parents: seq<Row>, d: Column)
    ensures |AntiJoin(rows, c, Keys(parents, d))| == |OrphansAt(rows, c, parents, d)|
  {
    OrphansMarked(rows, c, parents, d);
    if rows != [] {
      AntiJoinCounts(rows[1..], c, parents, d);
      AntiJoinCons(rows, c, parents, d);
      PositionsCons(OrphanMarks(rows, c, parents, d));
      OrphansMarked(rows[1..], c, parents, d);
    } else {
      assert Positions(OrphanMarks(rows, c, parents, d)) == {};
    }
  }
}
