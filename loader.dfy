/** Loading a worksheet into a roster (load_data): drop the rows whose name is
    missing, normalise the seat column, and fall back to the empty data frame when
    the read or either step fails. */
module Loader {
  import opened Sheet
  import Seat

  predicate HasName(row: Row)
  {
    Get(row, NameColumn) != Missing
  }

  /** The seat cell is text with no '.' in it, as normalisation leaves it. */
  predicate SeatClean(row: Row)
  {
    Get(row, SeatColumn).Text? && '.' !in Get(row, SeatColumn).s
  }

  /** A roster as loading produces it: both the name and the seat columns exist,
      every row has a name and every seat is normalised. */
  predicate Loaded(t: Table)
  {
    && NameColumn in t.columns
    && SeatColumn in t.columns
    && forall i :: 0 <= i < |t.rows| ==> HasName(t.rows[i]) && SeatClean(t.rows[i])
  }

  /** The rows whose name is present, in their original order (dropping the rows
      where the name column alone is NaN). */
  function KeepNamed(rows: seq<Row>): (r: seq<Row>)
    ensures |r| <= |rows|
    ensures forall i :: 0 <= i < |r| ==> HasName(r[i])
    ensures forall x :: x in r <==> x in rows && HasName(x)
  {
    if rows == [] then []
    else (if HasName(rows[0]) then [rows[0]] else []) + KeepNamed(rows[1..])
  }

  /** Filtering distributes over concatenation: kept rows keep their relative order. */
  lemma {:induction false} KeepNamedAppend(a: seq<Row>, b: seq<Row>)
    ensures KeepNamed(a + b) == KeepNamed(a) + KeepNamed(b)
  {
    if a == [] {
      assert a + b == b;
    } else {
      assert (a + b)[1..] == a[1..] + b;
      KeepNamedAppend(a[1..], b);
    }
  }

  /** A named row is kept, an unnamed one dropped. */
  lemma KeepNamedSingle(x: Row)
    ensures KeepNamed([x]) == if HasName(x) then [x] else []
  {
  }

  /** When every row is named, filtering keeps all of them. */
  lemma {:induction false} KeepNamedAllNamed(rows: seq<Row>)
    requires forall i :: 0 <= i < |rows| ==> HasName(rows[i])
    ensures KeepNamed(rows) == rows
  {
    if rows != [] {
      KeepNamedAllNamed(rows[1..]);
      assert [rows[0]] + rows[1..] == rows;
    }
  }

  /** A row with its seat cell replaced by the normalised seat text; every other
      column is left as it was. */
  function NormalizeSeat(row: Row): (r: Row)
    ensures Get(r, SeatColumn) == Text(Seat.SeatText(Get(row, SeatColumn)))
    ensures SeatClean(r)
    ensures forall k :: k != SeatColumn ==> Get(r, k) == Get(row, k)
  {
    row[SeatColumn := Text(Seat.SeatText(Get(row, SeatColumn)))]
  }

  /** A row whose seat is already normalised is its own normalisation. */
  lemma NormalizeSeatClean(row: Row)
    requires SeatClean(row)
    ensures NormalizeSeat(row) == row
  {
  }

  /** The seat column mapped over all rows. */
  function NormalizeSeats(rows: seq<Row>): (r: seq<Row>)
    ensures |r| == |rows|
    ensures forall i :: 0 <= i < |r| ==> SeatClean(r[i])
    ensures forall i, k :: 0 <= i < |r| && k != SeatColumn ==> Get(r[i], k) == Get(rows[i], k)
  {
    seq(|rows|, i requires 0 <= i < |rows| => NormalizeSeat(rows[i]))
  }

  /** load_data on the result of reading the worksheet (None when the read fails):
      a read failure, or a missing name or seat column, gives the empty data frame;
      otherwise the named rows with normalised seats, under the same columns. */
  function Load(read: Option<Table>): (r: Table)
    ensures r == Empty || Loaded(r)
    ensures read.None? ==> r == Empty
    ensures read.Some? && NameColumn !in read.value.columns ==> r == Empty
    ensures read.Some? && SeatColumn !in read.value.columns ==> r == Empty
    ensures read.Some? && NameColumn in read.value.columns && SeatColumn in read.value.columns ==>
              r.columns == read.value.columns && r.rows == LoadedRows(read.value.rows)
              && |r.rows| == |KeepNamed(read.value.rows)|
  {
    match read
    case None => Empty
    case Some(t) =>
      if NameColumn !in t.columns || SeatColumn !in t.columns then Empty
      else Table(t.columns, LoadedRows(t.rows))
  }

  /** The rows a successful load produces from the worksheet's rows. */
  function LoadedRows(rows: seq<Row>): (r: seq<Row>)
    ensures forall i :: 0 <= i < |r| ==> HasName(r[i]) && SeatClean(r[i])
  {
    NormalizeSeats(KeepNamed(rows))
  }

  /** Loading distributes over concatenation of rows, so it keeps the relative order
      of the rows it keeps. */
  lemma LoadedRowsAppend(a: seq<Row>, b: seq<Row>)
    ensures LoadedRows(a + b) == LoadedRows(a) + LoadedRows(b)
  {
    KeepNamedAppend(a, b);
  }

  /** One row loads to itself with a normalised seat when it is named, and to no row
      otherwise; with LoadedRowsAppend this determines a load row by row. */
  lemma LoadedRowsSingle(x: Row)
    ensures LoadedRows([x]) == if HasName(x) then [NormalizeSeat(x)] else []
  {
  }

  /** A table is left unchanged by loading exactly when it is a loaded roster or the
      empty data frame. */
  lemma LoadFixedPoint(t: Table)
    ensures Load(Some(t)) == t <==> Loaded(t) || t == Empty
  {
    if Loaded(t) {
      KeepNamedAllNamed(t.rows);
      forall i | 0 <= i < |t.rows| ensures NormalizeSeat(t.rows[i]) == t.rows[i] {
        NormalizeSeatClean(t.rows[i]);
      }
      assert NormalizeSeats(t.rows) == t.rows;
    }
  }

  /** Loading what was loaded gives it back: filtering and normalising are idempotent. */
  lemma LoadIdempotent(read: Option<Table>)
    ensures Load(Some(Load(read))) == Load(read)
  {
    LoadFixedPoint(Load(read));
  }
}
