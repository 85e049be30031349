/** The roster banner on the attendance tab: how many rows are boys, how many are
    girls, and how many rows there are. */
module Stats {
  import opened Sheet

  const Boy: string := "男"
  const Girl: string := "女"

  datatype Counts = Counts(boys: nat, girls: nat, total: nat)

  predicate IsGender(row: Row, g: string)
  {
    Get(row, GenderColumn) == Text(g)
  }

  /** The positions of the rows whose gender cell is exactly `g`. */
  function RowsWithGender(rows: seq<Row>, g: string): set<nat>
  {
    set i: nat | i < |rows| && IsGender(rows[i], g)
  }

  /** The number of rows whose gender cell is exactly `g`. */
  function CountGender(rows: seq<Row>, g: string): (n: nat)
    ensures n <= |rows|
  {
    if rows == [] then 0
    else CountGender(rows[..|rows| - 1], g) + (if IsGender(rows[|rows| - 1], g) then 1 else 0)
  }

  /** The count is the number of matching positions. */
  lemma {:induction false} CountGenderIsCardinality(rows: seq<Row>, g: string)
    ensures CountGender(rows, g) == |RowsWithGender(rows, g)|
  {
    if rows == [] {
      assert RowsWithGender(rows, g) == {};
    } else {
      var n := |rows| - 1;
      var init := rows[..n];
      CountGenderIsCardinality(init, g);
      var last: set<nat> := if IsGender(rows[n], g) then {n} else {};
      assert RowsWithGender(rows, g) == RowsWithGender(init, g) + last;
      assert n !in RowsWithGender(init, g);
    }
  }

  /** No row is counted both as a boy and as a girl. */
  lemma {:induction false} BoysAndGirlsWithinTotal(rows: seq<Row>)
    ensures CountGender(rows, Boy) + CountGender(rows, Girl) <= |rows|
  {
    if rows != [] {
      BoysAndGirlsWithinTotal(rows[..|rows| - 1]);
    }
  }

  /** The counts `b, g = len(df[gender == "男"]), len(df[gender == "女"])` with the
      row total; None when the data frame has no gender column, where selecting the
      column raises. */
  function RosterStats(t: Table): (r: Option<Counts>)
    ensures r.Some? <==> GenderColumn in t.columns
    ensures r.Some? ==> r.value.total == |t.rows| && r.value.boys + r.value.girls <= r.value.total
    ensures r.Some? ==> r.value.boys == |RowsWithGender(t.rows, Boy)|
    ensures r.Some? ==> r.value.girls == |RowsWithGender(t.rows, Girl)|
  {
    if GenderColumn !in t.columns then None
    else
      BoysAndGirlsWithinTotal(t.rows);
      CountGenderIsCardinality(t.rows, Boy);
      CountGenderIsCardinality(t.rows, Girl);
      Some(Counts(CountGender(t.rows, Boy), CountGender(t.rows, Girl), |t.rows|))
  }
}
