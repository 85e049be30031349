/** The dynamic columns and their edits, as functions on tables: one attendance column
    per date, one score column per test item, and what the per-row edit loops leave in
    them. The data frame class in frame.dfy is proved against these. */
module Columns {
  import opened Sheet

  /** The four attendance states offered for each row. */
  datatype Status = Present | Late | Absent | Excused

  function Label(s: Status): (r: string)
    ensures r in AttendanceOptions
    ensures s == Present <==> r == "出席"
    ensures s == Late <==> r == "遲到"
    ensures s == Absent <==> r == "缺席"
    ensures s == Excused <==> r == "公假"
  {
    match s
    case Present => "出席"
    case Late => "遲到"
    case Absent => "缺席"
    case Excused => "公假"
  }

  const AttendanceOptions: seq<string> := ["出席", "遲到", "缺席", "公假"]

  /** Every option is the label of exactly one state. */
  lemma LabelBijective(s1: Status, s2: Status)
    ensures Label(s1) == Label(s2) <==> s1 == s2
    ensures forall o :: o in AttendanceOptions ==> exists s :: Label(s) == o
  {
    assert Label(Present) == AttendanceOptions[0];
    assert Label(Late) == AttendanceOptions[1];
    assert Label(Absent) == AttendanceOptions[2];
    assert Label(Excused) == AttendanceOptions[3];
  }

  /** What `df[col] = c` leaves: the column exists and holds `c` on every row, whatever
      it held before; every other cell is unchanged. */
  function SetColumn(t: Table, col: string, c: Cell): (r: Table)
    ensures r.columns == t.columns + {col}
    ensures |r.rows| == |t.rows|
    ensures forall i, k :: 0 <= i < |r.rows| ==>
              Get(r.rows[i], k) == if k == col then c else Get(t.rows[i], k)
  {
    Table(t.columns + {col}, seq(|t.rows|, i requires 0 <= i < |t.rows| => t.rows[i][col := c]))
  }

  /** What `if col not in df.columns: df[col] = c` leaves: a new column holds `c` on
      every row; an existing column, and the whole table with it, is untouched. */
  function EnsureColumn(t: Table, col: string, c: Cell): (r: Table)
    ensures r.columns == t.columns + {col}
    ensures |r.rows| == |t.rows|
    ensures col in t.columns ==> r == t
    ensures forall i, k :: 0 <= i < |r.rows| ==>
              Get(r.rows[i], k) == if k == col && col !in t.columns then c else Get(t.rows[i], k)
  {
    if col in t.columns then t else SetColumn(t, col, c)
  }

  /** Creating a column twice is creating it once. */
  lemma EnsureColumnIdempotent(t: Table, col: string, c: Cell)
    ensures EnsureColumn(EnsureColumn(t, col, c), col, c) == EnsureColumn(t, col, c)
  {
  }

  /** The value a fresh score column starts with. The code writes 0.0, so a row
      that was never measured cannot be told apart from a score of zero; a
      missing cell would keep the two apart. */
  const ScoreDefault: Cell := Number(0.0)

  /** The attendance column as the page prepares it: overwritten with "出席" on every
      row. The code resets the column unconditionally, so states stored earlier under
      the same date are not carried into the form. */
  function FreshAttendance(t: Table, date: string): (r: Table)
    ensures r.columns == t.columns + {date} && |r.rows| == |t.rows|
    ensures forall i :: 0 <= i < |r.rows| ==> Get(r.rows[i], date) == Text("出席")
    ensures forall i, k :: 0 <= i < |r.rows| && k != date ==> Get(r.rows[i], k) == Get(t.rows[i], k)
  {
    SetColumn(t, date, Text(Label(Present)))
  }

  /** The score column as the page prepares it: created with ScoreDefault when absent. */
  function FreshScores(t: Table, item: string): (r: Table)
    ensures r.columns == t.columns + {item} && |r.rows| == |t.rows|
    ensures item in t.columns ==> r == t
    ensures item !in t.columns ==> forall i :: 0 <= i < |r.rows| ==> Get(r.rows[i], item) == Number(0.0)
    ensures forall i, k :: 0 <= i < |r.rows| && k != item ==> Get(r.rows[i], k) == Get(t.rows[i], k)
  {
    EnsureColumn(t, item, ScoreDefault)
  }

  /** The cell a segmented control's result is stored as: the state's label, or a
      missing cell when the control was cleared. A cleared control returns None and
      the loop writes that None back as it is, so the row commits an empty cell rather
      than falling back to "出席". */
  function PickCell(p: Option<Status>): (c: Cell)
    ensures c == Missing || (c.Text? && c.s in AttendanceOptions)
    ensures p.Some? ==> c == Text(Label(p.value))
    ensures p.None? ==> c == Missing
  {
    match p
    case None => Missing
    case Some(s) => Text(Label(s))
  }

  /** What the attendance edit loop leaves: row i's `date` cell holds the state
      picked for row i; no other cell changes. */
  function WithPicks(t: Table, date: string, picks: seq<Option<Status>>): (r: Table)
    requires |picks| == |t.rows|
    ensures r.columns == t.columns + {date} && |r.rows| == |t.rows|
    ensures forall i :: 0 <= i < |r.rows| ==> Get(r.rows[i], date) == PickCell(picks[i])
    ensures forall i, k :: 0 <= i < |r.rows| && k != date ==> Get(r.rows[i], k) == Get(t.rows[i], k)
  {
    Table(t.columns + {date},
          seq(|t.rows|, i requires 0 <= i < |t.rows| => t.rows[i][date := PickCell(picks[i])]))
  }

  /** The number a score widget shows and returns: the edited value, or the current
      cell when the row was left alone. The cell changes exactly when a number other
      than the stored one is entered, and a changed cell always holds a number. */
  function ScoreCell(current: Cell, edit: Option<real>): (c: Cell)
    ensures c == current <==> edit.None? || current == Number(edit.value)
    ensures c != current ==> c.Number?
  {
    match edit
    case None => current
    case Some(v) => Number(v)
  }

  /** What the score edit loop leaves: row i's `item` cell holds the value entered for
      row i, or keeps its value if the row was not edited; no other cell changes. */
  function WithScores(t: Table, item: string, edits: seq<Option<real>>): (r: Table)
    requires |edits| == |t.rows|
    ensures r.columns == t.columns + {item} && |r.rows| == |t.rows|
    ensures forall i :: 0 <= i < |r.rows| ==> Get(r.rows[i], item) == ScoreCell(Get(t.rows[i], item), edits[i])
    ensures forall i, k :: 0 <= i < |r.rows| && k != item ==> Get(r.rows[i], k) == Get(t.rows[i], k)
  {
    Table(t.columns + {item},
          seq(|t.rows|, i requires 0 <= i < |t.rows| =>
            t.rows[i][item := ScoreCell(Get(t.rows[i], item), edits[i])]))
  }

  /** The attendance worksheet the page commits: the reset column, then the picks.
      Its date column holds exactly the picks, each one of the four options or
      missing, whatever the column held before; nothing else changes. */
  function AttendanceSheet(t: Table, date: string, picks: seq<Option<Status>>): (r: Table)
    requires |picks| == |t.rows|
    ensures r.columns == t.columns + {date} && |r.rows| == |t.rows|
    ensures forall i :: 0 <= i < |r.rows| ==> Get(r.rows[i], date) == PickCell(picks[i])
    ensures forall i :: 0 <= i < |r.rows| && picks[i].None? ==> Get(r.rows[i], date) == Missing
    ensures forall i :: 0 <= i < |r.rows| ==>
              Get(r.rows[i], date) == Missing || (Get(r.rows[i], date).Text? && Get(r.rows[i], date).s in AttendanceOptions)
    ensures forall i, k :: 0 <= i < |r.rows| && k != date ==> Get(r.rows[i], k) == Get(t.rows[i], k)
  {
    WithPicks(FreshAttendance(t, date), date, picks)
  }

  /** The score worksheet the page commits: the column created if absent, then the
      edits. An edited row holds its new value; an unedited row keeps the value stored
      before, or ScoreDefault when the column is new; nothing else changes. */
  function ScoreSheet(t: Table, item: string, edits: seq<Option<real>>): (r: Table)
    requires |edits| == |t.rows|
    ensures r.columns == t.columns + {item} && |r.rows| == |t.rows|
    ensures forall i :: 0 <= i < |r.rows| && edits[i].Some? ==> Get(r.rows[i], item) == Number(edits[i].value)
    ensures forall i :: 0 <= i < |r.rows| && edits[i].None? && item in t.columns ==>
              Get(r.rows[i], item) == Get(t.rows[i], item)
    ensures forall i :: 0 <= i < |r.rows| && edits[i].None? && item !in t.columns ==>
              Get(r.rows[i], item) == ScoreDefault
    ensures forall i, k :: 0 <= i < |r.rows| && k != item ==> Get(r.rows[i], k) == Get(t.rows[i], k)
  {
    WithScores(FreshScores(t, item), item, edits)
  }

  /** The picks every control starts with: each one stores "出席". */
  function AllPresent(n: nat): (picks: seq<Option<Status>>)
    ensures |picks| == n && forall i :: 0 <= i < n ==> PickCell(picks[i]) == Text("出席")
  {
    seq(n, _ => Some(Present))
  }

  /** Submitting the attendance form untouched commits "出席" for every row: the
      default of the controls agrees with the reset column. */
  lemma AttendanceDefault(t: Table, date: string)
    ensures AttendanceSheet(t, date, AllPresent(|t.rows|)) == FreshAttendance(t, date)
  {
    var a, f := AttendanceSheet(t, date, AllPresent(|t.rows|)), FreshAttendance(t, date);
    forall i | 0 <= i < |t.rows| ensures a.rows[i] == f.rows[i] {
      assert f.rows[i] == t.rows[i][date := Text(Label(Present))];
    }
  }
}
