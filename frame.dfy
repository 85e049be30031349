/** The data frame a tab edits in place: whole-column assignments and the per-row
    edit loops `for i, row in df.iterrows(): df.at[i, col] = ...`. */
module Frames {
  import opened Sheet
  import opened Columns

  class Frame {
    var columns: set<string>
    var rows: seq<Row>

    /** The table the frame currently holds. */
    function Contents(): Table
      reads this
    {
      Table(columns, rows)
    }

    constructor (t: Table)
      ensures Contents() == t
    {
      columns := t.columns;
      rows := t.rows;
    }

    /** `df[col] = c`. */
    method AssignColumn(col: string, c: Cell)
      modifies this
      ensures Contents() == SetColumn(old(Contents()), col, c)
    {
      columns := columns + {col};
      rows := seq(|rows|, i requires 0 <= i < |rows| reads this => rows[i][col := c]);
    }

    /** `if col not in df.columns: df[col] = c`. */
    method AddColumnIfAbsent(col: string, c: Cell)
      modifies this
      ensures Contents() == EnsureColumn(old(Contents()), col, c)
    {
      if col !in columns {
        AssignColumn(col, c);
      }
    }

    /** `df.at[i, col] = c`: one cell of one row; every other row is unchanged. */
    method SetAt(i: nat, col: string, c: Cell)
      requires i < |rows|
      modifies this
      ensures columns == old(columns) + {col}
      ensures rows == old(rows)[i := old(rows)[i][col := c]]
    {
      columns := columns + {col};
      rows := rows[i := rows[i][col := c]];
    }

    /** The attendance form's loop: row i's `date` cell gets the state picked for it. */
    method RecordAttendance(date: string, picks: seq<Option<Status>>)
      requires date in columns && |picks| == |rows|
      modifies this
      ensures Contents() == WithPicks(old(Contents()), date, picks)
    {
      var i := 0;
      while i < |rows|
        invariant 0 <= i <= |rows| == |old(rows)|
        invariant columns == old(columns)
        invariant forall k :: 0 <= k < i ==> rows[k] == old(rows)[k][date := PickCell(picks[k])]
        invariant forall k :: i <= k < |rows| ==> rows[k] == old(rows)[k]
      {
        SetAt(i, date, PickCell(picks[i]));
        i := i + 1;
      }
    }

    /** The score form's loop: each row's widget starts from the row's current cell,
        and what it returns is written back to that cell. */
    method RecordScores(item: string, edits: seq<Option<real>>)
      requires item in columns && |edits| == |rows|
      modifies this
      ensures Contents() == WithScores(old(Contents()), item, edits)
    {
      var i := 0;
      while i < |rows|
        invariant 0 <= i <= |rows| == |old(rows)|
        invariant columns == old(columns)
        invariant forall k :: 0 <= k < i ==>
                    rows[k] == old(rows)[k][item := ScoreCell(Get(old(rows)[k], item), edits[k])]
        invariant forall k :: i <= k < |rows| ==> rows[k] == old(rows)[k]
      {
        SetAt(i, item, ScoreCell(Get(rows[i], item), edits[i]));
        i := i + 1;
      }
    }
  }
}
