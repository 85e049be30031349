/** The in-memory table the page works on: a data frame read from one worksheet of
    the backing spreadsheet. Columns are named by strings; every row maps column
    names to cells, and a column a row does not mention reads as a missing cell,
    as a NaN does in the data frame. */
module Sheet {

  datatype Option<T> = None | Some(value: T)

  /** A cell: missing (NaN or an empty spreadsheet cell), text, or a number. */
  datatype Cell = Missing | Text(s: string) | Number(x: real)

  type Row = map<string, Cell>

  /** A data frame: its set of column names and its rows in order. */
  datatype Table = Table(columns: set<string>, rows: seq<Row>)

  /** The three fixed columns of a roster: seat number, name, gender. */
  const SeatColumn: string := "座號"
  const NameColumn: string := "姓名"
  const GenderColumn: string := "性別"

  /** The empty data frame: no columns and no rows. */
  const Empty: Table := Table({}, [])

  /** The cell of `row` in column `col`; a column the row lacks is missing. */
  function Get(row: Row, col: string): Cell
  {
    if col in row then row[col] else Missing
  }

  /** The suffixes of the two worksheets each class has. */
  const AttendanceSuffix: string := "點名"
  const ScoreSuffix: string := "成績"

  /** The worksheet name of a class and purpose: "{class}_{suffix}". */
  function SheetName(cls: string, suffix: string): (name: string)
    ensures |name| == |cls| + 1 + |suffix|
    ensures name[..|cls|] == cls && name[|cls|] == '_' && name[|cls| + 1..] == suffix
  {
    cls + "_" + suffix
  }

  /** For one purpose, different classes never share a worksheet. */
  lemma SheetNameInjective(c1: string, c2: string, suffix: string)
    requires SheetName(c1, suffix) == SheetName(c2, suffix)
    ensures c1 == c2
  {
  }

  /** The attendance worksheet of any class is never the score worksheet of any
      class, so a commit of one never replaces the other. */
  lemma AttendanceAndScoreSheetsDiffer(c1: string, c2: string)
    ensures SheetName(c1, AttendanceSuffix) != SheetName(c2, ScoreSuffix)
  {
  }
}
