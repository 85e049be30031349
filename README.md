# Roster pipeline of the PE teaching page

A Dafny model of the data path behind the Streamlit page `app.py`, which lets a PE
teacher take attendance and record test scores per class in a Google spreadsheet.
Each class has two worksheets, `"{class}_點名"` (attendance) and `"{class}_成績"`
(scores). A worksheet is read into a data frame of student rows with the fixed
columns seat `座號`, name `姓名` and gender `性別` plus any number of dynamic
columns (one per date, one per test item).

The model follows the code:

- `Sheet` — cells (`Missing` for NaN, text, numbers), rows as maps from column name
  to cell, tables as a column set plus an ordered row sequence, and the worksheet
  naming `"{class}_{suffix}"`.
- `Seat` — seat normalisation `astype(str).str.split('.').str[0]`, including what
  Python's `str()` of a float puts before the `.`.
- `Loader` — `load_data`: drop rows whose name is NaN, normalise the seat column,
  fall back to the empty data frame on any failure.
- `Stats` — the banner counts of boys, girls and rows.
- `Columns` — the column operations and edit loops as functions on tables: the
  unconditional `df[date] = "出席"`, the add-if-absent score column with `0.0`, the
  four attendance options, and what each per-row loop leaves behind.
- `Frames` — the data frame as a class edited in place, its loops proved against
  the functions of `Columns`.
- `Store` — the spreadsheet as a map from worksheet name to table; `Update` is the
  full-sheet replace of `conn.update`.
- `Page` — the attendance and score tabs end to end: load, prepare the column, edit,
  commit, and reload.

Widget results are inputs: the segmented controls give one `Option<Status>` per row
(`None` when a control is cleared), the number inputs one `Option<real>` per row
(`None` when the row is left at the value it showed), and the form's submit button
and the backend's acceptance of the write are booleans. The selected class, the date
string and the test item are strings.

## Where the code and the intended policy differ

The model follows the code in each case below.

- The attendance column is overwritten with `出席` on every load (app.py:64). A
  preserving policy would fill only missing cells. `Columns.FreshAttendance` states
  the overwrite.
- A new score column starts at `0.0` (app.py:92), not at a missing cell, so "not yet
  measured" and "scored zero" look the same. `Columns.ScoreDefault` is `Number(0.0)`.
- Only rows whose name cell is NaN are dropped (app.py:49). A row whose name is an
  empty text cell is kept.
- A missing seat column makes the load fail soft to the empty data frame (app.py:50,
  52-53), although the seat column is meant to be optional.
- A missing gender column raises a KeyError in both tabs: in the banner of the
  attendance tab (app.py:61) and in each row's label on the score tab (app.py:99).
  Nothing is committed then. The model returns `GenderKeyError`.
- A missing seat becomes the text `nan` (app.py:50: `astype(str)` writes NaN as
  `nan`), where an empty seat is meant. The full-sheet commits (app.py:77, 104) then
  write `nan` back into the spreadsheet. `Seat.SeatText` states this.
- A cleared attendance control returns `None`, and the loop writes it back
  (app.py:74), so that row commits an empty cell where a missing state is meant to
  count as `出席`. `Columns.PickCell` and `Columns.AttendanceSheet` state this.
- Worksheet names are always `"{class}_{suffix}"`. There is no configurable naming.

## Model

| member | source | states |
|---|---|---|
| `Sheet.SheetName` | app.py:48 | the worksheet name is the class, then `_`, then the suffix, and nothing more |
| `Sheet.SheetNameInjective` | app.py:48 | for one suffix, two classes with the same worksheet name are the same class |
| `Sheet.AttendanceAndScoreSheetsDiffer` | app.py:77-104 | no class's attendance worksheet is any class's score worksheet, so one tab's commit never replaces the other's worksheet |
| `Seat.BeforeDot` | app.py:50 | the result is a prefix of the text with no `.` in it; it stops exactly at the first `.`, and text without a `.` is returned whole |
| `Seat.BeforeDotIdempotent` | app.py:50 | cutting at the first `.` twice is the same as cutting once |
| `Seat.Digits` | app.py:50 | the numeral of a natural is a non-empty string of digits without a leading zero |
| `Seat.DigitsRoundTrip` | app.py:50 | reading back the numeral of `n` gives `n` |
| `Seat.IntegerPartText` | app.py:50 | the text of a float before its `.` has no `.`; for a non-negative float it is the non-empty numeral of its integer part, without a leading zero (0.5 gives "0"); for a negative one it is `-` followed by that numeral for its magnitude |
| `Seat.SeatText` | app.py:50 | a normalised seat never contains `.`; a text seat becomes its prefix up to the first `.` and is unchanged without one; a non-negative numeric seat becomes the non-empty numeral of its integer part, without a leading zero (3.0 gives "3", 0.0 gives "0"), and a negative one `-` followed by that numeral for its magnitude (-3.0 gives "-3"); a missing seat becomes "nan" |
| `Seat.SeatTextIdempotent` | app.py:50 | normalising a normalised seat changes nothing |
| `Seat.SeatExamples` | app.py:50 | "3.0", "3.0000" and the float 3.0 give "3"; "12" and the float 12.0 give "12" |
| `Loader.KeepNamed` | app.py:49 | the kept rows all have a name, and a row is among them exactly when it is among the input rows and has a name |
| `Loader.KeepNamedAppend` | app.py:49 | filtering distributes over concatenation, so kept rows keep their relative order |
| `Loader.KeepNamedSingle` | app.py:49 | a single row is kept exactly when it has a name |
| `Loader.KeepNamedAllNamed` | app.py:49 | when every row has a name, filtering returns the rows unchanged |
| `Loader.NormalizeSeat` | app.py:50 | the seat cell becomes the text of the normalised seat; every other cell of the row is unchanged |
| `Loader.NormalizeSeatClean` | app.py:50 | a row whose seat is already normalised text is its own normalisation |
| `Loader.LoadedRows` | app.py:49-50 | every loaded row has a name and a normalised seat |
| `Loader.LoadedRowsAppend` | app.py:49-50 | loading the rows of two parts is loading each part and concatenating, so order is kept |
| `Loader.LoadedRowsSingle` | app.py:49-50 | a single named row loads to itself with its seat normalised; an unnamed row loads to nothing |
| `Loader.Load` | app.py:46-53 | a failed read, a missing name column or a missing seat column gives the empty data frame; otherwise the columns are kept and the rows are `LoadedRows` of the input rows, one per named input row; the result is always empty or a loaded roster |
| `Loader.LoadFixedPoint` | app.py:46-53 | loading leaves a table unchanged exactly when it is a loaded roster or the empty data frame (both directions) |
| `Loader.LoadIdempotent` | app.py:46-53 | loading the result of a load gives it back |
| `Stats.CountGender` | app.py:61 | a gender count never exceeds the number of rows |
| `Stats.CountGenderIsCardinality` | app.py:61 | the count equals the number of row positions whose gender cell is exactly that gender |
| `Stats.BoysAndGirlsWithinTotal` | app.py:61 | boys plus girls is at most the number of rows |
| `Stats.RosterStats` | app.py:61 | counts exist exactly when the gender column exists; then the total is the row count, boys and girls are the numbers of rows with gender `男` and `女`, and boys plus girls is at most the total |
| `Columns.Label` | app.py:65 | every attendance state's label is one of the four options: 出席 for present, 遲到 for late, 缺席 for absent, 公假 for excused |
| `Columns.LabelBijective` | app.py:65 | two states have the same label exactly when they are the same state, and every option is some state's label |
| `Columns.SetColumn` | app.py:64 | after a whole-column assignment the column exists and holds the value on every row, whatever it held before; row count and every other cell are unchanged |
| `Columns.EnsureColumn` | app.py:92 | an absent column is added with the value on every row; when it is present, the table is returned untouched |
| `Columns.EnsureColumnIdempotent` | app.py:92 | creating the column twice is creating it once |
| `Columns.FreshAttendance` | app.py:64 | every row's date cell is `出席`, whatever it held; the row count and all other cells are unchanged |
| `Columns.FreshScores` | app.py:92 | a present test-item column leaves the table unchanged; an absent one is created with 0.0 on every row; no other cell changes |
| `Columns.PickCell` | app.py:74 | a stored pick is one of the four options or missing; a chosen state is stored as its label and a cleared control as a missing cell |
| `Columns.WithPicks` | app.py:67-75 | after the attendance loop each row's date cell holds that row's pick; no other cell changes |
| `Columns.ScoreCell` | app.py:101 | a row's score cell changes exactly when a number other than the stored one is entered, and a changed cell always holds a number |
| `Columns.WithScores` | app.py:95-102 | after the score loop each row's item cell holds what that row's widget returned (the per-cell function `ScoreCell` of app.py:101): the entered number when the row was edited, its old value when it was not; no other cell changes |
| `Columns.AttendanceSheet` | app.py:64-75 | in the committed attendance sheet each row's date cell is that row's pick, so it is one of the four options or missing, and missing exactly where the control was cleared, whatever it held before; the rows and all other cells are as loaded |
| `Columns.AttendanceDefault` | app.py:64-74 | submitting with every control at its default commits exactly the reset column: `出席` on every row |
| `Columns.ScoreSheet` | app.py:92-102 | in the committed score sheet an edited row holds its new value; an unedited row keeps its stored value, or 0.0 when the column is new; no other cell changes |
| `Frames.Frame.AssignColumn` | app.py:64 | the frame afterwards holds the whole-column assignment of its old contents |
| `Frames.Frame.AddColumnIfAbsent` | app.py:92 | the frame afterwards holds the add-if-absent of its old contents |
| `Frames.Frame.SetAt` | app.py:74 | exactly one cell of one row is replaced; every other row is unchanged |
| `Frames.Frame.RecordAttendance` | app.py:67-75 | the loop leaves the frame holding its old contents with the picks applied row by row |
| `Frames.Frame.RecordScores` | app.py:95-102 | the loop leaves the frame holding its old contents with each row's widget value written back |
| `Store.SheetStore.Fetch` | app.py:49 | a fresh read finds a worksheet exactly when one of that name is stored, and then returns the stored table itself |
| `Store.SheetStore.Update` | app.py:77 | an accepted write replaces the named worksheet with the whole table and no other worksheet changes; a rejected write changes nothing |
| `Page.LoadData` | app.py:46-53 | loading a class's worksheet gives the empty data frame or a loaded roster; a missing worksheet gives the empty data frame; otherwise the result is `Load` of the stored worksheet, so a raw worksheet comes back filtered and seat-normalised, and a stored loaded roster unchanged |
| `Page.ReloadAfterCommit` | app.py:77 | after a loaded roster is written as a worksheet, loading that worksheet returns exactly the roster written |
| `Page.AttendanceSheetReloads` | app.py:77 | an edited attendance sheet of a loaded roster is still a loaded roster, so loading it after the commit returns it unchanged (when the date is not the name or seat column) |
| `Page.ScoreSheetReloads` | app.py:104 | the same for an edited score sheet (when the test item is not the name or seat column) |
| `Page.AttendanceTab` | app.py:57-78 | no rows means nothing is shown (no banner counts and no form); otherwise the counts are computed, a missing gender column raises, and else the reset column with the picks is shown and, when submitted and accepted, written as the whole worksheet `"{class}_點名"` with every other worksheet unchanged; loading it afterwards returns what was written |
| `Page.ScoreTab` | app.py:80-105 | no rows means nothing is shown; otherwise the test-item column is created if absent, a gender column still missing raises, and else the edited sheet is shown and, when submitted and accepted, written as the whole worksheet `"{class}_成績"` with every other worksheet unchanged; loading it afterwards returns what was written |

## Left out

- Page configuration, CSS, tabs, forms, segmented controls, number inputs and the
  HTML of the banner and the coloured name labels (app.py:7-35, 55, 62, 66-75,
  94-102): presentation. Their results are the inputs described above.
- The summary tab (app.py:107-111) only shows `load_data` of both worksheets, which
  `Page.LoadData` covers.
- The `GSheetsConnection` client (app.py:2, 37): network I/O. The spreadsheet is
  `Store.SheetStore`. A read that fails for any reason is `Load(None)`, which gives the
  empty data frame. `Store.SheetStore.Fetch` models only the failure of a missing
  worksheet; a network or permission error while reading an existing worksheet is
  not a separate state of the store.
- A write the backend rejects raises an exception in the code. The model returns
  `ok == false` and leaves the spreadsheet unchanged; what the page shows then is not
  modelled.
- `datetime.now()` and `strftime` (app.py:42-43): library calls. The date is a given
  column-name string.
- The choice between a suggested and a typed test item (app.py:84-90) only selects
  the `test_item` string, which is an input.
- A cleared class selector makes the class `None`, so the worksheet would be
  `"None_點名"`. The class is modelled as any string.
- pandas details: column order (columns are a set, so where a new column is placed
  is not modelled), index labels (rows are addressed by position, which is how
  `iterrows` visits them after reading), dtypes and NaN representation (one
  `Missing` cell).
- Seat.IntegerPartText: does not model Python's exponent notation, used for floats
  of magnitude at least 1e16 or below 1e-4; the seats a roster holds are small
  integers.
- Frames.Frame.RecordScores: the code passes `float(cell)` to the widget. A text
  cell that is not a number raises ValueError there, and a numeric text cell would
  come back as a number. The model keeps an unedited row's cell as it is. Scores are
  `real`; floating-point rounding is not modelled.
- Page.AttendanceTab: an exception on the attendance tab stops the script, so the
  score tab would not run. The two tabs are modelled as separate runs.
- Page.ScoreTab: a test item named like the name or seat column reuses that column.
  The reload round trip is claimed only for other names, since an edited seat number
  would be re-normalised on the next load.
