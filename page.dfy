/** The two editing tabs of the page: load the class's worksheet, prepare the
    dynamic column, run the per-row edit loop, and on submit replace the
    worksheet with the edited data frame. */
module Page {
  import opened Sheet
  import opened Loader
  import opened Stats
  import opened Columns
  import opened Frames
  import opened Store

  /** `load_data(suffix)` for the selected class: a fresh read of "{class}_{suffix}". */
  function LoadData(store: SheetStore, cls: string, suffix: string): (r: Table)
    reads store
    ensures r == Empty || Loaded(r)
    ensures SheetName(cls, suffix) !in store.sheets ==> r == Empty
    ensures SheetName(cls, suffix) in store.sheets && Loaded(store.sheets[SheetName(cls, suffix)]) ==>
              r == store.sheets[SheetName(cls, suffix)]
    ensures SheetName(cls, suffix) in store.sheets ==> r == Load(Some(store.sheets[SheetName(cls, suffix)]))
  {
    var read := store.Fetch(SheetName(cls, suffix));
    var r := Load(read);
    if read.Some? then LoadFixedPoint(read.value); r else r
  }

  /** After a commit of a loaded roster, reading the worksheet back returns it. */
  lemma ReloadAfterCommit(sheets: map<string, Table>, name: string, t: Table)
    requires Loaded(t)
    ensures Load(Lookup(sheets[name := t], name)) == t
  {
    LoadFixedPoint(t);
  }

  /** How a tab ends: no rows to show; a KeyError because the roster has no gender
      column; or the edited data frame, and whether it was written back. */
  datatype TabOutcome = NoRoster | GenderKeyError | Rendered(sheet: Table, saved: bool)

  /** An attendance worksheet that loading produced stays a loaded roster after the
      reset and the edits, so loading it again returns it unchanged. */
  lemma AttendanceSheetReloads(t: Table, date: string, picks: seq<Option<Status>>)
    requires Loaded(t) && date != NameColumn && date != SeatColumn && |picks| == |t.rows|
    ensures Loaded(AttendanceSheet(t, date, picks))
    ensures Load(Some(AttendanceSheet(t, date, picks))) == AttendanceSheet(t, date, picks)
  {
    var a := AttendanceSheet(t, date, picks);
    forall i | 0 <= i < |a.rows| ensures HasName(a.rows[i]) && SeatClean(a.rows[i]) {
      assert Get(a.rows[i], NameColumn) == Get(t.rows[i], NameColumn);
      assert Get(a.rows[i], SeatColumn) == Get(t.rows[i], SeatColumn);
    }
    LoadFixedPoint(a);
  }

  /** The same for a score worksheet. */
  lemma ScoreSheetReloads(t: Table, item: string, edits: seq<Option<real>>)
    requires Loaded(t) && item != NameColumn && item != SeatColumn && |edits| == |t.rows|
    ensures Loaded(ScoreSheet(t, item, edits))
    ensures Load(Some(ScoreSheet(t, item, edits))) == ScoreSheet(t, item, edits)
  {
    var s := ScoreSheet(t, item, edits);
    forall i | 0 <= i < |s.rows| ensures HasName(s.rows[i]) && SeatClean(s.rows[i]) {
      assert Get(s.rows[i], NameColumn) == Get(t.rows[i], NameColumn);
      assert Get(s.rows[i], SeatColumn) == Get(t.rows[i], SeatColumn);
    }
    LoadFixedPoint(s);
  }

  /** The attendance tab. `picks` are the segmented controls' results, one per row;
      `submitted` says whether the form's button was pressed and `accepted` whether
      the backend took the write. The banner counts come first; with no gender
      column they raise and nothing else happens. */
  method AttendanceTab(store: SheetStore, cls: string, date: string, picks: seq<Option<Status>>,
                       submitted: bool, accepted: bool)
    returns (counts: Option<Counts>, outcome: TabOutcome)
    requires |picks| == |LoadData(store, cls, AttendanceSuffix).rows|
    modifies store
    ensures var loaded := old(LoadData(store, cls, AttendanceSuffix));
            && (|loaded.rows| == 0 <==> outcome == NoRoster)
            && counts == (if |loaded.rows| == 0 then None else RosterStats(loaded))
            && (|loaded.rows| > 0 && GenderColumn !in loaded.columns ==> outcome == GenderKeyError)
            && (|loaded.rows| > 0 && GenderColumn in loaded.columns ==>
                  outcome == Rendered(AttendanceSheet(loaded, date, picks), submitted && accepted))
    ensures store.sheets == if outcome.Rendered? && outcome.saved
                            then old(store.sheets)[SheetName(cls, AttendanceSuffix) := outcome.sheet]
                            else old(store.sheets)
    ensures outcome.Rendered? && outcome.saved && date != NameColumn && date != SeatColumn ==>
              LoadData(store, cls, AttendanceSuffix) == outcome.sheet
  {
    var loaded := LoadData(store, cls, AttendanceSuffix);
    counts := None;
    if |loaded.rows| == 0 {
      return counts, NoRoster;
    }
    counts := RosterStats(loaded);
    if counts.None? {
      return counts, GenderKeyError;
    }
    var df := new Frame(loaded);
    df.AssignColumn(date, Text(Label(Present)));
    df.RecordAttendance(date, picks);
    var sheet := df.Contents();
    assert sheet == AttendanceSheet(loaded, date, picks);
    var saved := false;
    if submitted {
      saved := store.Update(SheetName(cls, AttendanceSuffix), sheet, accepted);
    }
    outcome := Rendered(sheet, saved);
    if saved && date != NameColumn && date != SeatColumn {
      AttendanceSheetReloads(loaded, date, picks);
      ReloadAfterCommit(old(store.sheets), SheetName(cls, AttendanceSuffix), sheet);
    }
  }

  /** The score tab. `item` is the chosen or typed test item and `edits` the number
      inputs, None where a row was left at the value it showed. Each row's label
      reads the gender cell, which raises when the column is absent after the score
      column was created (a test item named like the gender column creates it). */
  method ScoreTab(store: SheetStore, cls: string, item: string, edits: seq<Option<real>>,
                  submitted: bool, accepted: bool)
    returns (outcome: TabOutcome)
    requires |edits| == |LoadData(store, cls, ScoreSuffix).rows|
    modifies store
    ensures var loaded := old(LoadData(store, cls, ScoreSuffix));
            && (|loaded.rows| == 0 <==> outcome == NoRoster)
            && (|loaded.rows| > 0 && GenderColumn !in loaded.columns + {item} ==> outcome == GenderKeyError)
            && (|loaded.rows| > 0 && GenderColumn in loaded.columns + {item} ==>
                  outcome == Rendered(ScoreSheet(loaded, item, edits), submitted && accepted))
    ensures store.sheets == if outcome.Rendered? && outcome.saved
                            then old(store.sheets)[SheetName(cls, ScoreSuffix) := outcome.sheet]
                            else old(store.sheets)
    ensures outcome.Rendered? && outcome.saved && item != NameColumn && item != SeatColumn ==>
              LoadData(store, cls, ScoreSuffix) == outcome.sheet
  {
    var loaded := LoadData(store, cls, ScoreSuffix);
    if |loaded.rows| == 0 {
      return NoRoster;
    }
    var df := new Frame(loaded);
    df.AddColumnIfAbsent(item, ScoreDefault);
    if GenderColumn !in df.columns {
      return GenderKeyError;
    }
    df.RecordScores(item, edits);
    var sheet := df.Contents();
    assert sheet == ScoreSheet(loaded, item, edits);
    var saved := false;
    if submitted {
      saved := store.Update(SheetName(cls, ScoreSuffix), sheet, accepted);
    }
    outcome := Rendered(sheet, saved);
    if saved && item != NameColumn && item != SeatColumn {
      ScoreSheetReloads(loaded, item, edits);
      ReloadAfterCommit(old(store.sheets), SheetName(cls, ScoreSuffix), sheet);
    }
  }
}
