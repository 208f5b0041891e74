/**
 * `updateRawData`: the copy-on-write edit of the grid row of one week. The
 * row `10 + weekIndex` is padded with empty cells to the layout's width and
 * five cells are overwritten: actual mileage, difference, the two workout notes
 * and the week's notes. Nothing else changes.
 */
module Updater {
  import opened Options
  import opened Layout
  import opened Projection

  /** `String(number)`. */
  type Show = real -> string

  /** The five columns the updater writes, as it lays them out itself. */
  datatype WriteMap = WriteMap(q1Note: nat, q2Note: nat, actual: nat, diff: nat, notes: nat)

  /** The updater's own column table of each layout. */
  function WriteColumns(v: Variant): WriteMap {
    match v
    case Shifted => WriteMap(6, 9, 12, 13, 14)
    case Standard => WriteMap(6, 8, 10, 11, 12)
  }

  /** The two column tables agree: the updater writes the cells the projection reads the same fields from. */
  lemma SameColumns(rows: Grid)
    ensures var w := WriteColumns(Detect(rows)); var m := Columns(Detect(rows));
      w.q1Note == m.q1Note && w.q2Note == m.q2Note && w.actual == m.actual
      && w.diff == m.difference && w.notes == m.notes
    ensures Columns(Detect(rows)).Written() == {WriteColumns(Detect(rows)).actual, WriteColumns(Detect(rows)).diff,
      WriteColumns(Detect(rows)).q1Note, WriteColumns(Detect(rows)).q2Note, WriteColumns(Detect(rows)).notes}
  {
  }

  /** The cell text of an optional number: `String(x)`, or "" when absent. */
  function Shown(x: Option<real>, show: Show): string {
    if x.Some? then show(x.value) else ""
  }

  /** `row` padded with "" to at least `n` cells. */
  function Pad(row: Row, n: nat): (p: Row)
    ensures |p| == if |row| < n then n else |row|
    ensures forall c :: 0 <= c < |p| ==> p[c] == if c < |row| then row[c] else ""
  {
    if |row| < n then row + seq(n - |row|, _ => "") else row
  }

  /** The edited row: padded to the layout's width, then the five cells of the week written. */
  function EditRow(row: Row, v: Variant, week: TrainingWeek, show: Show): (r: Row)
    ensures |r| == if |row| < MinCols(v) then MinCols(v) else |row|
    ensures var m := Columns(v);
      r[m.actual] == Shown(week.actualMileage, show) && r[m.difference] == Shown(week.difference, show)
      && r[m.q1Note] == week.q1.notes && r[m.q2Note] == week.q2.notes && r[m.notes] == week.notes
    ensures forall c :: 0 <= c < |r| && c !in Columns(v).Written() ==> r[c] == if c < |row| then row[c] else ""
  {
    var m := Columns(v);
    var p := Pad(row, MinCols(v));
    p[m.actual := Shown(week.actualMileage, show)]
     [m.notes := week.notes]
     [m.q1Note := week.q1.notes]
     [m.q2Note := week.q2.notes]
     [m.difference := Shown(week.difference, show)]
  }

  /**
   * `updateRawData(rows, weekIndex, week)`: the grid with the row
   * `10 + weekIndex` edited, or the grid itself when there is no such row.
   * The row count never changes and every other row is kept.
   */
  function Update(rows: Grid, weekIndex: nat, week: TrainingWeek, show: Show): (r: Grid)
    ensures |r| == |rows|
    ensures forall j :: 0 <= j < |rows| && j != FirstDataRow + weekIndex ==> r[j] == rows[j]
    ensures FirstDataRow + weekIndex >= |rows| ==> r == rows
    ensures FirstDataRow + weekIndex < |rows| ==>
      r[FirstDataRow + weekIndex] == EditRow(rows[FirstDataRow + weekIndex], Detect(rows), week, show)
  {
    var t := FirstDataRow + weekIndex;
    if t >= |rows| then rows else rows[t := EditRow(rows[t], Detect(rows), week, show)]
  }

  /**
   * `updateRawData`: copies the grid and the target row, pads the copy with
   * `push('')` up to the layout's width, assigns the five cells and puts the
   * row back into the copied grid.
   */
  method UpdateRawData(rawRows: Grid, weekIndex: nat, updatedWeek: TrainingWeek, show: Show) returns (newRows: Grid)
    ensures newRows == Update(rawRows, weekIndex, updatedWeek, show)
  {
    var targetRowIndex := FirstDataRow + weekIndex;
    if targetRowIndex >= |rawRows| {
      return rawRows;
    }
    var v := Detect(rawRows);
    var idx := WriteColumns(v);
    SameColumns(rawRows);
    newRows := rawRows;
    var newRow := newRows[targetRowIndex];
    var minCols := MinCols(v);
    while |newRow| < minCols
      invariant newRow == Pad(rawRows[targetRowIndex], |newRow|)
      invariant |rawRows[targetRowIndex]| <= |newRow| <= (if |rawRows[targetRowIndex]| < minCols then minCols else |rawRows[targetRowIndex]|)
      decreases minCols - |newRow|
    {
      newRow := newRow + [""];
    }
    newRow := newRow[idx.actual := Shown(updatedWeek.actualMileage, show)];
    newRow := newRow[idx.notes := updatedWeek.notes];
    newRow := newRow[idx.q1Note := updatedWeek.q1.notes];
    newRow := newRow[idx.q2Note := updatedWeek.q2.notes];
    newRow := newRow[idx.diff := Shown(updatedWeek.difference, show)];
    newRows := newRows[targetRowIndex := newRow];
  }

  // ------------------------------------------------------------- round trip

  /**
   * `parseFloat` reads nothing from an empty cell, and reads back what `String`
   * writes for the two numbers of `week` that the updater writes.
   */
  ghost predicate RoundTrips(parse: Parse, show: Show, week: TrainingWeek) {
    parse("") == None
    && (week.actualMileage.Some? ==> parse(show(week.actualMileage.value)) == week.actualMileage)
    && (week.difference.Some? ==> parse(show(week.difference.value)) == week.difference)
  }

  /** For every week there is a pair of conversions that round-trips its two numbers. */
  lemma RoundTripsExist(week: TrainingWeek)
    ensures exists parse: Parse, show: Show :: RoundTrips(parse, show, week)
  {
    var a := week.actualMileage.GetOr(0.0);
    var d := week.difference.GetOr(0.0);
    var show: Show := x => if x == a then "a" else "d";
    var parse: Parse := s => if s == "a" then Some(a) else if s == "d" then Some(d) else None;
    assert RoundTrips(parse, show, week);
  }

  /** The week `w` with the five fields the updater writes taken from `week`. */
  function WithEdits(w: TrainingWeek, week: TrainingWeek): TrainingWeek {
    w.(actualMileage := week.actualMileage, difference := week.difference, notes := week.notes,
       q1 := w.q1.(notes := week.q1.notes), q2 := w.q2.(notes := week.q2.notes))
  }

  /** The cell of an optional number reads back as that number. */
  lemma ShownReadsBack(row: Row, idx: nat, x: Option<real>, parse: Parse, show: Show)
    requires parse("") == None && (x.Some? ==> parse(show(x.value)) == x)
    requires idx < |row| && row[idx] == Shown(x, show)
    ensures GetNum(row, idx, parse) == x
  {
  }

  /** The edited row keeps the cells the updater does not write, and holds the three notes it does. */
  lemma EditRowKeepsRead(row: Row, v: Variant, week: TrainingWeek, show: Show)
    ensures var m := Columns(v); var r := EditRow(row, v, week, show);
      Cell(r, m.weeks) == Cell(row, m.weeks) && Cell(r, m.fraction) == Cell(row, m.fraction)
      && Cell(r, m.easy) == Cell(row, m.easy) && Cell(r, m.q1Desc) == Cell(row, m.q1Desc)
      && Cell(r, m.q2Desc) == Cell(row, m.q2Desc) && Cell(r, m.q1Note) == week.q1.notes
      && Cell(r, m.q2Note) == week.q2.notes && Cell(r, m.notes) == week.notes
  {
  }

  /**
   * Reading the edited row gives the week it held with the five written fields
   * replaced by those of `week`; the week counts, the quality workouts'
   * descriptions and targets, and the easy mileage are kept.
   */
  lemma EditRowReadsBack(row: Row, v: Variant, week: TrainingWeek, parse: Parse, show: Show)
    requires RoundTrips(parse, show, week)
    ensures ReadWeek(EditRow(row, v, week, show), Columns(v), parse) == WithEdits(ReadWeek(row, Columns(v), parse), week)
  {
    var m := Columns(v);
    var r := EditRow(row, v, week, show);
    EditRowKeepsRead(row, v, week, show);
    assert ReadWorkout(r, m.q1Desc, m.q1Note) == ReadWorkout(row, m.q1Desc, m.q1Note).(notes := week.q1.notes);
    assert ReadWorkout(r, m.q2Desc, m.q2Note) == ReadWorkout(row, m.q2Desc, m.q2Note).(notes := week.q2.notes);
    assert GetNum(r, m.actual, parse) == week.actualMileage by {
      ShownReadsBack(r, m.actual, week.actualMileage, parse, show);
    }
    assert GetNum(r, m.difference, parse) == week.difference by {
      ShownReadsBack(r, m.difference, week.difference, parse, show);
    }
  }

  /** `EditRowReadsBack` for the reader of a layout. */
  lemma ReaderReadsBack(row: Row, v: Variant, week: TrainingWeek, parse: Parse, show: Show)
    requires RoundTrips(parse, show, week)
    ensures ReaderOf(Columns(v), parse)(EditRow(row, v, week, show)) == WithEdits(ReaderOf(Columns(v), parse)(row), week)
  {
    EditRowReadsBack(row, v, week, parse, show);
  }

  /**
   * The edited row is always wide enough to be read; a row the reader skipped
   * for having fewer than five cells comes back padded to the layout's width.
   */
  lemma EditRowConsidered(row: Row, v: Variant, week: TrainingWeek, show: Show)
    ensures Considered(EditRow(row, v, week, show))
    ensures !Considered(row) ==> |EditRow(row, v, week, show)| == MinCols(v)
  {
  }

  /** The updater leaves the header row and the row count alone, so the updated grid keeps its layout. */
  lemma UpdateKeepsLayout(rows: Grid, weekIndex: nat, week: TrainingWeek, show: Show)
    ensures Detect(Update(rows, weekIndex, week, show)) == Detect(rows)
  {
    var rows' := Update(rows, weekIndex, week, show);
    if |rows| > HeaderRow {
      assert rows'[HeaderRow] == rows[HeaderRow];
    }
  }

  /**
   * Update then project, for any reader that reads the edited row as the week
   * it held with the five written fields replaced: when every data row up to
   * the target row yields a week, the projection of the updated grid is that of
   * the old grid with the `weekIndex`-th week edited, and no other week changes.
   */
  lemma UpdateThenRead(rows: Grid, weekIndex: nat, week: TrainingWeek, show: Show, read: Reader)
    requires FirstDataRow + weekIndex < |rows|
    requires forall r :: FirstDataRow <= r <= FirstDataRow + weekIndex ==> Contributes(rows[r], read)
    requires read(EditRow(rows[FirstDataRow + weekIndex], Detect(rows), week, show))
      == WithEdits(read(rows[FirstDataRow + weekIndex]), week)
    ensures |Projected(Update(rows, weekIndex, week, show), read, |rows|)| == |Projected(rows, read, |rows|)|
    ensures weekIndex < |Projected(rows, read, |rows|)|
    ensures Projected(Update(rows, weekIndex, week, show), read, |rows|)[weekIndex]
      == WithEdits(Projected(rows, read, |rows|)[weekIndex], week)
    ensures forall j :: 0 <= j < |Projected(rows, read, |rows|)| && j != weekIndex ==>
      Projected(Update(rows, weekIndex, week, show), read, |rows|)[j] == Projected(rows, read, |rows|)[j]
  {
    var t := FirstDataRow + weekIndex;
    var rows' := Update(rows, weekIndex, week, show);
    ProjectedReplaceDense(rows, rows', read, t, weekIndex);
  }

  /**
   * Update then project: when every data row up to the target row yields a
   * week (so that `weekIndex` is both the row offset the updater writes and the
   * position of the week in the projection), the projection of the updated grid
   * is that of the old grid with the five fields of the `weekIndex`-th week
   * replaced, and no other week changes.
   */
  lemma UpdateThenProject(rows: Grid, weekIndex: nat, week: TrainingWeek, parse: Parse, show: Show)
    requires RoundTrips(parse, show, week)
    requires FirstDataRow + weekIndex < |rows|
    requires forall r :: FirstDataRow <= r <= FirstDataRow + weekIndex ==>
      Contributes(rows[r], ReaderOf(Columns(Detect(rows)), parse))
    ensures |Weeks(Update(rows, weekIndex, week, show), parse)| == |Weeks(rows, parse)|
    ensures weekIndex < |Weeks(rows, parse)|
    ensures Weeks(Update(rows, weekIndex, week, show), parse)[weekIndex] == WithEdits(Weeks(rows, parse)[weekIndex], week)
    ensures forall j :: 0 <= j < |Weeks(rows, parse)| && j != weekIndex ==>
      Weeks(Update(rows, weekIndex, week, show), parse)[j] == Weeks(rows, parse)[j]
  {
    UpdateKeepsLayout(rows, weekIndex, week, show);
    ReaderReadsBack(rows[FirstDataRow + weekIndex], Detect(rows), week, parse, show);
    UpdateThenRead(rows, weekIndex, week, show, ReaderOf(Columns(Detect(rows)), parse));
  }
}
