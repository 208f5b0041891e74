/**
 * `getWeeksFromRaw`: the projection of the data rows of a training grid into
 * training weeks. Rows from index 10 on with at least five cells are read
 * through the column map of the grid's layout; a week whose weeks-until-race is
 * 0 and whose first quality workout is blank is dropped, and the rows after it
 * are still read.
 */
module Projection {
  import opened Options
  import opened Layout
  import opened Extraction

  /** One quality workout of a week; a missing note is the empty string. */
  datatype Workout = Workout(description: string, notes: string, targetDistance: real)

  /** One week of the plan; `actualMileage` and `difference` may be absent. */
  datatype TrainingWeek = TrainingWeek(
    weeksUntilRace: real,
    fractionOfPeak: real,
    q1: Workout,
    q2: Workout,
    weeklyEasyMileage: real,
    actualMileage: Option<real>,
    difference: Option<real>,
    notes: string)

  /** `parseFloat` of a cell, with `NaN` as `None`. */
  type Parse = string -> Option<real>

  /** Index of the first data row. */
  const FirstDataRow: nat := 10

  /** Rows with fewer cells than this are skipped. */
  const MinCells: nat := 5

  /** `getStr`: the cell at `idx`, or "" past the end of the row. */
  function Cell(row: Row, idx: nat): (c: string)
    ensures idx < |row| ==> c == row[idx]
    ensures idx >= |row| ==> c == ""
  {
    if idx < |row| then row[idx] else ""
  }

  /** `getNum`: nothing for a missing or empty cell, otherwise what `parseFloat` makes of it. */
  function GetNum(row: Row, idx: nat, parse: Parse): Option<real> {
    var val := Cell(row, idx);
    if val == "" then None else parse(val)
  }

  /** `getNum(idx) || 0`. */
  function NumOrZero(row: Row, idx: nat, parse: Parse): real {
    GetNum(row, idx, parse).GetOr(0.0)
  }

  /** A workout read from its description and note cells; its target distance is `extractDistance` of the description. */
  function ReadWorkout(row: Row, desc: nat, note: nat): (w: Workout)
    ensures w.targetDistance == Distance(w.description)
    ensures w.description == Cell(row, desc) && w.notes == Cell(row, note)
  {
    var d := Cell(row, desc);
    Workout(d, Cell(row, note), Distance(d))
  }

  /** The week a data row holds, read through the column map `m`. */
  function ReadWeek(row: Row, m: ColumnMap, parse: Parse): TrainingWeek {
    TrainingWeek(
      NumOrZero(row, m.weeks, parse),
      NumOrZero(row, m.fraction, parse),
      ReadWorkout(row, m.q1Desc, m.q1Note),
      ReadWorkout(row, m.q2Desc, m.q2Note),
      NumOrZero(row, m.easy, parse),
      GetNum(row, m.actual, parse),
      GetNum(row, m.difference, parse),
      Cell(row, m.notes))
  }

  /** How the rows are read: the week each row holds. */
  type Reader = Row -> TrainingWeek

  /** The reader of the layout whose column map is `m`. */
  function ReaderOf(m: ColumnMap, parse: Parse): Reader {
    (row: Row) => ReadWeek(row, m, parse)
  }

  /** A row with enough cells to be read at all. */
  predicate Considered(row: Row) {
    |row| >= MinCells
  }

  /** The week is kept unless it has 0 weeks until race and no first workout. */
  predicate Kept(w: TrainingWeek) {
    w.weeksUntilRace != 0.0 || w.q1.description != ""
  }

  /** The row adds a week to the projection. */
  predicate Contributes(row: Row, read: Reader) {
    Considered(row) && Kept(read(row))
  }

  /** What one row adds to the projection: its week, or nothing. */
  function Emit(row: Row, read: Reader): (ws: seq<TrainingWeek>)
    ensures |ws| <= 1
    ensures ws != [] <==> Contributes(row, read)
  {
    if Considered(row) && Kept(read(row)) then [read(row)] else []
  }

  /** The weeks projected from the rows before index `k`. */
  function Projected(rows: Grid, read: Reader, k: nat): seq<TrainingWeek>
    requires k <= |rows|
  {
    if k <= FirstDataRow then [] else Projected(rows, read, k - 1) + Emit(rows[k - 1], read)
  }

  /** The indices of the rows before `k` that the projection takes a week from. */
  function Sources(rows: Grid, read: Reader, k: nat): seq<nat>
    requires k <= |rows|
  {
    if k <= FirstDataRow then []
    else Sources(rows, read, k - 1) + (if Contributes(rows[k - 1], read) then [k - 1] else [])
  }

  /** `getWeeksFromRaw(rows)`: every data row projected through the grid's own layout. */
  function Weeks(rows: Grid, parse: Parse): seq<TrainingWeek> {
    Projected(rows, ReaderOf(Columns(Detect(rows)), parse), |rows|)
  }

  /** `getWeeksFromRaw`: picks the column map of the grid's layout, then projects its rows. */
  method GetWeeksFromRaw(rawRows: Grid, parse: Parse) returns (weeks: seq<TrainingWeek>)
    ensures weeks == Weeks(rawRows, parse)
  {
    var idx := Columns(Detect(rawRows));
    weeks := ProjectRows(rawRows, ReaderOf(idx, parse));
  }

  /**
   * The loop of `getWeeksFromRaw`: from row 10 on, skip rows with fewer than
   * five cells, read the week of each other row and push it unless it is the
   * blank week.
   */
  method ProjectRows(rawRows: Grid, read: Reader) returns (weeks: seq<TrainingWeek>)
    ensures weeks == Projected(rawRows, read, |rawRows|)
  {
    weeks := [];
    var i := FirstDataRow;
    while i < |rawRows|
      invariant FirstDataRow <= i && (i <= |rawRows| || |rawRows| < FirstDataRow)
      invariant weeks == Projected(rawRows, read, if i <= |rawRows| then i else |rawRows|)
      decreases |rawRows| - i
    {
      var row := rawRows[i];
      i := i + 1;
      if |row| < MinCells {
        continue;
      }
      var w := read(row);
      if w.weeksUntilRace != 0.0 || w.q1.description != "" {
        weeks := weeks + [w];
      }
    }
  }

  // ------------------------------------------------------------- properties

  /**
   * The projection takes one week from each contributing row before `k`, in
   * row order: the `j`-th week is the week of the `j`-th source row, which lies
   * in `[10, k)` and contributes.
   */
  lemma {:induction false} ProjectedRows(rows: Grid, read: Reader, k: nat)
    requires k <= |rows|
    ensures |Sources(rows, read, k)| == |Projected(rows, read, k)|
    ensures forall j :: 0 <= j < |Sources(rows, read, k)| ==>
      FirstDataRow <= Sources(rows, read, k)[j] < k
      && Contributes(rows[Sources(rows, read, k)[j]], read)
      && Projected(rows, read, k)[j] == read(rows[Sources(rows, read, k)[j]])
    decreases k
  {
    if k > FirstDataRow {
      ProjectedRows(rows, read, k - 1);
    }
  }

  /** The source rows come in increasing order, each from `[10, k)`. */
  lemma {:induction false} SourcesIncrease(rows: Grid, read: Reader, k: nat)
    requires k <= |rows|
    ensures forall j :: 0 <= j < |Sources(rows, read, k)| ==> FirstDataRow <= Sources(rows, read, k)[j] < k
    ensures forall j, l :: 0 <= j < l < |Sources(rows, read, k)| ==>
      Sources(rows, read, k)[j] < Sources(rows, read, k)[l]
    decreases k
  {
    if k > FirstDataRow {
      SourcesIncrease(rows, read, k - 1);
    }
  }

  /** A row from `[10, k)` is a source row exactly when it contributes. */
  lemma {:induction false} SourcesExact(rows: Grid, read: Reader, k: nat)
    requires k <= |rows|
    ensures forall r :: FirstDataRow <= r < k ==> (Contributes(rows[r], read) <==> r in Sources(rows, read, k))
    decreases k
  {
    if k > FirstDataRow {
      SourcesIncrease(rows, read, k - 1);
      SourcesExact(rows, read, k - 1);
    }
  }

  /** At most one week per data row: the projection is no longer than the rows from 10 on. */
  lemma {:induction false} ProjectedLength(rows: Grid, read: Reader, k: nat)
    requires k <= |rows|
    ensures |Projected(rows, read, k)| <= if k <= FirstDataRow then 0 else k - FirstDataRow
    decreases k
  {
    if k > FirstDataRow {
      ProjectedLength(rows, read, k - 1);
    }
  }

  /** `getWeeksFromRaw` returns at most one week per row from index 10 on, none for a grid of ten rows or fewer. */
  lemma WeeksLength(rows: Grid, parse: Parse)
    ensures |Weeks(rows, parse)| <= if |rows| <= FirstDataRow then 0 else |rows| - FirstDataRow
  {
    ProjectedLength(rows, ReaderOf(Columns(Detect(rows)), parse), |rows|);
  }

  /** Projecting more rows extends the projection of fewer. */
  lemma {:induction false} ProjectedPrefix(rows: Grid, read: Reader, k: nat, n: nat)
    requires k <= n <= |rows|
    ensures Projected(rows, read, k) <= Projected(rows, read, n)
    decreases n - k
  {
    if k < n {
      ProjectedPrefix(rows, read, k, n - 1);
    }
  }

  /** The projection of rows before `k` depends only on those rows. */
  lemma {:induction false} ProjectedSameRows(rows: Grid, rows': Grid, read: Reader, k: nat)
    requires k <= |rows| && k <= |rows'|
    requires forall r :: 0 <= r < k ==> rows[r] == rows'[r]
    ensures Projected(rows, read, k) == Projected(rows', read, k)
    decreases k
  {
    if k > FirstDataRow {
      ProjectedSameRows(rows, rows', read, k - 1);
    }
  }

  /** When every data row before `k` contributes, the week of row `10 + j` is the `j`-th week. */
  lemma {:induction false} ProjectedDense(rows: Grid, read: Reader, k: nat)
    requires FirstDataRow <= k <= |rows|
    requires forall r :: FirstDataRow <= r < k ==> Contributes(rows[r], read)
    ensures |Projected(rows, read, k)| == k - FirstDataRow
    ensures forall j :: 0 <= j < k - FirstDataRow ==> Projected(rows, read, k)[j] == read(rows[FirstDataRow + j])
    decreases k
  {
    if k > FirstDataRow {
      ProjectedDense(rows, read, k - 1);
    }
  }

  /**
   * Replacing one data row `t` by another that also contributes changes only
   * the week taken from it: the projection keeps its length, and the week at
   * the position of row `t` is the new row's week.
   */
  lemma {:induction false} ProjectedReplaceRow(rows: Grid, rows': Grid, read: Reader, t: nat, k: nat)
    requires |rows| == |rows'| && k <= |rows| && FirstDataRow <= t < |rows|
    requires forall r :: 0 <= r < |rows| && r != t ==> rows[r] == rows'[r]
    requires Contributes(rows[t], read) && Contributes(rows'[t], read)
    ensures |Projected(rows', read, k)| == |Projected(rows, read, k)|
    ensures k > t ==> |Projected(rows, read, k)| > |Projected(rows, read, t)|
    ensures forall j :: 0 <= j < |Projected(rows, read, k)| ==>
      Projected(rows', read, k)[j]
      == if k > t && j == |Projected(rows, read, t)| then read(rows'[t]) else Projected(rows, read, k)[j]
    decreases k
  {
    if k > FirstDataRow {
      ProjectedReplaceRow(rows, rows', read, t, k - 1);
      if k - 1 == t {
        ProjectedSameRows(rows, rows', read, t);
      }
    }
  }

  /**
   * When every data row up to `t` contributes, the week of row `t = 10 + pos`
   * sits at position `pos`, and replacing row `t` by another row that contributes
   * changes that week alone.
   */
  lemma ProjectedReplaceDense(rows: Grid, rows': Grid, read: Reader, t: nat, pos: nat)
    requires |rows| == |rows'| && t < |rows| && t == FirstDataRow + pos
    requires forall r :: 0 <= r < |rows| && r != t ==> rows[r] == rows'[r]
    requires forall r :: FirstDataRow <= r <= t ==> Contributes(rows[r], read)
    requires Contributes(rows'[t], read)
    ensures |Projected(rows', read, |rows|)| == |Projected(rows, read, |rows|)|
    ensures pos < |Projected(rows, read, |rows|)|
    ensures Projected(rows, read, |rows|)[pos] == read(rows[t])
    ensures Projected(rows', read, |rows|)[pos] == read(rows'[t])
    ensures forall j :: 0 <= j < |Projected(rows, read, |rows|)| && j != pos ==>
      Projected(rows', read, |rows|)[j] == Projected(rows, read, |rows|)[j]
  {
    ProjectedDense(rows, read, t + 1);
    ProjectedPrefix(rows, read, t + 1, |rows|);
    ProjectedDense(rows, read, t);
    ProjectedReplaceRow(rows, rows', read, t, |rows|);
  }

  /**
   * Every projected week's targets are `extractDistance` of its descriptions,
   * and its descriptions are the cells of the layout's description columns in
   * the row it comes from.
   */
  lemma WeekTargets(rows: Grid, parse: Parse, j: nat)
    requires j < |Weeks(rows, parse)|
    ensures var w := Weeks(rows, parse)[j];
      w.q1.targetDistance == Distance(w.q1.description) && w.q2.targetDistance == Distance(w.q2.description)
    ensures var m := Columns(Detect(rows)); var src := Sources(rows, ReaderOf(m, parse), |rows|);
      j < |src| && FirstDataRow <= src[j] < |rows|
      && Weeks(rows, parse)[j].q1.description == Cell(rows[src[j]], m.q1Desc)
      && Weeks(rows, parse)[j].q2.description == Cell(rows[src[j]], m.q2Desc)
  {
    var read := ReaderOf(Columns(Detect(rows)), parse);
    ProjectedRows(rows, read, |rows|);
    var r := Sources(rows, read, |rows|)[j];
    assert Weeks(rows, parse)[j] == ReadWeek(rows[r], Columns(Detect(rows)), parse);
  }

  /** A row contributes exactly when it has five cells or more and is not the excluded blank week. */
  lemma ContributesExactly(row: Row, m: ColumnMap, parse: Parse)
    ensures Contributes(row, ReaderOf(m, parse)) <==>
      |row| >= 5 && !(NumOrZero(row, m.weeks, parse) == 0.0 && Cell(row, m.q1Desc) == "")
  {
  }

  /**
   * Defaults: a missing, empty or unparsable cell gives 0 for the three
   * numbers that default and nothing for the two optional ones; a missing text
   * cell gives "".
   */
  lemma Defaults(row: Row, m: ColumnMap, parse: Parse)
    ensures var w := ReadWeek(row, m, parse);
      (GetNum(row, m.weeks, parse) == None ==> w.weeksUntilRace == 0.0)
      && (GetNum(row, m.fraction, parse) == None ==> w.fractionOfPeak == 0.0)
      && (GetNum(row, m.easy, parse) == None ==> w.weeklyEasyMileage == 0.0)
      && (GetNum(row, m.actual, parse) == None ==> w.actualMileage == None)
      && (GetNum(row, m.difference, parse) == None ==> w.difference == None)
      && (m.notes >= |row| ==> w.notes == "")
      && (m.q1Note >= |row| ==> w.q1.notes == "")
      && (m.q2Note >= |row| ==> w.q2.notes == "")
      && (m.q1Desc >= |row| ==> w.q1.description == "")
      && (m.q2Desc >= |row| ==> w.q2.description == "")
  {
  }

  /** A cell is read as no number exactly when it is missing, empty or unparsable; otherwise as what it parses to. */
  lemma ReadNumber(row: Row, idx: nat, parse: Parse)
    ensures GetNum(row, idx, parse) == None <==> idx >= |row| || row[idx] == "" || parse(row[idx]) == None
    ensures idx < |row| && row[idx] != "" ==> GetNum(row, idx, parse) == parse(row[idx])
    ensures NumOrZero(row, idx, parse) == if GetNum(row, idx, parse).Some? then GetNum(row, idx, parse).value else 0.0
  {
  }

  /**
   * The excluded blank week does not end the projection: a later row that
   * contributes still has its week projected.
   */
  lemma BlankWeekDoesNotStop(rows: Grid, read: Reader, b: nat, r: nat)
    requires FirstDataRow <= b < r < |rows|
    requires Considered(rows[b]) && !Kept(read(rows[b]))
    requires Contributes(rows[r], read)
    ensures r in Sources(rows, read, |rows|) && b !in Sources(rows, read, |rows|)
  {
    SourcesExact(rows, read, |rows|);
  }
}
