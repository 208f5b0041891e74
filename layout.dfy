/**
 * The two column layouts of the training sheet and the rule that picks one.
 *
 * Rows 0-8 of a grid are a preamble and row 9 is the header row; only the
 * header row's cell count matters: 15 cells or more mean the Shifted layout,
 * which inserts spacer columns 7 and 10, otherwise the Standard layout.
 */
module Layout {

  type Row = seq<string>
  type Grid = seq<Row>

  /** Index of the header row whose length selects the layout. */
  const HeaderRow: nat := 9

  datatype Variant = Standard | Shifted

  /** Column of each field of a week in a data row. */
  datatype ColumnMap = ColumnMap(
    weeks: nat,
    fraction: nat,
    q1Desc: nat,
    q1Note: nat,
    q2Desc: nat,
    q2Note: nat,
    easy: nat,
    actual: nat,
    difference: nat,
    notes: nat)
  {
    /** All ten columns, in field order. */
    function Indices(): seq<nat> {
      [weeks, fraction, q1Desc, q1Note, q2Desc, q2Note, easy, actual, difference, notes]
    }

    /** The five columns the updater writes. */
    function Written(): set<nat> {
      {actual, difference, q1Note, q2Note, notes}
    }
  }

  /** The layout a grid uses: Shifted exactly when a header row with at least 15 cells exists. */
  function Detect(rows: Grid): (v: Variant)
    ensures v == Shifted <==> |rows| > HeaderRow && |rows[HeaderRow]| >= 15
    ensures |rows| <= HeaderRow ==> v == Standard
  {
    if |rows| > HeaderRow && |rows[HeaderRow]| >= 15 then Shifted else Standard
  }

  /** The column map of each layout. */
  function Columns(v: Variant): (m: ColumnMap)
    ensures forall a, b :: 0 <= a < b < |m.Indices()| ==> m.Indices()[a] != m.Indices()[b]
    ensures forall k :: 0 <= k < |m.Indices()| ==> 3 <= m.Indices()[k] < MinCols(v)
    ensures v == Shifted ==> 7 !in m.Indices() && 10 !in m.Indices()
    ensures m.weeks !in m.Written() && m.fraction !in m.Written() && m.q1Desc !in m.Written()
    ensures m.q2Desc !in m.Written() && m.easy !in m.Written()
  {
    match v
    case Standard => ColumnMap(3, 4, 5, 6, 7, 8, 9, 10, 11, 12)
    case Shifted => ColumnMap(3, 4, 5, 6, 8, 9, 11, 12, 13, 14)
  }

  /** The width the updater pads a target row to. */
  function MinCols(v: Variant): nat {
    match v
    case Standard => 13
    case Shifted => 15
  }
}
