/** Render snapshots, the damage they carry, and the shape check that a snapshot file must pass. */
module Snapshot {
  import opened RenderModel
  import opened TerminalModel
  import opened TerminalResize
  import opened TerminalRuns

  datatype DamageRegion = DamageRegion(row: nat, startColumn: nat, endColumn: nat)

  datatype RenderSnapshot = RenderSnapshot(
    columns: nat,
    rows: nat,
    activeScreen: ScreenIdentity,
    cursor: CursorState,
    viewport: seq<Row>,
    scrollback: seq<Row>,
    damage: seq<DamageRegion>)

  /** The damaged rows in ascending order, each over its full width. */
  ghost predicate ListsDamage(regions: seq<DamageRegion>, rows: set<nat>, columns: nat) {
    && (forall i, j :: 0 <= i < j < |regions| ==> regions[i].row < regions[j].row)
    && (forall i :: 0 <= i < |regions| ==>
                      regions[i] == DamageRegion(regions[i].row, 0, columns) && regions[i].row in rows)
    && (forall row :: row in rows ==> exists i :: 0 <= i < |regions| && regions[i].row == row)
  }

  /** The cursor as shown: on the lead when it stands on the spacer of a wide pair. */
  function ShownCursor(f: Surface): CursorState {
    if f.rows == [] then f.cursor
    else
      var row := Min(f.cursor.row, |f.rows| - 1);
      var cells := f.rows[row].cells;
      var column := Min(f.cursor.column, |cells| - 1);
      if column > 0 && cells[column].width == 0 then CursorState(row, column - 1, f.cursor.visible) else f.cursor
  }

  /** History is shown only with the primary screen. */
  ghost predicate SnapshotOf(snapshot: RenderSnapshot, s: Term) {
    && snapshot.columns == s.dims.columns && snapshot.rows == s.dims.rows
    && snapshot.activeScreen == s.active
    && snapshot.cursor == ShownCursor(Active(s))
    && snapshot.viewport == Active(s).rows
    && snapshot.scrollback == (if s.active.Primary? then s.scrollback else [])
    && ListsDamage(snapshot.damage, s.damage, s.dims.columns)
  }

  /* ----- validation ----- */

  const MAX_SNAPSHOT_ROWS := 100_000
  const MAX_SNAPSHOT_CELLS := 1_048_576

  datatype SnapshotError =
    | InvalidDimensions
    | CursorOutside
    | WrongRowCount(found: nat)
    | TooManyRows(found: nat)
    | WrongViewportWidth(index: nat)
    | WrongScrollbackWidth(index: nat)
    | TooManyCells(found: nat)
    | TooManyRegions(found: nat)
    | RegionOutside(index: nat)

  datatype Validation = Valid | Invalid(error: SnapshotError)

  function CellCount(rows: seq<Row>): nat {
    if rows == [] then 0 else CellCount(rows[..|rows| - 1]) + |rows[|rows| - 1].cells|
  }

  predicate RegionInside(region: DamageRegion, snapshot: RenderSnapshot) {
    && region.row < snapshot.rows
    && region.startColumn <= region.endColumn <= snapshot.columns
  }

  predicate ShapeOk(snapshot: RenderSnapshot) {
    && DimensionsOk(Dimensions(snapshot.columns, snapshot.rows))
    && snapshot.cursor.row < snapshot.rows && snapshot.cursor.column < snapshot.columns
    && |snapshot.viewport| == snapshot.rows
    && AllWidth(snapshot.viewport, snapshot.columns)
    && AllWidth(snapshot.scrollback, snapshot.columns)
    && |snapshot.damage| <= snapshot.rows
    && forall i :: 0 <= i < |snapshot.damage| ==> RegionInside(snapshot.damage[i], snapshot)
  }

  predicate SizeOk(snapshot: RenderSnapshot) {
    && |snapshot.viewport| + |snapshot.scrollback| <= MAX_SNAPSHOT_ROWS
    && CellCount(snapshot.viewport) + CellCount(snapshot.scrollback) <= MAX_SNAPSHOT_CELLS
  }

  method ValidateWidths(rows: seq<Row>, columns: nat) returns (bad: Option<nat>, cells: nat)
    ensures bad.None? <==> AllWidth(rows, columns)
    ensures bad.Some? ==> FirstWrongRow(rows, columns, bad.value)
    ensures bad.None? ==> cells == CellCount(rows)
  {
    cells := 0;
    for index := 0 to |rows|
      invariant AllWidth(rows[..index], columns)
      invariant cells == CellCount(rows[..index])
    {
      assert rows[..index + 1][..index] == rows[..index];
      if |rows[index].cells| != columns {
        return Some(index), cells;
      }
      cells := cells + |rows[index].cells|;
    }
    assert rows[..|rows|] == rows;
    return None, cells;
  }

  /** The checks, in order. */
  function Stage(error: SnapshotError): nat {
    match error
    case InvalidDimensions => 0
    case CursorOutside => 1
    case WrongRowCount(_) => 2
    case TooManyRows(_) => 3
    case WrongViewportWidth(_) => 4
    case WrongScrollbackWidth(_) => 5
    case TooManyCells(_) => 6
    case TooManyRegions(_) => 7
    case RegionOutside(_) => 8
  }

  predicate Passes(snapshot: RenderSnapshot, stage: nat) {
    match stage
    case 0 => DimensionsOk(Dimensions(snapshot.columns, snapshot.rows))
    case 1 => snapshot.cursor.row < snapshot.rows && snapshot.cursor.column < snapshot.columns
    case 2 => |snapshot.viewport| == snapshot.rows
    case 3 => |snapshot.viewport| + |snapshot.scrollback| <= MAX_SNAPSHOT_ROWS
    case 4 => AllWidth(snapshot.viewport, snapshot.columns)
    case 5 => AllWidth(snapshot.scrollback, snapshot.columns)
    case 6 => CellCount(snapshot.viewport) + CellCount(snapshot.scrollback) <= MAX_SNAPSHOT_CELLS
    case 7 => |snapshot.damage| <= snapshot.rows
    case _ => forall i :: 0 <= i < |snapshot.damage| ==> RegionInside(snapshot.damage[i], snapshot)
  }

  /** `index` is the first row of another width. */
  predicate FirstWrongRow(rows: seq<Row>, columns: nat, index: nat) {
    index < |rows| && |rows[index].cells| != columns && AllWidth(rows[..index], columns)
  }

  /** What the error says of the snapshot. */
  predicate Describes(error: SnapshotError, snapshot: RenderSnapshot) {
    match error
    case WrongRowCount(found) => found == |snapshot.viewport|
    case TooManyRows(found) => found == |snapshot.viewport| + |snapshot.scrollback|
    case WrongViewportWidth(index) => FirstWrongRow(snapshot.viewport, snapshot.columns, index)
    case WrongScrollbackWidth(index) => FirstWrongRow(snapshot.scrollback, snapshot.columns, index)
    case TooManyCells(found) => found == CellCount(snapshot.viewport) + CellCount(snapshot.scrollback)
    case TooManyRegions(found) => found == |snapshot.damage|
    case RegionOutside(index) =>
      && index < |snapshot.damage| && !RegionInside(snapshot.damage[index], snapshot)
      && forall k :: 0 <= k < index ==> RegionInside(snapshot.damage[k], snapshot)
    case _ => true
  }

  /** The error names the first check that fails, and what it says is true. */
  predicate FirstError(error: SnapshotError, snapshot: RenderSnapshot) {
    && !Passes(snapshot, Stage(error)) && Describes(error, snapshot)
    && forall stage :: 0 <= stage < Stage(error) ==> Passes(snapshot, stage)
  }

  /** Accepts exactly the snapshots of the right shape and a bounded size; an error is the first one. */
  method ValidateSnapshot(snapshot: RenderSnapshot) returns (r: Validation)
    ensures r.Valid? <==> ShapeOk(snapshot) && SizeOk(snapshot)
    ensures r.Invalid? ==> FirstError(r.error, snapshot)
  {
    if !DimensionsOk(Dimensions(snapshot.columns, snapshot.rows)) {
      return Invalid(InvalidDimensions);
    }
    if snapshot.cursor.row >= snapshot.rows || snapshot.cursor.column >= snapshot.columns {
      return Invalid(CursorOutside);
    }
    if |snapshot.viewport| != snapshot.rows {
      return Invalid(WrongRowCount(|snapshot.viewport|));
    }
    var rowCount := |snapshot.viewport| + |snapshot.scrollback|;
    if rowCount > MAX_SNAPSHOT_ROWS {
      return Invalid(TooManyRows(rowCount));
    }
    var bad, cellCount := ValidateWidths(snapshot.viewport, snapshot.columns);
    if bad.Some? {
      return Invalid(WrongViewportWidth(bad.value));
    }
    var more;
    bad, more := ValidateWidths(snapshot.scrollback, snapshot.columns);
    if bad.Some? {
      return Invalid(WrongScrollbackWidth(bad.value));
    }
    cellCount := cellCount + more;
    if cellCount > MAX_SNAPSHOT_CELLS {
      return Invalid(TooManyCells(cellCount));
    }
    if |snapshot.damage| > snapshot.rows {
      return Invalid(TooManyRegions(|snapshot.damage|));
    }
    for i := 0 to |snapshot.damage|
      invariant forall k :: 0 <= k < i ==> RegionInside(snapshot.damage[k], snapshot)
    {
      var damage := snapshot.damage[i];
      if damage.row >= snapshot.rows || damage.startColumn > damage.endColumn || damage.endColumn > snapshot.columns {
        return Invalid(RegionOutside(i));
      }
    }
    return Valid;
  }

  /* ----- snapshots of reachable states ----- */

  lemma {:induction false} AscendingIsShort(regions: seq<DamageRegion>, bound: nat)
    requires forall i, j :: 0 <= i < j < |regions| ==> regions[i].row < regions[j].row
    requires forall i :: 0 <= i < |regions| ==> regions[i].row < bound
    ensures |regions| <= bound
  {
    if regions == [] {
    } else {
      var n := |regions| - 1;
      AscendingIsShort(regions[..n], regions[n].row);
    }
  }

  lemma {:induction false} CellCountOfGrid(rows: seq<Row>, columns: nat)
    requires AllWidth(rows, columns)
    ensures CellCount(rows) == |rows| * columns
  {
    if rows == [] {
    } else {
      CellCountOfGrid(rows[..|rows| - 1], columns);
    }
  }

  lemma DamageHasShape(snapshot: RenderSnapshot, s: Term)
    requires Fits(s) && SnapshotOf(snapshot, s)
    ensures |snapshot.damage| <= snapshot.rows
    ensures forall i :: 0 <= i < |snapshot.damage| ==> RegionInside(snapshot.damage[i], snapshot)
  {
    AscendingIsShort(snapshot.damage, s.dims.rows);
  }

  lemma SnapshotCells(snapshot: RenderSnapshot, s: Term)
    requires |snapshot.viewport| == s.dims.rows
    requires AllWidth(snapshot.viewport, s.dims.columns) && AllWidth(snapshot.scrollback, s.dims.columns)
    ensures CellCount(snapshot.viewport) + CellCount(snapshot.scrollback) ==
            (s.dims.rows + |snapshot.scrollback|) * s.dims.columns
  {
    CellCountOfGrid(snapshot.viewport, s.dims.columns);
    CellCountOfGrid(snapshot.scrollback, s.dims.columns);
  }

  lemma GridShape(snapshot: RenderSnapshot, s: Term)
    requires Grid(s) && SnapshotOf(snapshot, s)
    ensures snapshot.cursor.row < snapshot.rows && snapshot.cursor.column < snapshot.columns
    ensures |snapshot.viewport| == snapshot.rows
    ensures AllWidth(snapshot.viewport, s.dims.columns) && AllWidth(snapshot.scrollback, s.dims.columns)
  {
  }

  /** Every snapshot of a state that satisfies the invariant has the right shape; the checks can
      only fail on the amount of history. */
  lemma {:induction false} SnapshotHasShape(snapshot: RenderSnapshot, s: Term)
    requires Inv(s) && SnapshotOf(snapshot, s)
    ensures ShapeOk(snapshot)
    ensures SizeOk(snapshot) <==>
            && s.dims.rows + |snapshot.scrollback| <= MAX_SNAPSHOT_ROWS
            && (s.dims.rows + |snapshot.scrollback|) * s.dims.columns <= MAX_SNAPSHOT_CELLS
  {
    hide DimensionsOk, Grid, HandlesOk, HistoryOk, DamageComplete, AllWidth, ListsDamage, CellCount;
    GridFits(s);
    DamageHasShape(snapshot, s);
    GridShape(snapshot, s);
    SnapshotCells(snapshot, s);
  }

  /** While the alternate screen is shown, every snapshot passes. */
  lemma AlternateSnapshotPasses(snapshot: RenderSnapshot, s: Term)
    requires Inv(s) && SnapshotOf(snapshot, s) && s.active.Alternate?
    ensures ShapeOk(snapshot) && SizeOk(snapshot)
  {
    hide Grid, HandlesOk, HistoryOk, DamageComplete, ListsDamage, CellCount;
    SnapshotHasShape(snapshot, s);
  }
}
