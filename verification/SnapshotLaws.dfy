/** What a snapshot tells of the terminal. */
module SnapshotLaws {
  import opened ReflowPairs
  import opened WidePairs
  import opened TerminalModel
  import opened TerminalResize
  import opened TerminalRuns
  import opened Snapshot

  /** While pairs are whole, the shown cursor never stands on a spacer. It is the real one, except on
      a spacer: then it is one column to the left, on the lead of that pair. */
  lemma {:induction false} ShownCursorAvoidsSpacers(s: Term, snapshot: RenderSnapshot)
    requires Grid(s) && PairsWhole(s) && SnapshotOf(snapshot, s)
    ensures var stands, shown := Active(s).cursor, snapshot.cursor;
            && shown.row == stands.row < |snapshot.viewport| && shown.visible == stands.visible
            && var cells := snapshot.viewport[stands.row].cells;
            && shown.column <= stands.column < |cells|
            && cells[shown.column].width != 0
            && (shown.column == stands.column <==> cells[stands.column].width != 0)
            && (shown.column != stands.column ==>
                  shown.column + 1 == stands.column && cells[shown.column].width > 1)
  {
    var f := Active(s);
    assert PairAt(f.rows[f.cursor.row].cells, f.cursor.column);
  }

  /** A snapshot loses nothing that can be shown: terminals with equal snapshots have the same size,
      shown screen, rows, damage, and on the primary screen history. Only the column of a cursor on a
      spacer, and a pending wrap, cannot be told. */
  lemma SnapshotTellsState(s: Term, t: Term, snapshot: RenderSnapshot)
    requires Grid(s) && Grid(t) && SnapshotOf(snapshot, s) && SnapshotOf(snapshot, t)
    ensures s.dims == t.dims && s.active == t.active && Active(s).rows == Active(t).rows && s.damage == t.damage
    ensures s.active.Primary? ==> s.scrollback == t.scrollback == snapshot.scrollback
    ensures s.active.Alternate? ==> snapshot.scrollback == []
    ensures var c, d := Active(s).cursor, Active(t).cursor;
            && c.row == d.row && c.visible == d.visible
            && (Active(s).rows[c.row].cells[c.column].width != 0 && Active(t).rows[d.row].cells[d.column].width != 0
                ==> c.column == d.column)
  {
    forall row: nat ensures row in s.damage <==> row in t.damage {
      assert row in s.damage ==> exists i :: 0 <= i < |snapshot.damage| && snapshot.damage[i].row == row;
      assert row in t.damage ==> exists i :: 0 <= i < |snapshot.damage| && snapshot.damage[i].row == row;
    }
  }

  lemma DamageIsListed(regions: seq<DamageRegion>, rows: set<nat>, columns: nat)
    requires ListsDamage(regions, rows, columns) && regions != []
    ensures rows != {}
  {
    assert regions[0].row in rows;
  }

  /** Taking a snapshot only drains the damage: the next one is the same without any. */
  lemma NextSnapshotIsClean(s: Term, first: RenderSnapshot, second: RenderSnapshot)
    requires Grid(s) && SnapshotOf(first, s) && SnapshotOf(second, Step(s, Render))
    ensures second == first.(damage := [])
  {
    if second.damage != [] {
      DamageIsListed(second.damage, Step(s, Render).damage, s.dims.columns);
    }
  }
}
