/** The set of rows that changed since the last snapshot. */
module DamageTracker {
  import opened TerminalModel
  import opened Snapshot

  lemma {:induction false} Least(rows: set<nat>) returns (least: nat)
    requires rows != {}
    ensures least in rows && forall row :: row in rows ==> least <= row
    decreases |rows|
  {
    least :| least in rows;
    var rest := rows - {least};
    assert rows == rest + {least};
    if rest != {} {
      var other := Least(rest);
      if other < least {
        least := other;
      }
    }
  }

  class DamageTracker {
    var rows: set<nat>

    constructor DirtyAll(count: nat)
      ensures rows == AllRows(count)
    {
      rows := {};
      new;
      MarkAll(count);
      assert rows == AllRows(count);
    }

    method Mark(row: nat)
      modifies this
      ensures rows == old(rows) + {row}
    {
      rows := rows + {row};
    }

    method MarkAll(count: nat)
      modifies this
      ensures rows == old(rows) + AllRows(count)
    {
      for row := 0 to count
        invariant rows == old(rows) + AllRows(row)
      {
        rows := rows + {row};
      }
    }

    method Take(columns: nat) returns (damage: seq<DamageRegion>)
      modifies this
      ensures rows == {}
      ensures ListsDamage(damage, old(rows), columns)
    {
      damage := [];
      var rest := rows;
      while rest != {}
        invariant rest <= rows && rows == old(rows)
        invariant forall i, row :: 0 <= i < |damage| && row in rest ==> damage[i].row < row
        invariant ListsDamage(damage, rows - rest, columns)
        decreases |rest|
      {
        ghost var least := Least(rest);
        var row :| row in rest && forall other :: other in rest ==> row <= other;
        ghost var before := damage;
        assert ListsDamage(before, rows - rest, columns);
        damage := damage + [DamageRegion(row, 0, columns)];
        assert damage[|before|].row == row;
        forall r | r in rows - (rest - {row})
          ensures exists i :: 0 <= i < |damage| && damage[i].row == r
        {
          if r != row {
            assert r in rows - rest;
            var i :| 0 <= i < |before| && before[i].row == r;
            assert damage[i].row == r;
          }
        }
        rest := rest - {row};
      }
      assert rows - rest == rows;
      rows := {};
    }
  }
}
