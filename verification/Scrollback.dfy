/** The scrollback queue with its line and byte budgets. */
module Scrollback {
  import opened RenderModel
  import opened History

  class Scrollback {
    var rows: seq<Row>
    const budget: Budget
    var byteLen: nat

    ghost predicate Valid()
      reads this
    {
      byteLen == Bytes(budget.size, rows) && WithinBudget(budget, rows)
    }

    constructor (budget: Budget)
      ensures Valid() && this.budget == budget && rows == []
    {
      this.budget := budget;
      rows := [];
      byteLen := 0;
    }

    method Push(row: Row)
      requires Valid()
      modifies this
      ensures Valid() && rows == Retained(budget, old(rows) + [row])
    {
      if budget.maxLines == 0 || budget.maxBytes == 0 {
        NoBudgetNothingRetained(budget, rows + [row]);
        assert Retained(budget, rows) == rows;
        NoBudgetNothingRetained(budget, rows);
        return;
      }
      byteLen := byteLen + budget.size(row);
      rows := rows + [row];
      assert rows[..|rows| - 1] == old(rows);
      Trim();
    }

    method ReplaceRows(newRows: seq<Row>)
      modifies this
      ensures Valid() && rows == Retained(budget, newRows)
    {
      rows := newRows;
      RecalculateByteLen();
      Trim();
    }

    method ResizeWidth(columns: nat)
      modifies this
      ensures Valid() && rows == Retained(budget, ResizedRows(old(rows), columns))
    {
      for i := 0 to |rows|
        invariant |rows| == |old(rows)|
        invariant rows == ResizedRows(old(rows), columns)[..i] + old(rows)[i..]
      {
        rows := rows[i := rows[i].ResizeWidth(columns)];
      }
      assert rows == ResizedRows(old(rows), columns);
      RecalculateByteLen();
      Trim();
    }

    method PopBack() returns (row: Option<Row>)
      requires Valid()
      modifies this
      ensures Valid()
      ensures old(rows) == [] ==> row.None? && rows == []
      ensures old(rows) != [] ==> row == Some(old(rows)[|old(rows)| - 1]) && rows == old(rows)[..|old(rows)| - 1]
    {
      if rows == [] {
        return None;
      }
      row := Some(rows[|rows| - 1]);
      rows := rows[..|rows| - 1];
      byteLen := byteLen - budget.size(row.value);
    }

    method Trim()
      requires byteLen == Bytes(budget.size, rows)
      modifies this
      ensures Valid() && rows == Retained(budget, old(rows))
    {
      while |rows| > budget.maxLines || byteLen > budget.maxBytes
        invariant byteLen == Bytes(budget.size, rows)
        invariant Retained(budget, rows) == Retained(budget, old(rows))
        decreases |rows|
      {
        // The queue is never empty here: the branch that resets the byte count is dead.
        assert |rows| > 0;
        BytesFront(budget.size, rows);
        var row := rows[0];
        rows := rows[1..];
        byteLen := byteLen - budget.size(row);
      }
    }

    method RecalculateByteLen()
      modifies this`byteLen
      ensures byteLen == Bytes(budget.size, rows)
    {
      byteLen := 0;
      for i := 0 to |rows|
        invariant byteLen == Bytes(budget.size, rows[..i])
      {
        assert rows[..i + 1][..i] == rows[..i];
        byteLen := byteLen + budget.size(rows[i]);
      }
      assert rows[..|rows|] == rows;
    }

    method RowFor(handle: RowHandle) returns (row: Option<Row>)
      ensures row == Find(rows, handle)
    {
      for i := 0 to |rows|
        invariant Find(rows[i..], handle) == Find(rows, handle)
      {
        assert rows[i..][1..] == rows[i + 1..];
        if rows[i].handle == handle {
          return Some(rows[i]);
        }
      }
      return None;
    }
  }
}
