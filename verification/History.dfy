/** What a bounded scrollback keeps: the longest suffix of the archived rows within its budgets. */
module History {
  import opened RenderModel

  /** Estimated bytes of a row; a row always costs something. */
  type RowSize = size: Row -> nat | forall row :: size(row) > 0 witness (row: Row) => 1

  datatype Budget = Budget(maxLines: nat, maxBytes: nat, size: RowSize)

  function Bytes(size: RowSize, rows: seq<Row>): nat {
    if rows == [] then 0 else Bytes(size, rows[..|rows| - 1]) + size(rows[|rows| - 1])
  }

  predicate WithinBudget(budget: Budget, rows: seq<Row>) {
    |rows| <= budget.maxLines && Bytes(budget.size, rows) <= budget.maxBytes
  }

  function Retained(budget: Budget, rows: seq<Row>): (r: seq<Row>)
    ensures |r| <= |rows| && WithinBudget(budget, r)
  {
    if rows == [] || WithinBudget(budget, rows) then rows else Retained(budget, rows[1..])
  }

  lemma {:induction false} BytesConcat(size: RowSize, a: seq<Row>, b: seq<Row>)
    ensures Bytes(size, a + b) == Bytes(size, a) + Bytes(size, b)
    decreases |b|
  {
    if b == [] {
      assert a + b == a;
    } else {
      var n := |b| - 1;
      assert (a + b)[..|a| + n] == a + b[..n];
      BytesConcat(size, a, b[..n]);
    }
  }

  lemma BytesFront(size: RowSize, rows: seq<Row>)
    requires rows != []
    ensures Bytes(size, rows) == size(rows[0]) + Bytes(size, rows[1..])
  {
    assert rows == [rows[0]] + rows[1..];
    BytesConcat(size, [rows[0]], rows[1..]);
    assert Bytes(size, [rows[0]]) == size(rows[0]) by {
      assert [rows[0]][..0] == [];
    }
  }

  /** The retained rows are a suffix that fits, and no longer suffix fits. */
  lemma {:induction false} RetainedIsLongestFittingSuffix(budget: Budget, rows: seq<Row>)
    ensures var r := Retained(budget, rows);
            && r == rows[|rows| - |r|..]
            && WithinBudget(budget, r)
            && forall k :: 0 <= k < |rows| - |r| ==> !WithinBudget(budget, rows[k..])
  {
    var r := Retained(budget, rows);
    if rows == [] || WithinBudget(budget, rows) {
      assert rows[0..] == rows;
    } else {
      RetainedIsLongestFittingSuffix(budget, rows[1..]);
      forall k | 0 <= k < |rows| - |r| ensures !WithinBudget(budget, rows[k..]) {
        if k == 0 {
          assert rows[0..] == rows;
        } else {
          assert rows[k..] == rows[1..][k - 1..];
        }
      }
    }
  }

  lemma FittingIsRetained(budget: Budget, rows: seq<Row>)
    requires WithinBudget(budget, rows)
    ensures Retained(budget, rows) == rows
  {
  }

  /** Trimming as rows arrive keeps the same rows as trimming once at the end. */
  lemma {:induction false} RetainedStreams(budget: Budget, rows: seq<Row>, more: seq<Row>)
    ensures Retained(budget, Retained(budget, rows) + more) == Retained(budget, rows + more)
    decreases |rows|
  {
    if rows != [] && !WithinBudget(budget, rows) {
      RetainedStreams(budget, rows[1..], more);
      BytesConcat(budget.size, rows, more);
      assert (rows + more)[1..] == rows[1..] + more;
    }
  }

  lemma {:induction false} BytesAtLeastRows(size: RowSize, rows: seq<Row>)
    ensures Bytes(size, rows) >= |rows|
  {
    if rows == [] {
    } else {
      BytesAtLeastRows(size, rows[..|rows| - 1]);
    }
  }

  lemma NoBudgetNothingRetained(budget: Budget, rows: seq<Row>)
    requires budget.maxLines == 0 || budget.maxBytes == 0
    ensures Retained(budget, rows) == []
  {
    BytesAtLeastRows(budget.size, Retained(budget, rows));
  }

  function Find(rows: seq<Row>, handle: RowHandle): (r: Option<Row>)
    ensures r.Some? ==> r.value in rows && r.value.handle == handle
    ensures r.None? ==> forall i :: 0 <= i < |rows| ==> rows[i].handle != handle
  {
    if rows == [] then None
    else if rows[0].handle == handle then Some(rows[0])
    else Find(rows[1..], handle)
  }

  function ResizedRows(rows: seq<Row>, columns: nat): (r: seq<Row>)
    ensures |r| == |rows| && AllWidth(r, columns)
  {
    seq(|rows|, i requires 0 <= i < |rows| => rows[i].ResizeWidth(columns))
  }
}
