/**
 The 3x3 solver (foundation/aoa_calibration.py): elimination in place with row
 exchanges, over exact reals.
 */
module LinearSystem {
  import opened Wrappers
  import opened Rounding

  datatype Vec = Vec(x: real, y: real, z: real)

  /** One row of the augmented matrix. */
  datatype Row = Row(c0: real, c1: real, c2: real, rhs: real) {
    function At(column: int): real {
      if column == 0 then c0 else if column == 1 then c1 else if column == 2 then c2 else rhs
    }

    function With(column: int, value: real): Row {
      if column == 0 then this.(c0 := value)
      else if column == 1 then this.(c1 := value)
      else if column == 2 then this.(c2 := value)
      else this.(rhs := value)
    }
  }

  ghost predicate Satisfies(r: Row, s: Vec) {
    r.c0 * s.x + r.c1 * s.y + r.c2 * s.z == r.rhs
  }

  ghost predicate Solves(rows: seq<Row>, s: Vec) {
    forall i :: 0 <= i < |rows| ==> Satisfies(rows[i], s)
  }

  ghost predicate SameSolutions(a: seq<Row>, b: seq<Row>) {
    forall s :: Solves(a, s) <==> Solves(b, s)
  }

  // ---- Row operations keep the solutions ----

  function Minus(r: Row, p: Row, f: real): Row {
    Row(r.c0 - f * p.c0, r.c1 - f * p.c1, r.c2 - f * p.c2, r.rhs - f * p.rhs)
  }

  lemma MinusKeeps(r: Row, p: Row, f: real, s: Vec)
    requires Satisfies(p, s)
    ensures Satisfies(Minus(r, p, f), s) <==> Satisfies(r, s)
  {
    var q := Minus(r, p, f);
    assert q.c0 * s.x == r.c0 * s.x - f * (p.c0 * s.x);
    assert q.c1 * s.y == r.c1 * s.y - f * (p.c1 * s.y);
    assert q.c2 * s.z == r.c2 * s.z - f * (p.c2 * s.z);
    assert f * p.rhs == f * (p.c0 * s.x) + f * (p.c1 * s.y) + f * (p.c2 * s.z);
  }

  lemma EliminationKeeps(rows: seq<Row>, i: nat, j: nat, f: real)
    requires i < |rows| && j < |rows| && i != j
    ensures SameSolutions(rows, rows[i := Minus(rows[i], rows[j], f)])
  {
    hide Satisfies, Minus;
    var after := rows[i := Minus(rows[i], rows[j], f)];
    forall s
      ensures Solves(rows, s) <==> Solves(after, s)
    {
      if Satisfies(rows[j], s) {
        MinusKeeps(rows[i], rows[j], f, s);
      }
      assert after[j] == rows[j];
      if Solves(after, s) {
        forall k | 0 <= k < |rows|
          ensures Satisfies(rows[k], s)
        {
          assert Satisfies(after[k], s) && Satisfies(after[j], s);
        }
      }
    }
  }

  lemma ExchangeKeeps(rows: seq<Row>, i: nat, j: nat)
    requires i < |rows| && j < |rows|
    ensures SameSolutions(rows, rows[i := rows[j]][j := rows[i]])
  {
    hide Satisfies;
    var after := rows[i := rows[j]][j := rows[i]];
    forall s
      ensures Solves(rows, s) <==> Solves(after, s)
    {
      if Solves(after, s) {
        forall k | 0 <= k < |rows|
          ensures Satisfies(rows[k], s)
        {
          assert Satisfies(after[if k == i then j else if k == j then i else k], s);
        }
      }
    }
  }

  // ---- The state of the elimination ----

  /** Columns before `column` are zero except for a non-zero pivot. */
  ghost predicate Cleared(rows: seq<Row>, column: nat) {
    |rows| == 3 && forall i, j :: 0 <= i < 3 && 0 <= j < column ==> (rows[i].At(j) == 0.0 <==> i != j)
  }

  function Solution(rows: seq<Row>): Vec
    requires Cleared(rows, 3)
  {
    assert rows[0].At(0) != 0.0 && rows[1].At(1) != 0.0 && rows[2].At(2) != 0.0;
    Vec(rows[0].rhs / rows[0].c0, rows[1].rhs / rows[1].c1, rows[2].rhs / rows[2].c2)
  }

  lemma Quotient(c: real, x: real, b: real)
    requires c != 0.0
    ensures c * x == b <==> x == b / c
  {
    assert b / c * c == b;
    if c * x == b {
      assert c * (x - b / c) == 0.0;
    }
  }

  /** A diagonal system has exactly the solution that is read off. */
  lemma DiagonalSolution(rows: seq<Row>, s: Vec)
    requires Cleared(rows, 3)
    ensures Solves(rows, s) <==> s == Solution(rows)
  {
    assert rows[0].At(0) != 0.0 && rows[0].At(1) == 0.0 && rows[0].At(2) == 0.0;
    assert rows[1].At(0) == 0.0 && rows[1].At(1) != 0.0 && rows[1].At(2) == 0.0;
    assert rows[2].At(0) == 0.0 && rows[2].At(1) == 0.0 && rows[2].At(2) != 0.0;
    Quotient(rows[0].c0, s.x, rows[0].rhs);
    Quotient(rows[1].c1, s.y, rows[1].rhs);
    Quotient(rows[2].c2, s.z, rows[2].rhs);
    assert Satisfies(rows[0], s) <==> rows[0].c0 * s.x == rows[0].rhs;
    assert Satisfies(rows[1], s) <==> rows[1].c1 * s.y == rows[1].rhs;
    assert Satisfies(rows[2], s) <==> rows[2].c2 * s.z == rows[2].rhs;
  }

  // ---- The elimination as a function ----

  const PIVOT_MIN := 0.000000001

  /** The first of the rows from `column` up to `end` with the largest absolute value in that column. */
  function Largest(rows: seq<Row>, column: nat, end: nat): (r: nat)
    requires column < end <= |rows|
    ensures column <= r < end
    ensures forall k :: column <= k < end ==> Abs(rows[k].At(column)) <= Abs(rows[r].At(column))
    ensures forall k :: column <= k < r ==> Abs(rows[k].At(column)) < Abs(rows[r].At(column))
  {
    if end == column + 1 then column
    else
      var best := Largest(rows, column, end - 1);
      if Abs(rows[end - 1].At(column)) > Abs(rows[best].At(column)) then end - 1 else best
  }

  /** The rows before `row`, other than the pivot row, with their entry in `column` eliminated. */
  function Clearing(rows: seq<Row>, column: nat, row: nat): (r: seq<Row>)
    requires |rows| == 3 && column < 3 && row <= 3 && rows[column].At(column) != 0.0
    ensures |r| == 3
  {
    seq(3, i requires 0 <= i < 3 =>
      if i < row && i != column then Minus(rows[i], rows[column], rows[i].At(column) / rows[column].At(column))
        else rows[i])
  }

  /** Elimination from `column` on; None when no remaining row has a pivot of at least `PIVOT_MIN`. */
  function Eliminate(rows: seq<Row>, column: nat): Option<seq<Row>>
    requires |rows| == 3 && column <= 3
    decreases 3 - column
  {
    if column == 3 then Some(rows)
    else
      var pivot := Largest(rows, column, 3);
      if Abs(rows[pivot].At(column)) < PIVOT_MIN then None
      else Eliminate(Clearing(rows[column := rows[pivot]][pivot := rows[column]], column, 3), column + 1)
  }

  // ---- The loops ----

  method ChoosePivot(augmented: array<Row>, column: nat) returns (pivot: nat)
    requires augmented.Length == 3 && column < 3
    ensures pivot == Largest(augmented[..], column, 3)
  {
    pivot := column;
    for r := column to 3
      invariant column <= pivot < 3
      invariant r > column ==> pivot == Largest(augmented[..], column, r)
      invariant r == column ==> pivot == column
    {
      if Abs(augmented[r].At(column)) > Abs(augmented[pivot].At(column)) {
        pivot := r;
      }
    }
  }

  /** `r` with `f` times `p` subtracted in the columns from `low` up to `high`. */
  function PartlyMinus(r: Row, p: Row, f: real, low: int, high: int): Row {
    Row(if low <= 0 < high then r.c0 - f * p.c0 else r.c0,
        if low <= 1 < high then r.c1 - f * p.c1 else r.c1,
        if low <= 2 < high then r.c2 - f * p.c2 else r.c2,
        if low <= 3 < high then r.rhs - f * p.rhs else r.rhs)
  }

  lemma PartlyStep(r: Row, p: Row, f: real, low: int, high: int)
    requires 0 <= low <= high < 4
    ensures PartlyMinus(r, p, f, low, high + 1)
         == PartlyMinus(r, p, f, low, high).With(high, PartlyMinus(r, p, f, low, high).At(high) - f * p.At(high))
    ensures PartlyMinus(r, p, f, low, low) == r
  {
  }

  lemma SkippedColumnsAreZero(r: Row, p: Row, f: real, column: nat)
    requires column < 3 && forall j :: 0 <= j < column ==> p.At(j) == 0.0
    ensures PartlyMinus(r, p, f, column, 4) == Minus(r, p, f)
  {
    assert column > 0 ==> p.At(0) == 0.0;
    assert column > 1 ==> p.At(1) == 0.0;
  }

  lemma FactorClears(r: Row, p: Row, column: nat)
    requires column < 3 && p.At(column) != 0.0
    ensures Minus(r, p, r.At(column) / p.At(column)).At(column) == 0.0
    ensures forall j :: 0 <= j < column && p.At(j) == 0.0 ==> Minus(r, p, r.At(column) / p.At(column)).At(j) == r.At(j)
  {
  }

  method SubtractRow(augmented: array<Row>, row: nat, column: nat)
    requires augmented.Length == 3 && row < 3 && column < 3 && row != column
    requires augmented[column].At(column) != 0.0
    requires forall j :: 0 <= j < column ==> augmented[column].At(j) == 0.0
    modifies augmented
    ensures augmented[..] == old(augmented[..])[row :=
      Minus(old(augmented[row]), old(augmented[column]), old(augmented[row].At(column) / augmented[column].At(column)))]
  {
    hide PartlyMinus, Minus;
    ghost var begin, r, p := augmented[..], augmented[row], augmented[column];
    var factor := augmented[row].At(column) / augmented[column].At(column);
    PartlyStep(r, p, factor, column, column);
    assert begin[row := r] == begin;
    for col := column to 4
      invariant augmented[..] == begin[row := PartlyMinus(r, p, factor, column, col)]
    {
      PartlyStep(r, p, factor, column, col);
      assert augmented[row] == augmented[..][row] && augmented[column] == augmented[..][column] == begin[column];
      ghost var current := augmented[..];
      augmented[row] := augmented[row].With(col, augmented[row].At(col) - factor * augmented[column].At(col));
      assert augmented[row] == PartlyMinus(r, p, factor, column, col + 1);
      assert augmented[..] == current[row := augmented[row]];
    }
    SkippedColumnsAreZero(r, p, factor, column);
  }

  /** Entries of `column` are zero in the rows before `row`, other than the pivot row. */
  ghost predicate ColumnDone(rows: seq<Row>, column: nat, row: nat)
    requires |rows| == 3 && column < 3
  {
    rows[column].At(column) != 0.0 && forall i :: 0 <= i < row && i < 3 && i != column ==> rows[i].At(column) == 0.0
  }

  lemma StepClears(rows: seq<Row>, column: nat, row: nat)
    requires Cleared(rows, column) && column < 3 && row < 3 && row != column && ColumnDone(rows, column, row)
    ensures var after := rows[row := Minus(rows[row], rows[column], rows[row].At(column) / rows[column].At(column))];
      Cleared(after, column) && ColumnDone(after, column, row + 1)
  {
    hide Minus;
    FactorClears(rows[row], rows[column], column);
    var after := rows[row := Minus(rows[row], rows[column], rows[row].At(column) / rows[column].At(column))];
    forall i, j | 0 <= i < 3 && 0 <= j < column
      ensures after[i].At(j) == 0.0 <==> i != j
    {
      assert rows[column].At(j) == 0.0;
      assert rows[i].At(j) == 0.0 <==> i != j;
    }
  }

  lemma ClearingStep(rows: seq<Row>, column: nat, row: nat)
    requires |rows| == 3 && column < 3 && row < 3 && rows[column].At(column) != 0.0
    ensures Clearing(rows, column, 0) == rows
    ensures Clearing(rows, column, row)[column] == rows[column] && Clearing(rows, column, row)[row] == rows[row]
    ensures Clearing(rows, column, row + 1) == if row == column then Clearing(rows, column, row)
      else Clearing(rows, column, row)[row :=
            Minus(rows[row], rows[column], rows[row].At(column) / rows[column].At(column))]
  {
    hide Minus;
  }

  /** Clearing a column keeps the solutions and the columns cleared before. */
  lemma {:induction false} ClearingSound(rows: seq<Row>, column: nat, row: nat)
    requires Cleared(rows, column) && column < 3 && row <= 3 && rows[column].At(column) != 0.0
    ensures var after := Clearing(rows, column, row);
      Cleared(after, column) && ColumnDone(after, column, row) && SameSolutions(rows, after)
    decreases row
  {
    hide Minus, SameSolutions;
    if row == 0 {
      ClearingStep(rows, column, 0);
      SameReflexive(rows);
    } else {
      var before := Clearing(rows, column, row - 1);
      ClearingSound(rows, column, row - 1);
      ClearingStep(rows, column, row - 1);
      if row - 1 != column {
        StepClears(before, column, row - 1);
        EliminationKeeps(before, row - 1, column, before[row - 1].At(column) / before[column].At(column));
        SameTransitive(rows, before, Clearing(rows, column, row));
      }
    }
  }

  lemma SameReflexive(a: seq<Row>)
    ensures SameSolutions(a, a)
  {
  }

  lemma SameTransitive(a: seq<Row>, b: seq<Row>, c: seq<Row>)
    requires SameSolutions(a, b) && SameSolutions(b, c)
    ensures SameSolutions(a, c)
  {
  }

  /** The loop over the rows of one column. */
  method ClearColumn(augmented: array<Row>, column: nat)
    requires augmented.Length == 3 && column < 3 && Cleared(augmented[..], column)
    requires augmented[column].At(column) != 0.0
    modifies augmented
    ensures augmented[..] == Clearing(old(augmented[..]), column, 3)
  {
    hide Minus;
    ghost var begin := augmented[..];
    ClearingStep(begin, column, 0);
    for row := 0 to 3
      invariant augmented[..] == Clearing(begin, column, row)
    {
      ClearingStep(begin, column, row);
      ClearingSound(begin, column, row);
      if row == column {
        continue;
      }
      assert augmented[column] == augmented[..][column] && augmented[row] == augmented[..][row];
      forall j | 0 <= j < column
        ensures augmented[column].At(j) == 0.0
      {
        assert begin[column].At(j) == 0.0;
      }
      SubtractRow(augmented, row, column);
    }
  }

  /** Solves the system unless a pivot is rejected; the result is its one and only solution. */
  method Solve3(matrix: seq<Row>) returns (result: Option<Vec>)
    requires |matrix| == 3
    ensures result.None? <==> Eliminate(matrix, 0).None?
    ensures result.Some? ==> forall s :: Solves(matrix, s) <==> s == result.value
  {
    hide Clearing, SameSolutions, Solves;
    var augmented := new Row[3](i requires 0 <= i < 3 => matrix[i]);
    assert augmented[..] == matrix;
    SameReflexive(matrix);
    for column := 0 to 3
      invariant Cleared(augmented[..], column) && SameSolutions(matrix, augmented[..])
      invariant Eliminate(matrix, 0) == Eliminate(augmented[..], column)
    {
      var pivot := ChoosePivot(augmented, column);
      if Abs(augmented[pivot].At(column)) < PIVOT_MIN {
        return None;
      }
      ghost var before := augmented[..];
      augmented[column], augmented[pivot] := augmented[pivot], augmented[column];
      ghost var exchanged := before[column := before[pivot]][pivot := before[column]];
      assert augmented[..] == exchanged;
      ExchangeCleared(before, column, pivot);
      SameTransitive(matrix, before, exchanged);
      ClearingSound(exchanged, column, 3);
      ClearColumn(augmented, column);
      SameTransitive(matrix, exchanged, augmented[..]);
      ColumnDoneCleared(augmented[..], column);
    }
    forall s
      ensures Solves(matrix, s) <==> s == Solution(augmented[..])
    {
      DiagonalSolution(augmented[..], s);
      SameMeans(matrix, augmented[..], s);
    }
    result := Some(Solution(augmented[..]));
  }

  lemma SameMeans(a: seq<Row>, b: seq<Row>, s: Vec)
    requires SameSolutions(a, b)
    ensures Solves(a, s) <==> Solves(b, s)
  {
  }

  lemma ExchangeCleared(rows: seq<Row>, column: nat, pivot: nat)
    requires Cleared(rows, column) && column <= pivot < 3
    ensures var after := rows[column := rows[pivot]][pivot := rows[column]];
      Cleared(after, column) && SameSolutions(rows, after) && after[column] == rows[pivot]
  {
    ExchangeKeeps(rows, column, pivot);
  }

  lemma ColumnDoneCleared(rows: seq<Row>, column: nat)
    requires column < 3 && Cleared(rows, column) && ColumnDone(rows, column, 3)
    ensures Cleared(rows, column + 1)
  {
  }
}
