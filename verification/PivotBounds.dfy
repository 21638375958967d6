/**
 Which 3x3 systems the elimination solves (foundation/aoa_calibration.py): the
 determinant decides, up to the bound below which a pivot is rejected.
 */
module PivotBounds {
  import opened Wrappers
  import opened Rounding
  import opened LinearSystem

  // ---- Determinants ----

  /** The determinant of the rows `a`, `b` and `c`. */
  function Det3(a: Vec, b: Vec, c: Vec): real {
    a.x * (b.y * c.z - b.z * c.y) + a.y * (b.z * c.x - b.x * c.z) + a.z * (b.x * c.y - b.y * c.x)
  }

  function Shifted(a: Vec, k: real, w: Vec): Vec {
    Vec(a.x + k * w.x, a.y + k * w.y, a.z + k * w.z)
  }

  lemma Det3Rotates(a: Vec, b: Vec, c: Vec)
    ensures Det3(a, b, c) == Det3(b, c, a) == Det3(c, a, b)
  {}

  lemma Det3Exchanges(a: Vec, b: Vec, c: Vec)
    ensures Det3(b, a, c) == Det3(a, c, b) == Det3(c, b, a) == -Det3(a, b, c)
  {}

  lemma Distribute(a: real, k: real, w: real, m: real)
    ensures (a + k * w) * m == a * m + k * (w * m)
  {}

  lemma Det3Linear(a: Vec, k: real, w: Vec, b: Vec, c: Vec)
    ensures Det3(Shifted(a, k, w), b, c) == Det3(a, b, c) + k * Det3(w, b, c)
  {
    var m, n, o := b.y * c.z - b.z * c.y, b.z * c.x - b.x * c.z, b.x * c.y - b.y * c.x;
    Distribute(a.x, k, w.x, m);
    Distribute(a.y, k, w.y, n);
    Distribute(a.z, k, w.z, o);
    assert k * (w.x * m + w.y * n + w.z * o) == k * (w.x * m) + k * (w.y * n) + k * (w.z * o);
  }

  lemma Det3Repeats(a: Vec, b: Vec)
    ensures Det3(a, a, b) == Det3(a, b, a) == Det3(b, a, a) == 0.0
  {}

  /** Shifting a row by a multiple of another one keeps the determinant. */
  lemma Det3Keeps(a: Vec, b: Vec, c: Vec, k: real)
    ensures Det3(Shifted(a, k, b), b, c) == Det3(Shifted(a, k, c), b, c) == Det3(a, b, c)
    ensures Det3(a, Shifted(b, k, a), c) == Det3(a, Shifted(b, k, c), c) == Det3(a, b, c)
    ensures Det3(a, b, Shifted(c, k, a)) == Det3(a, b, Shifted(c, k, b)) == Det3(a, b, c)
  {
    hide Det3, Shifted;
    forall d, e, f
      ensures Det3(Shifted(d, k, e), e, f) == Det3(Shifted(d, k, f), e, f) == Det3(d, e, f)
    {
      Det3Linear(d, k, e, e, f);
      Det3Linear(d, k, f, e, f);
      Det3Repeats(e, f);
      Det3Repeats(f, e);
    }
    Det3Rotates(a, b, c);
    Det3Rotates(a, Shifted(b, k, a), c);
    Det3Rotates(a, Shifted(b, k, c), c);
    Det3Rotates(a, b, Shifted(c, k, a));
    Det3Rotates(a, b, Shifted(c, k, b));
  }

  function Coefficients(r: Row): Vec {
    Vec(r.c0, r.c1, r.c2)
  }

  function Det(r: seq<Row>): real
    requires |r| == 3
  {
    Det3(Coefficients(r[0]), Coefficients(r[1]), Coefficients(r[2]))
  }

  lemma DetExchange(r: seq<Row>, i: nat, j: nat)
    requires |r| == 3 && i < 3 && j < 3
    ensures Abs(Det(r[i := r[j]][j := r[i]])) == Abs(Det(r))
  {
    hide Det3;
    Det3Exchanges(Coefficients(r[0]), Coefficients(r[1]), Coefficients(r[2]));
  }

  lemma MinusShifts(r: Row, p: Row, f: real)
    ensures Coefficients(Minus(r, p, f)) == Shifted(Coefficients(r), -f, Coefficients(p))
  {
    var a, b := Minus(r, p, f), Shifted(Coefficients(r), -f, Coefficients(p));
    SubtractIsShift(r.c0, f, p.c0, -f, a.c0, b.x);
    SubtractIsShift(r.c1, f, p.c1, -f, a.c1, b.y);
    SubtractIsShift(r.c2, f, p.c2, -f, a.c2, b.z);
  }

  lemma SubtractIsShift(a: real, f: real, x: real, k: real, y: real, z: real)
    requires k == -f && y == a - f * x && z == a + k * x
    ensures y == z
  {
    assert k * x == -(f * x);
  }

  lemma DetMinus(r: seq<Row>, i: nat, j: nat, f: real)
    requires |r| == 3 && i < 3 && j < 3 && i != j
    ensures Det(r[i := Minus(r[i], r[j], f)]) == Det(r)
  {
    hide Det3, Shifted, Minus, Coefficients;
    MinusShifts(r[i], r[j], f);
    Det3Keeps(Coefficients(r[0]), Coefficients(r[1]), Coefficients(r[2]), -f);
  }

  lemma {:induction false} ClearingKeepsDet(rows: seq<Row>, column: nat, row: nat)
    requires |rows| == 3 && column < 3 && row <= 3 && rows[column].At(column) != 0.0
    ensures Det(Clearing(rows, column, row)) == Det(rows)
    decreases row
  {
    hide Det, Minus;
    if row == 0 {
      ClearingStep(rows, column, 0);
    } else {
      ClearingKeepsDet(rows, column, row - 1);
      ClearingStep(rows, column, row - 1);
      if row - 1 != column {
        DetMinus(Clearing(rows, column, row - 1), row - 1, column, rows[row - 1].At(column) / rows[column].At(column));
      }
    }
  }

  // ---- A rejected pivot means a small determinant ----

  function Three(a: real, b: real, c: real): real {
    a * (b * c)
  }

  lemma ProductBound(a: real, b: real, m: real, n: real)
    requires Abs(a) <= m && Abs(b) <= n
    ensures Abs(a * b) <= m * n
  {
    assert Abs(a * b) == Abs(a) * Abs(b);
    assert Abs(a) * Abs(b) <= m * Abs(b) <= m * n;
  }

  lemma ThreeBound(a: real, b: real, c: real, l: real, m: real, n: real)
    requires Abs(a) <= l && Abs(b) <= m && Abs(c) <= n
    ensures Abs(Three(a, b, c)) <= Three(l, m, n)
  {
    ProductBound(b, c, m, n);
    ProductBound(a, b * c, l, m * n);
  }

  lemma Expansion(a: Vec, b: Vec, c: Vec)
    ensures Det3(a, b, c) == Three(a.x, b.y, c.z) - Three(a.x, b.z, c.y) - Three(b.x, a.y, c.z)
                           + Three(b.x, a.z, c.y) + Three(c.x, a.y, b.z) - Three(c.x, a.z, b.y)
  {}

  lemma ThreeZero(a: real, b: real)
    ensures Three(0.0, a, b) == Three(a, 0.0, b) == Three(a, b, 0.0) == 0.0
  {}

  lemma ThreeScales(small: real, size: real)
    ensures Three(size, small, 2.0 * size) == Three(size, 2.0 * size, small) == 2.0 * Three(small, size, size)
  {}

  /** No coefficient is larger than `size`. */
  ghost predicate Bounded(v: Vec, size: real) {
    Abs(v.x) <= size && Abs(v.y) <= size && Abs(v.z) <= size
  }

  lemma SmallFirstColumn(a: Vec, b: Vec, c: Vec, size: real, small: real)
    requires Bounded(a, size) && Bounded(b, size) && Bounded(c, size)
    requires Abs(a.x) <= small && Abs(b.x) <= small && Abs(c.x) <= small
    ensures Abs(Det3(a, b, c)) <= 6.0 * Three(small, size, size)
  {
    hide Det3, Three;
    ThreeBound(a.x, b.y, c.z, small, size, size);
    ThreeBound(a.x, b.z, c.y, small, size, size);
    ThreeBound(b.x, a.y, c.z, small, size, size);
    ThreeBound(b.x, a.z, c.y, small, size, size);
    ThreeBound(c.x, a.y, b.z, small, size, size);
    ThreeBound(c.x, a.z, b.y, small, size, size);
    Expansion(a, b, c);
  }

  /** The rows after the first column is cleared: below the first row nothing is larger than `2 * size`. */
  ghost predicate FirstCleared(a: Vec, b: Vec, c: Vec, size: real) {
    && Abs(a.x) <= size && b.x == 0.0 && c.x == 0.0
    && Bounded(b, 2.0 * size) && Bounded(c, 2.0 * size)
  }

  lemma SmallSecondColumn(a: Vec, b: Vec, c: Vec, size: real, small: real)
    requires FirstCleared(a, b, c, size) && Abs(b.y) <= small && Abs(c.y) <= small
    ensures Abs(Det3(a, b, c)) <= 4.0 * Three(small, size, size)
  {
    hide Det3, Three;
    ThreeBound(a.x, b.y, c.z, size, small, 2.0 * size);
    ThreeBound(a.x, b.z, c.y, size, 2.0 * size, small);
    ThreeScales(small, size);
    ThreeZero(a.y, c.z);
    ThreeZero(a.z, c.y);
    ThreeZero(a.y, b.z);
    ThreeZero(a.z, b.y);
    Expansion(a, b, c);
  }

  /** The rows after the second column is cleared below its pivot. */
  ghost predicate SecondCleared(a: Vec, b: Vec, c: Vec, size: real) {
    Abs(a.x) <= size && Abs(b.y) <= 2.0 * size && b.x == 0.0 && c.x == 0.0 && c.y == 0.0
  }

  lemma Triangular(a: Vec, b: Vec, c: Vec)
    requires b.x == 0.0 && c.x == 0.0 && c.y == 0.0
    ensures Det3(a, b, c) == Three(a.x, b.y, c.z)
  {
    hide Det3, Three;
    ThreeZero(a.y, c.z);
    ThreeZero(a.z, 0.0);
    ThreeZero(a.y, b.z);
    ThreeZero(a.z, b.y);
    ThreeZero(a.x, b.z);
    Expansion(a, b, c);
  }

  lemma SmallThirdColumn(a: Vec, b: Vec, c: Vec, size: real, small: real)
    requires SecondCleared(a, b, c, size) && Abs(c.z) <= small
    ensures Abs(Det3(a, b, c)) <= 2.0 * Three(small, size, size)
  {
    hide Det3, Three;
    Triangular(a, b, c);
    ThreeBound(a.x, b.y, c.z, size, 2.0 * size, small);
    ThreeScales(small, size);
  }

  // ---- The elimination, column by column ----

  function Vecs(rows: seq<Row>): (Vec, Vec, Vec)
    requires |rows| == 3
  {
    (Coefficients(rows[0]), Coefficients(rows[1]), Coefficients(rows[2]))
  }

  function Exchanged(rows: seq<Row>, column: nat): (sw: seq<Row>)
    requires |rows| == 3 && column < 3
    ensures |sw| == 3
  {
    var pivot := Largest(rows, column, 3);
    rows[column := rows[pivot]][pivot := rows[column]]
  }

  lemma ShiftBound(a: real, f: real, x: real, y: real, size: real)
    requires Abs(f) <= 1.0 && Abs(a) <= size && Abs(x) <= size && y == a - f * x
    ensures Abs(y) <= 2.0 * size
  {
    ProductBound(f, x, 1.0, size);
  }

  lemma MinusBound(r: Row, p: Row, f: real, size: real)
    requires Abs(f) <= 1.0 && Bounded(Coefficients(r), size) && Bounded(Coefficients(p), size)
    ensures Bounded(Coefficients(Minus(r, p, f)), 2.0 * size)
  {
    hide Abs;
    var q := Minus(r, p, f);
    ShiftBound(r.c0, f, p.c0, q.c0, size);
    ShiftBound(r.c1, f, p.c1, q.c1, size);
    ShiftBound(r.c2, f, p.c2, q.c2, size);
  }

  lemma RatioBound(a: real, b: real)
    requires b != 0.0 && Abs(a) <= Abs(b)
    ensures Abs(a / b) <= 1.0
  {
    var q := a / b;
    AbsProduct(q, b, a);
    AtMostOne(Abs(q), Abs(b), Abs(a));
  }

  lemma AtMostOne(x: real, y: real, z: real)
    requires y > 0.0 && z == x * y && z <= y
    ensures x <= 1.0
  {
    if x > 1.0 {
      ProductPositive(x - 1.0, y);
    }
  }

  lemma AbsProduct(a: real, b: real, c: real)
    requires c == a * b
    ensures Abs(c) == Abs(a) * Abs(b)
  {}

  lemma ClearingAt(rows: seq<Row>, column: nat, i: nat)
    requires |rows| == 3 && column < 3 && i < 3 && rows[column].At(column) != 0.0
    ensures Clearing(rows, column, 3)[i] == if i == column then rows[i] else
      Minus(rows[i], rows[column], rows[i].At(column) / rows[column].At(column))
  {
    hide Minus;
  }

  lemma FirstColumn(rows: seq<Row>, size: real)
    requires |rows| == 3 && forall i :: 0 <= i < 3 ==> Bounded(Coefficients(rows[i]), size)
    requires Abs(Det(rows)) > 6.0 * Three(0.000000001, size, size)
    ensures var sw := Exchanged(rows, 0);
      && Abs(sw[0].At(0)) >= 0.000000001
      && var after := Clearing(sw, 0, 3);
         Abs(Det(after)) == Abs(Det(rows)) && FirstCleared(Vecs(after).0, Vecs(after).1, Vecs(after).2, size)
  {
    hide Det3, Three, Minus;
    var sw, pivot := Exchanged(rows, 0), Largest(rows, 0, 3);
    DetExchange(rows, 0, pivot);
    assert forall i :: 0 <= i < 3 ==> Abs(rows[i].At(0)) <= Abs(rows[pivot].At(0));
    assert forall i :: 0 <= i < 3 ==> Bounded(Coefficients(sw[i]), size) && Abs(sw[i].At(0)) <= Abs(sw[0].At(0));
    if Abs(sw[0].At(0)) < 0.000000001 {
      SmallFirstColumn(Vecs(sw).0, Vecs(sw).1, Vecs(sw).2, size, 0.000000001);
      assert false;
    }
    ClearingKeepsDet(sw, 0, 3);
    forall i | 0 <= i < 3
      ensures Clearing(sw, 0, 3)[i] == if i == 0 then sw[0] else Minus(sw[i], sw[0], sw[i].At(0) / sw[0].At(0))
      ensures i > 0 ==> Minus(sw[i], sw[0], sw[i].At(0) / sw[0].At(0)).At(0) == 0.0
      ensures i > 0 ==> Bounded(Coefficients(Minus(sw[i], sw[0], sw[i].At(0) / sw[0].At(0))), 2.0 * size)
    {
      ClearingAt(sw, 0, i);
      FactorClears(sw[i], sw[0], 0);
      RatioBound(sw[i].At(0), sw[0].At(0));
      MinusBound(sw[i], sw[0], sw[i].At(0) / sw[0].At(0), size);
    }
  }

  lemma SecondColumn(rows: seq<Row>, size: real)
    requires |rows| == 3 && FirstCleared(Vecs(rows).0, Vecs(rows).1, Vecs(rows).2, size)
    requires Abs(Det(rows)) > 4.0 * Three(0.000000001, size, size)
    ensures var sw := Exchanged(rows, 1);
      && Abs(sw[1].At(1)) >= 0.000000001
      && var after := Clearing(sw, 1, 3);
         Abs(Det(after)) == Abs(Det(rows)) && SecondCleared(Vecs(after).0, Vecs(after).1, Vecs(after).2, size)
  {
    hide Det3, Three, Minus;
    var sw, pivot := Exchanged(rows, 1), Largest(rows, 1, 3);
    DetExchange(rows, 1, pivot);
    assert forall i :: 1 <= i < 3 ==> Abs(rows[i].At(1)) <= Abs(rows[pivot].At(1));
    assert FirstCleared(Vecs(sw).0, Vecs(sw).1, Vecs(sw).2, size);
    if Abs(sw[1].At(1)) < 0.000000001 {
      SmallSecondColumn(Vecs(sw).0, Vecs(sw).1, Vecs(sw).2, size, 0.000000001);
      assert false;
    }
    ClearingKeepsDet(sw, 1, 3);
    ClearingAt(sw, 1, 0);
    ClearingAt(sw, 1, 1);
    ClearingAt(sw, 1, 2);
    FactorClears(sw[2], sw[1], 1);
    KeepsZeroColumn(sw[0], sw[1], sw[0].At(1) / sw[1].At(1));
    KeepsZeroColumn(sw[2], sw[1], sw[2].At(1) / sw[1].At(1));
  }

  lemma KeepsZeroColumn(r: Row, p: Row, f: real)
    requires p.c0 == 0.0
    ensures Minus(r, p, f).c0 == r.c0
  {}

  lemma ThirdColumn(rows: seq<Row>, size: real)
    requires |rows| == 3 && SecondCleared(Vecs(rows).0, Vecs(rows).1, Vecs(rows).2, size)
    requires Abs(Det(rows)) > 2.0 * Three(0.000000001, size, size)
    ensures Largest(rows, 2, 3) == 2 && Abs(rows[2].At(2)) >= 0.000000001
  {
    hide Det3, Three;
    if Abs(rows[2].At(2)) < 0.000000001 {
      SmallThirdColumn(Vecs(rows).0, Vecs(rows).1, Vecs(rows).2, size, 0.000000001);
      assert false;
    }
  }

  lemma EliminateStep(rows: seq<Row>, column: nat)
    requires |rows| == 3 && column < 3
    ensures Exchanged(rows, column)[column] == rows[Largest(rows, column, 3)]
    ensures Eliminate(rows, column) ==
      if Abs(Exchanged(rows, column)[column].At(column)) < PIVOT_MIN then None
      else Eliminate(Clearing(Exchanged(rows, column), column, 3), column + 1)
  {
    hide Clearing;
  }

  lemma ThreePositive(small: real, size: real)
    requires small >= 0.0
    ensures Three(small, size, size) >= 0.0
  {
    assert size * size >= 0.0;
  }

  lemma SixNano(size: real)
    ensures 6.0 * Three(0.000000001, size, size) == 0.000000006 * (size * size)
    ensures Three(0.000000001, size, size) >= 0.0
  {
    ThreePositive(0.000000001, size);
  }

  /** With coefficients up to `size` a determinant above 6e-9 times the square of `size` is enough. */
  lemma SucceedsByDeterminant(rows: seq<Row>, size: real)
    requires |rows| == 3 && forall i :: 0 <= i < 3 ==> Bounded(Coefficients(rows[i]), size)
    requires Abs(Det(rows)) > 0.000000006 * (size * size)
    ensures Eliminate(rows, 0).Some?
  {
    SixNano(size);
    hide Det, Three, Clearing, Eliminate, Bounded, FirstCleared, SecondCleared, Exchanged, Vecs;
    FirstColumn(rows, size);
    EliminateStep(rows, 0);
    var first := Clearing(Exchanged(rows, 0), 0, 3);
    SecondColumn(first, size);
    EliminateStep(first, 1);
    var second := Clearing(Exchanged(first, 1), 1, 3);
    ThirdColumn(second, size);
    EliminateStep(second, 2);
    EliminateEnds(Clearing(Exchanged(second, 2), 2, 3));
  }

  lemma EliminateEnds(rows: seq<Row>)
    requires |rows| == 3
    ensures Eliminate(rows, 3) == Some(rows)
  {}

  /** A singular system is always rejected. */
  lemma {:induction false} SingularFails(rows: seq<Row>, column: nat)
    requires Cleared(rows, column) && column <= 3 && Det(rows) == 0.0
    ensures Eliminate(rows, column).None?
    decreases 3 - column
  {
    if column == 3 {
      DiagonalIsRegular(rows);
      assert false;
    } else {
      hide Det, Clearing, Eliminate;
      EliminateStep(rows, column);
      var sw, pivot := Exchanged(rows, column), Largest(rows, column, 3);
      DetExchange(rows, column, pivot);
      if Abs(sw[column].At(column)) >= PIVOT_MIN {
        ExchangeCleared(rows, column, pivot);
        ClearingSound(sw, column, 3);
        ColumnDoneCleared(Clearing(sw, column, 3), column);
        ClearingKeepsDet(sw, column, 3);
        SingularFails(Clearing(sw, column, 3), column + 1);
      }
    }
  }

  lemma DiagonalIsRegular(rows: seq<Row>)
    requires Cleared(rows, 3)
    ensures Det(rows) != 0.0
  {
    hide Det3, Three;
    assert rows[0].At(0) != 0.0 && rows[1].At(1) != 0.0 && rows[2].At(2) != 0.0;
    assert rows[1].At(0) == 0.0 && rows[2].At(0) == 0.0 && rows[2].At(1) == 0.0;
    Triangular(Vecs(rows).0, Vecs(rows).1, Vecs(rows).2);
    ThreeNonZero(rows[0].c0, rows[1].c1, rows[2].c2);
  }

  lemma ThreeNonZero(a: real, b: real, c: real)
    requires a != 0.0 && b != 0.0 && c != 0.0
    ensures Three(a, b, c) != 0.0
  {
    assert b * c != 0.0;
  }
}
