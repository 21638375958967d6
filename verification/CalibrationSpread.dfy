/**
 When the calibration succeeds (foundation/aoa_calibration.py): the determinant
 of the normal equations decides, and the spread of the probe points bounds it.
 */
module CalibrationSpread {
  import opened Wrappers
  import opened Rounding
  import opened LinearSystem
  import opened PivotBounds

  /** The sums over the probe points, without the measured coordinates. */
  datatype Moments = Moments(uu: real, uv: real, vv: real, u: real, v: real, count: real)

  datatype Probe = Probe(u: real, v: real)

  function Plus(m: Moments, o: Probe): Moments {
    Moments(m.uu + o.u * o.u, m.uv + o.u * o.v, m.vv + o.v * o.v, m.u + o.u, m.v + o.v, m.count + 1.0)
  }

  function MomentsOf(probes: seq<Probe>): Moments {
    if probes == [] then Moments(0.0, 0.0, 0.0, 0.0, 0.0, 0.0)
    else Plus(MomentsOf(probes[..|probes| - 1]), probes[|probes| - 1])
  }

  // ---- The determinant grows with every probe ----

  /** The determinant of the normal equations. */
  function Gram(m: Moments): real {
    Det3(Vec(m.uu, m.uv, m.u), Vec(m.uv, m.vv, m.v), Vec(m.u, m.v, m.count))
  }

  /** What one more probe adds to the determinant. */
  function Gain(m: Moments, o: Probe): real {
    var a, b, c := m.vv * m.count - m.v * m.v, m.uu * m.count - m.u * m.u, m.uu * m.vv - m.uv * m.uv;
    var d, e, f := m.u * m.v - m.uv * m.count, m.uv * m.v - m.u * m.vv, m.uv * m.u - m.uu * m.v;
    a * (o.u * o.u) + b * (o.v * o.v) + c + 2.0 * d * (o.u * o.v) + 2.0 * e * o.u + 2.0 * f * o.v
  }

  /** The squared values of the line function `n` at the probes, added up. */
  function Scatter(m: Moments, n: Vec): real {
    m.uu * (n.x * n.x) + m.vv * (n.y * n.y) + m.count * (n.z * n.z)
      + 2.0 * m.uv * (n.x * n.y) + 2.0 * m.u * (n.x * n.z) + 2.0 * m.v * (n.y * n.z)
  }

  function Value(n: Vec, o: Probe): real {
    n.x * o.u + n.y * o.v + n.z
  }

  /** The line function that is zero at two probes. */
  function Through(o: Probe, q: Probe): Vec {
    Vec(o.v - q.v, q.u - o.u, o.u * q.v - o.v * q.u)
  }

  lemma ScatterGrows(m: Moments, o: Probe, n: Vec)
    ensures Scatter(Plus(m, o), n) == Scatter(m, n) + Square(Value(n, o))
  {}

  lemma GainGrows(m: Moments, o: Probe, q: Probe)
    ensures Gain(Plus(m, o), q) == Gain(m, q) + Scatter(m, Through(o, q))
  {}

  lemma GramGrows(m: Moments, o: Probe)
    ensures Gram(Plus(m, o)) == Gram(m) + Gain(m, o)
  {
    var a, b, c, w := Vec(m.uu, m.uv, m.u), Vec(m.uv, m.vv, m.v), Vec(m.u, m.v, m.count), Vec(o.u, o.v, 1.0);
    var p, q, r := Shifted(a, o.u, w), Shifted(b, o.v, w), Shifted(c, 1.0, w);
    GainIsDet(m, o);
    RowsShift(m, o);
    hide Det3, Gain, Shifted, Plus;
    Det3Linear(a, o.u, w, q, r);
    Det3Keeps(w, b, r, o.v);
    Det3Keeps(w, b, c, 1.0);
    Det3Rotates(a, q, r);
    Det3Linear(b, o.v, w, r, a);
    Det3Rotates(a, b, r);
    Det3Rotates(a, w, r);
    Det3Keeps(a, w, c, 1.0);
    Det3Rotates(b, r, a);
    Det3Linear(c, 1.0, w, a, b);
    Det3Rotates(a, b, c);
    Det3Rotates(a, b, w);
  }

  lemma RowsShift(m: Moments, o: Probe)
    ensures var n, w := Plus(m, o), Vec(o.u, o.v, 1.0);
      && Vec(n.uu, n.uv, n.u) == Shifted(Vec(m.uu, m.uv, m.u), o.u, w)
      && Vec(n.uv, n.vv, n.v) == Shifted(Vec(m.uv, m.vv, m.v), o.v, w)
      && Vec(n.u, n.v, n.count) == Shifted(Vec(m.u, m.v, m.count), 1.0, w)
  {}

  /** The gain is the sum of the determinants with one row replaced by the probe. */
  lemma GainIsDet(m: Moments, o: Probe)
    ensures var a, b, c, w := Vec(m.uu, m.uv, m.u), Vec(m.uv, m.vv, m.v), Vec(m.u, m.v, m.count), Vec(o.u, o.v, 1.0);
      Gain(m, o) == o.u * Det3(w, b, c) + o.v * Det3(a, w, c) + Det3(a, b, w)
  {}

  function Square(x: real): real {
    Times(x, x)
  }

  lemma SquareNotNegative(x: real)
    ensures Square(x) >= 0.0
  {}

  /** The scatter is at least the square at any one probe. */
  lemma {:induction false} ScatterAtLeast(probes: seq<Probe>, n: Vec, i: int)
    requires i < |probes|
    ensures Scatter(MomentsOf(probes), n) >= if i < 0 then 0.0 else Square(Value(n, probes[i]))
  {
    if probes != [] {
      var last := |probes| - 1;
      hide Scatter, Value, Plus, Square;
      ScatterAtLeast(probes[..last], n, if i == last then -1 else i);
      ScatterGrows(MomentsOf(probes[..last]), probes[last], n);
      SquareNotNegative(Value(n, probes[last]));
    } else {
      assert MomentsOf([]) == Moments(0.0, 0.0, 0.0, 0.0, 0.0, 0.0);
    }
  }

  /** What a probe gains is at least what it gains over any two of the earlier ones. */
  lemma {:induction false} GainAtLeast(probes: seq<Probe>, q: Probe, i: int, j: int)
    requires i < j < |probes|
    ensures Gain(MomentsOf(probes), q) >=
      if i < 0 then 0.0 else Square(Value(Through(probes[j], q), probes[i]))
  {
    if probes != [] {
      var last := |probes| - 1;
      var n := Through(probes[last], q);
      hide Scatter, Value, Gain, Plus, Through, Square;
      GainAtLeast(probes[..last], q, if j == last then -2 else i, if j == last then -1 else j);
      GainGrows(MomentsOf(probes[..last]), probes[last], q);
      ScatterAtLeast(probes[..last], n, if j == last then i else -1);
    } else {
      assert MomentsOf([]) == Moments(0.0, 0.0, 0.0, 0.0, 0.0, 0.0);
    }
  }

  /** Twice the signed area of the triangle between three probes. */
  function TwiceArea(a: Probe, b: Probe, c: Probe): real {
    (b.u - a.u) * (c.v - a.v) - (b.v - a.v) * (c.u - a.u)
  }

  lemma AreaIsValue(a: Probe, b: Probe, c: Probe)
    ensures Value(Through(b, c), a) == TwiceArea(a, b, c)
  {}

  /** The determinant is at least the square of twice the area of any triangle of probes. */
  lemma {:induction false} GramAtLeast(probes: seq<Probe>, i: int, j: int, k: int)
    requires i < j < k < |probes|
    ensures Gram(MomentsOf(probes)) >= if i < 0 then 0.0 else
      Square(TwiceArea(probes[i], probes[j], probes[k]))
  {
    if probes != [] {
      var last := |probes| - 1;
      hide Value, Gram, Gain, Plus, Through, TwiceArea, Square;
      GramGrows(MomentsOf(probes[..last]), probes[last]);
      if k == last {
        GramAtLeast(probes[..last], -3, -2, -1);
        GainAtLeast(probes[..last], probes[last], i, j);
        if i >= 0 {
          AreaIsValue(probes[i], probes[j], probes[k]);
        }
      } else {
        GramAtLeast(probes[..last], i, j, k);
        GainAtLeast(probes[..last], probes[last], -2, -1);
      }
    } else {
      assert MomentsOf([]) == Moments(0.0, 0.0, 0.0, 0.0, 0.0, 0.0);
    }
  }

  // ---- How large the sums are ----

  ghost predicate Within(probes: seq<Probe>, size: real) {
    forall i :: 0 <= i < |probes| ==>
      -size <= probes[i].u <= size && -size <= probes[i].v <= size
  }

  ghost predicate Small(m: Moments, bound: real) {
    && Abs(m.uu) <= bound && Abs(m.uv) <= bound && Abs(m.vv) <= bound
    && Abs(m.u) <= bound && Abs(m.v) <= bound && Abs(m.count) <= bound
  }

  lemma ProductWithin(a: real, b: real, size: real)
    requires -size <= a <= size && -size <= b <= size
    ensures Abs(a * b) <= Square(size)
  {
    ProductBound(a, b, size, size);
  }

  function Multiple(n: nat, x: real): real {
    n as real * x
  }

  lemma MultipleGrows(n: nat, x: real)
    ensures Multiple(n + 1, x) == Multiple(n, x) + x && Multiple(0, x) == 0.0
  {
    assert (n + 1) as real == n as real + 1.0;
  }

  ghost predicate IsSmallProbe(o: Probe, square: real) {
    && Abs(o.u) <= square && Abs(o.v) <= square && 1.0 <= square
    && Abs(o.u * o.u) <= square && Abs(o.u * o.v) <= square && Abs(o.v * o.v) <= square
  }

  lemma SizeWithin(size: real)
    requires size >= 1.0
    ensures 1.0 <= size <= Square(size)
  {}

  lemma ProbeIsSmall(o: Probe, size: real)
    requires size >= 1.0 && -size <= o.u <= size && -size <= o.v <= size
    ensures IsSmallProbe(o, Square(size))
  {
    SizeWithin(size);
    ProductWithin(o.u, o.u, size);
    ProductWithin(o.u, o.v, size);
    ProductWithin(o.v, o.v, size);
    hide Square;
  }

  lemma {:induction false} MomentsAreSmall(probes: seq<Probe>, size: real)
    requires size >= 1.0 && Within(probes, size)
    ensures Small(MomentsOf(probes), Multiple(|probes|, Square(size)))
  {
    var square := Square(size);
    MultipleGrows(0, square);
    if probes != [] {
      var last := |probes| - 1;
      var o := probes[last];
      MomentsAreSmall(probes[..last], size);
      hide Multiple, Square, Plus, Small, IsSmallProbe;
      ProbeIsSmall(o, size);
      MultipleGrows(last, square);
      SumsAreSmall(MomentsOf(probes[..last]), o, Multiple(last, square), square);
    }
  }

  lemma SumsAreSmall(m: Moments, o: Probe, bound: real, square: real)
    requires Small(m, bound) && IsSmallProbe(o, square)
    ensures Small(Plus(m, o), bound + square)
  {
    hide Abs;
    var p := Plus(m, o);
    AbsSum(m.uu, o.u * o.u, p.uu, bound, square);
    AbsSum(m.uv, o.u * o.v, p.uv, bound, square);
    AbsSum(m.vv, o.v * o.v, p.vv, bound, square);
    AbsSum(m.u, o.u, p.u, bound, square);
    AbsSum(m.v, o.v, p.v, bound, square);
    AbsOne(square);
    AbsSum(m.count, 1.0, p.count, bound, square);
  }

  lemma AbsOne(square: real)
    requires 1.0 <= square
    ensures Abs(1.0) <= square
  {}

  lemma AbsSum(a: real, b: real, sum: real, bound: real, square: real)
    requires sum == a + b && Abs(a) <= bound && Abs(b) <= square
    ensures Abs(sum) <= bound + square
  {}

  // ---- Enough spread ----

  /** The coefficients of the normal equations. */
  ghost predicate AreNormal(rows: seq<Row>, m: Moments) {
    && |rows| == 3 && Coefficients(rows[0]) == Vec(m.uu, m.uv, m.u)
    && Coefficients(rows[1]) == Vec(m.uv, m.vv, m.v) && Coefficients(rows[2]) == Vec(m.u, m.v, m.count)
  }

  /** Some triangle of probes is large, compared with the number and the size of all probes. */
  ghost predicate SpreadBy(probes: seq<Probe>, i: nat, j: nat, k: nat, size: real) {
    && i < j < k < |probes| && size >= 1.0 && Within(probes, size)
    && 10000.0 * Abs(TwiceArea(probes[i], probes[j], probes[k])) >= |probes| as real * (size * size)
  }

  lemma AreaSuffices(area: real, bound: real)
    requires 10000.0 * Abs(area) >= bound > 0.0
    ensures Square(area) > 0.000000006 * Square(bound)
  {
    var a := Abs(area);
    SquareOfAbs(area);
    SquareGrows(bound, 10000.0 * a);
    SquareScales(a, 10000.0 * a);
    hide Square;
  }

  lemma SquareGrows(a: real, b: real)
    requires 0.0 < a <= b
    ensures Square(a) > 0.0 && Square(b) >= Square(a)
  {
    MonotoneProduct(a, a, b);
    MonotoneProduct(b, a, b);
    TimesPositive(a, a);
  }

  lemma MonotoneProduct(k: real, a: real, b: real)
    requires k > 0.0 && a <= b
    ensures k * a <= k * b
  {}

  lemma SquareScales(a: real, t: real)
    requires t == 10000.0 * a
    ensures Square(t) == 100000000.0 * Square(a)
  {}

  lemma SquareOfAbs(a: real)
    ensures Square(Abs(a)) == Square(a)
  {}

  /** Probes that spread far enough always have a calibration. */
  lemma SpreadSucceeds(rows: seq<Row>, probes: seq<Probe>, i: nat, j: nat, k: nat, size: real)
    requires AreNormal(rows, MomentsOf(probes)) && SpreadBy(probes, i, j, k, size)
    ensures Eliminate(rows, 0).Some?
  {
    var bound := Multiple(|probes|, Square(size));
    BoundPositive(|probes|, size);
    MomentsAreSmall(probes, size);
    hide Multiple, Det3, TwiceArea, Eliminate, MomentsOf;
    GramAtLeast(probes, i, j, k);
    AreaSuffices(TwiceArea(probes[i], probes[j], probes[k]), bound);
    hide Square;
    LargeDeterminant(rows, bound);
  }

  lemma LargeDeterminant(rows: seq<Row>, bound: real)
    requires |rows| == 3 && forall i :: 0 <= i < 3 ==> Bounded(Coefficients(rows[i]), bound)
    requires Abs(Det(rows)) > 0.000000006 * Square(bound)
    ensures Eliminate(rows, 0).Some?
  {
    hide Det, Eliminate, Bounded;
    SucceedsByDeterminant(rows, bound);
  }

  lemma BoundPositive(n: nat, size: real)
    requires n > 0 && size >= 1.0
    ensures 0.0 < Multiple(n, Square(size)) == n as real * (size * size)
  {
    ProductPositive(size, size);
    ProductPositive(n as real, size * size);
  }
}
