/**
 Least-squares calibration (foundation/aoa_calibration.py): the normal
 equations, their solution, and what that solution minimises.
 */
module AffineFit {
  import opened Wrappers
  import opened LinearSystem
  import opened Rounding
  import CalibrationSpread

  /** A probe point and one measured coordinate; a coefficient triple (a, b, t) predicts a*u + b*v + t. */
  datatype Obs = Obs(u: real, v: real, w: real)

  function Predict(p: Vec, o: Obs): real {
    p.x * o.u + p.y * o.v + p.z
  }

  function Residual(p: Vec, o: Obs): real {
    Predict(p, o) - o.w
  }

  function Product(a: real, b: real): real {
    a * b
  }

  function Square(x: real): real {
    Product(x, x)
  }

  /** The sum of squared residuals. */
  ghost function Squares(obs: seq<Obs>, p: Vec): real {
    if obs == [] then 0.0
    else
      var o := obs[|obs| - 1];
      Squares(obs[..|obs| - 1], p) + Square(Residual(p, o))
  }

  /** The accumulated sums, as the loop of `fit_affine` keeps them. */
  datatype Sums = Sums(uu: real, uv: real, vv: real, u: real, v: real, uw: real, vw: real, w: real, count: real) {
    function Plus(o: Obs): Sums {
      Sums(uu + o.u * o.u, uv + o.u * o.v, vv + o.v * o.v, u + o.u, v + o.v,
           uw + o.u * o.w, vw + o.v * o.w, w + o.w, count + 1.0)
    }

    function Normal(): (rows: seq<Row>)
      ensures |rows| == 3
    {
      [Row(uu, uv, u, uw), Row(uv, vv, v, vw), Row(u, v, count, w)]
    }
  }

  const ZERO := Sums(0.0, 0.0, 0.0, 0.0, 0.0, 0.0, 0.0, 0.0, 0.0)

  ghost function SumsOf(obs: seq<Obs>): Sums {
    if obs == [] then ZERO else SumsOf(obs[..|obs| - 1]).Plus(obs[|obs| - 1])
  }

  // ---- The normal equations say that the gradient is zero ----

  /** The residuals weighted with u, with v, and with 1. */
  ghost function Gradient(obs: seq<Obs>, p: Vec): Vec {
    if obs == [] then Vec(0.0, 0.0, 0.0)
    else
      var o, g := obs[|obs| - 1], Gradient(obs[..|obs| - 1], p);
      var r := Residual(p, o);
      Vec(g.x + Product(o.u, r), g.y + Product(o.v, r), g.z + r)
  }

  ghost function RowValue(r: Row, p: Vec): real {
    r.c0 * p.x + r.c1 * p.y + r.c2 * p.z - r.rhs
  }

  /** What one sample contributes to a row: `k` is its weight in that row. */
  function Term(k: real, o: Obs): Row {
    Row(k * o.u, k * o.v, k, k * o.w)
  }

  lemma TermValue(k: real, p: Vec, o: Obs)
    ensures RowValue(Term(k, o), p) == Product(k, Residual(p, o))
  {
    assert k * (p.x * o.u) == k * o.u * p.x;
    assert k * (p.y * o.v) == k * o.v * p.y;
  }

  lemma Distribute(a: real, b: real, x: real)
    ensures (a + b) * x == a * x + b * x
  {
  }

  lemma RowsAdd(r: Row, t: Row, p: Vec)
    ensures RowValue(Row(r.c0 + t.c0, r.c1 + t.c1, r.c2 + t.c2, r.rhs + t.rhs), p) == RowValue(r, p) + RowValue(t, p)
  {
    Distribute(r.c0, t.c0, p.x);
    Distribute(r.c1, t.c1, p.y);
    Distribute(r.c2, t.c2, p.z);
  }

  function Weight(o: Obs, row: nat): real {
    if row == 0 then o.u else if row == 1 then o.v else 1.0
  }

  lemma RowGrows(s: Sums, o: Obs, row: nat, p: Vec)
    requires row < 3
    ensures RowValue(s.Plus(o).Normal()[row], p) ==
      RowValue(s.Normal()[row], p) + Product(Weight(o, row), Residual(p, o))
  {
    var n, t := s.Normal()[row], Term(Weight(o, row), o);
    SumsGrow(s, o, row);
    hide RowValue;
    RowsAdd(n, t, p);
    TermValue(Weight(o, row), p, o);
  }

  lemma SumsGrow(s: Sums, o: Obs, row: nat)
    requires row < 3
    ensures var n, t := s.Normal()[row], Term(Weight(o, row), o);
      s.Plus(o).Normal()[row] == Row(n.c0 + t.c0, n.c1 + t.c1, n.c2 + t.c2, n.rhs + t.rhs)
  {
    if row == 0 {
      assert Weight(o, row) == o.u;
    } else if row == 1 {
      assert Weight(o, row) == o.v;
    } else {
      assert row == 2 && Weight(o, row) == 1.0;
    }
  }

  lemma {:induction false} GradientIsNormal(obs: seq<Obs>, p: Vec)
    ensures var n, g := SumsOf(obs).Normal(), Gradient(obs, p);
      g == Vec(RowValue(n[0], p), RowValue(n[1], p), RowValue(n[2], p))
  {
    if obs != [] {
      hide Residual, Product, RowValue, Sums.Plus, Sums.Normal;
      var o, s := obs[|obs| - 1], SumsOf(obs[..|obs| - 1]);
      GradientIsNormal(obs[..|obs| - 1], p);
      RowGrows(s, o, 0, p);
      RowGrows(s, o, 1, p);
      RowGrows(s, o, 2, p);
      UnitProduct(Residual(p, o));
    }
  }

  lemma UnitProduct(r: real)
    ensures Product(1.0, r) == r
  {
  }

  lemma SatisfiesMeans(r: Row, p: Vec)
    ensures Satisfies(r, p) <==> RowValue(r, p) == 0.0
  {
  }

  lemma NormalIffGradientZero(obs: seq<Obs>, p: Vec)
    ensures Solves(SumsOf(obs).Normal(), p) <==> Gradient(obs, p) == Vec(0.0, 0.0, 0.0)
  {
    hide RowValue, Satisfies;
    GradientIsNormal(obs, p);
    var n := SumsOf(obs).Normal();
    SatisfiesMeans(n[0], p);
    SatisfiesMeans(n[1], p);
    SatisfiesMeans(n[2], p);
  }

  // ---- Where the gradient is zero the squares are least ----

  function Diff(q: Vec, p: Vec): Vec {
    Vec(q.x - p.x, q.y - p.y, q.z - p.z)
  }

  /** The sum of squared differences between two predictions. */
  ghost function Spread(obs: seq<Obs>, d: Vec): real {
    if obs == [] then 0.0
    else
      var o := obs[|obs| - 1];
      Spread(obs[..|obs| - 1], d) + Square(Predict(d, o))
  }

  ghost function Dot(a: Vec, b: Vec): real {
    a.x * b.x + a.y * b.y + a.z * b.z
  }

  lemma ResidualMoves(p: Vec, q: Vec, o: Obs)
    ensures Residual(q, o) == Residual(p, o) + Predict(Diff(q, p), o)
  {
  }

  lemma SquareOfSum(r: real, s: real)
    ensures Square(r + s) == Square(r) + 2.0 * Product(s, r) + Square(s)
  {
  }

  lemma DotGrows(d: Vec, g: Vec, o: Obs, r: real)
    ensures Dot(d, Vec(g.x + Product(o.u, r), g.y + Product(o.v, r), g.z + r)) == Dot(d, g) + Product(Predict(d, o), r)
  {
    assert d.x * (g.x + o.u * r) == d.x * g.x + d.x * o.u * r;
    assert d.y * (g.y + o.v * r) == d.y * g.y + d.y * o.v * r;
  }

  lemma {:induction false} SquaresExpand(obs: seq<Obs>, p: Vec, q: Vec)
    ensures Squares(obs, q) == Squares(obs, p) + 2.0 * Dot(Diff(q, p), Gradient(obs, p)) + Spread(obs, Diff(q, p))
  {
    if obs != [] {
      var front, o := obs[..|obs| - 1], obs[|obs| - 1];
      hide Predict, Residual, Dot, Square, Product, Diff;
      SquaresExpand(front, p, q);
      ResidualMoves(p, q, o);
      SquareOfSum(Residual(p, o), Predict(Diff(q, p), o));
      DotGrows(Diff(q, p), Gradient(front, p), o, Residual(p, o));
    } else {
      assert Dot(Diff(q, p), Vec(0.0, 0.0, 0.0)) == 0.0;
    }
  }

  lemma PositiveProduct(a: real, b: real)
    requires a > 0.0 && b > 0.0
    ensures Product(a, b) > 0.0
  {
  }

  lemma SquareNegated(x: real)
    ensures Square(-x) == Square(x)
  {
  }

  lemma SquareSign(x: real)
    ensures Square(x) >= 0.0 && (Square(x) == 0.0 ==> x == 0.0)
  {
    if x > 0.0 {
      PositiveProduct(x, x);
    } else if x < 0.0 {
      PositiveProduct(-x, -x);
      SquareNegated(x);
    }
  }

  lemma {:induction false} SpreadNonNegative(obs: seq<Obs>, d: Vec)
    ensures Spread(obs, d) >= 0.0
    ensures Spread(obs, d) == 0.0 ==> forall i :: 0 <= i < |obs| ==> Predict(d, obs[i]) == 0.0
  {
    if obs != [] {
      hide Predict, Square;
      SpreadNonNegative(obs[..|obs| - 1], d);
      var x := Predict(d, obs[|obs| - 1]);
      SquareSign(x);
      if Spread(obs, d) == 0.0 {
        forall i | 0 <= i < |obs|
          ensures Predict(d, obs[i]) == 0.0
        {
          assert i < |obs| - 1 ==> obs[i] == obs[..|obs| - 1][i];
        }
      }
    }
  }

  lemma {:induction false} SameResidualsSameGradient(obs: seq<Obs>, p: Vec, q: Vec)
    requires forall i :: 0 <= i < |obs| ==> Residual(p, obs[i]) == Residual(q, obs[i])
    ensures Gradient(obs, p) == Gradient(obs, q)
  {
    if obs != [] {
      SameResidualsSameGradient(obs[..|obs| - 1], p, q);
    }
  }

  /** The solver's only solution is the one and only least-squares fit. */
  lemma NormalSolutionIsBest(obs: seq<Obs>, p: Vec, q: Vec)
    requires forall s :: Solves(SumsOf(obs).Normal(), s) <==> s == p
    ensures q != p ==> Squares(obs, p) < Squares(obs, q)
  {
    NormalIffGradientZero(obs, p);
    assert Solves(SumsOf(obs).Normal(), p);
    SquaresExpand(obs, p, q);
    assert Dot(Diff(q, p), Vec(0.0, 0.0, 0.0)) == 0.0;
    SpreadNonNegative(obs, Diff(q, p));
    if Spread(obs, Diff(q, p)) == 0.0 {
      forall i | 0 <= i < |obs|
        ensures Residual(p, obs[i]) == Residual(q, obs[i])
      {
        ResidualMoves(p, q, obs[i]);
      }
      SameResidualsSameGradient(obs, p, q);
      NormalIffGradientZero(obs, q);
    }
  }

  lemma {:induction false} NoResidualNoGradient(obs: seq<Obs>, p: Vec)
    requires forall i :: 0 <= i < |obs| ==> Residual(p, obs[i]) == 0.0
    ensures Gradient(obs, p) == Vec(0.0, 0.0, 0.0)
  {
    if obs != [] {
      NoResidualNoGradient(obs[..|obs| - 1], p);
    }
  }

  // ---- Which probes can be fitted ----

  function ProbesOf(obs: seq<Obs>): seq<CalibrationSpread.Probe> {
    seq(|obs|, i requires 0 <= i < |obs| => CalibrationSpread.Probe(obs[i].u, obs[i].v))
  }

  lemma {:induction false} SumsAreMoments(obs: seq<Obs>)
    ensures CalibrationSpread.AreNormal(SumsOf(obs).Normal(), CalibrationSpread.MomentsOf(ProbesOf(obs)))
  {
    hide Sums.Plus, Sums.Normal, CalibrationSpread.Plus, CalibrationSpread.AreNormal;
    if obs != [] {
      var front, o := obs[..|obs| - 1], obs[|obs| - 1];
      SumsAreMoments(front);
      assert ProbesOf(obs)[..|obs| - 1] == ProbesOf(front);
      SumsGrowAlike(SumsOf(front), CalibrationSpread.MomentsOf(ProbesOf(front)), o);
    } else {
      NothingIsNormal();
    }
  }

  lemma NothingIsNormal()
    ensures CalibrationSpread.AreNormal(ZERO.Normal(), CalibrationSpread.MomentsOf([]))
  {}

  lemma SumsGrowAlike(s: Sums, m: CalibrationSpread.Moments, o: Obs)
    requires CalibrationSpread.AreNormal(s.Normal(), m)
    ensures CalibrationSpread.AreNormal(s.Plus(o).Normal(),
                                        CalibrationSpread.Plus(m, CalibrationSpread.Probe(o.u, o.v)))
  {}

  // ---- fit_affine ----

  datatype Sample = Sample(u: real, v: real, x: real, y: real)

  function ObsX(samples: seq<Sample>): seq<Obs> {
    seq(|samples|, i requires 0 <= i < |samples| => Obs(samples[i].u, samples[i].v, samples[i].x))
  }

  function ObsY(samples: seq<Sample>): seq<Obs> {
    seq(|samples|, i requires 0 <= i < |samples| => Obs(samples[i].u, samples[i].v, samples[i].y))
  }

  /** All probe points lie on one line (or coincide). */
  ghost predicate Collinear(samples: seq<Sample>) {
    exists n: Vec :: OnLine(samples, n)
  }

  ghost predicate OnLine(samples: seq<Sample>, n: Vec) {
    (n.x != 0.0 || n.y != 0.0)
    && forall i :: 0 <= i < |samples| ==> n.x * samples[i].u + n.y * samples[i].v + n.z == 0.0
  }

  /** Twice the signed area of the triangle between three probe points. */
  function TwiceArea(a: Sample, b: Sample, c: Sample): real {
    (b.u - a.u) * (c.v - a.v) - (b.v - a.v) * (c.u - a.u)
  }

  ghost predicate SpreadBy(samples: seq<Sample>, i: nat, j: nat, k: nat, size: real) {
    && i < j < k < |samples| && size >= 1.0
    && (forall l :: 0 <= l < |samples| ==> -size <= samples[l].u <= size && -size <= samples[l].v <= size)
    && 10000.0 * Abs(TwiceArea(samples[i], samples[j], samples[k])) >= |samples| as real * (size * size)
  }

  /**
   Some three probe points span a triangle of twice the area of a 10000th of the
   squared coordinate size, for each sample.
   */
  ghost predicate WellSpread(samples: seq<Sample>) {
    exists i: nat, j: nat, k: nat, size: real :: SpreadBy(samples, i, j, k, size)
  }

  lemma SameSpread(samples: seq<Sample>, obs: seq<Obs>, i: nat, j: nat, k: nat, size: real)
    requires SpreadBy(samples, i, j, k, size) && |obs| == |samples|
    requires forall l :: 0 <= l < |obs| ==> obs[l].u == samples[l].u && obs[l].v == samples[l].v
    ensures CalibrationSpread.SpreadBy(ProbesOf(obs), i, j, k, size)
  {
    var probes := ProbesOf(obs);
    assert CalibrationSpread.TwiceArea(probes[i], probes[j], probes[k])
        == TwiceArea(samples[i], samples[j], samples[k]);
    hide TwiceArea, CalibrationSpread.TwiceArea;
  }

  lemma SpreadIsEnough(samples: seq<Sample>)
    requires WellSpread(samples)
    ensures |samples| >= 3
    ensures Eliminate(SumsOf(ObsX(samples)).Normal(), 0).Some?
    ensures Eliminate(SumsOf(ObsY(samples)).Normal(), 0).Some?
  {
    var i: nat, j: nat, k: nat, size: real :| SpreadBy(samples, i, j, k, size);
    SameSpread(samples, ObsX(samples), i, j, k, size);
    SameSpread(samples, ObsY(samples), i, j, k, size);
    hide Eliminate, CalibrationSpread.AreNormal, CalibrationSpread.SpreadBy, SpreadBy;
    SumsAreMoments(ObsX(samples));
    SumsAreMoments(ObsY(samples));
    CalibrationSpread.SpreadSucceeds(SumsOf(ObsX(samples)).Normal(), ProbesOf(ObsX(samples)), i, j, k, size);
    CalibrationSpread.SpreadSucceeds(SumsOf(ObsY(samples)).Normal(), ProbesOf(ObsY(samples)), i, j, k, size);
  }

  /** `five_point_calibration_points`. */
  function FivePoints(maxX: nat, maxY: nat): seq<(nat, nat)> {
    [(maxX / 4, maxY / 4), (maxX - maxX / 4, maxY / 4), (maxX / 2, maxY / 2),
     (maxX / 4, maxY - maxY / 4), (maxX - maxX / 4, maxY - maxY / 4)]
  }

  /** The five standard probe points of the touch screen spread far enough, whatever is measured there. */
  lemma FivePointsAreWellSpread(samples: seq<Sample>)
    requires |samples| == 5
    requires forall i :: 0 <= i < 5 ==> samples[i].u == FivePoints(360, 640)[i].0 as real
    requires forall i :: 0 <= i < 5 ==> samples[i].v == FivePoints(360, 640)[i].1 as real
    ensures WellSpread(samples)
  {
    assert SpreadBy(samples, 0, 1, 3, 480.0);
  }

  /** `(a, b, tx)` and `(c, d, ty)`. */
  datatype Affine = Affine(forX: Vec, forY: Vec)

  ghost predicate BestFor(obs: seq<Obs>, p: Vec) {
    forall q :: q != p ==> Squares(obs, p) < Squares(obs, q)
  }

  ghost predicate ExactFor(obs: seq<Obs>, p: Vec) {
    forall i :: 0 <= i < |obs| ==> Residual(p, obs[i]) == 0.0
  }

  lemma Uniqueness(obs: seq<Obs>, p: Vec)
    requires forall s :: Solves(SumsOf(obs).Normal(), s) <==> s == p
    ensures BestFor(obs, p)
    ensures forall q :: ExactFor(obs, q) ==> q == p
  {
    forall q | q != p
      ensures Squares(obs, p) < Squares(obs, q)
    {
      NormalSolutionIsBest(obs, p, q);
    }
    forall q | ExactFor(obs, q)
      ensures q == p
    {
      NoResidualNoGradient(obs, q);
      NormalIffGradientZero(obs, q);
    }
  }

  /** On a line two different coefficient triples predict the same, so the fit is not unique. */
  lemma UniqueIsNotCollinear(samples: seq<Sample>, p: Vec)
    requires BestFor(ObsX(samples), p)
    ensures !Collinear(samples)
  {
    if n :| OnLine(samples, n) {
      var obs := ObsX(samples);
      var q := Vec(p.x + n.x, p.y + n.y, p.z + n.z);
      assert q != p && Squares(obs, p) < Squares(obs, q);
      forall i | 0 <= i < |obs|
        ensures Residual(p, obs[i]) == Residual(q, obs[i])
      {
        ResidualMoves(p, q, obs[i]);
        assert Diff(q, p) == n;
      }
      SameSquares(obs, p, q);
      assert false;
    }
  }

  lemma {:induction false} SameSquares(obs: seq<Obs>, p: Vec, q: Vec)
    requires forall i :: 0 <= i < |obs| ==> Residual(p, obs[i]) == Residual(q, obs[i])
    ensures Squares(obs, p) == Squares(obs, q)
  {
    if obs != [] {
      SameSquares(obs[..|obs| - 1], p, q);
    }
  }

  /**
   The fit. On success it is the unique minimiser of the squared residuals in
   both coordinates, it is the map itself if the samples lie on one, and the
   probe points are not collinear. It succeeds whenever they are well spread.
   */
  method FitAffine(samples: seq<Sample>) returns (fit: Option<Affine>)
    ensures fit.None? <==> |samples| < 3 || Eliminate(SumsOf(ObsX(samples)).Normal(), 0).None?
                           || Eliminate(SumsOf(ObsY(samples)).Normal(), 0).None?
    ensures WellSpread(samples) ==> fit.Some?
    ensures fit.Some? ==> |samples| >= 3 && !Collinear(samples)
    ensures fit.Some? ==> BestFor(ObsX(samples), fit.value.forX) && BestFor(ObsY(samples), fit.value.forY)
    ensures fit.Some? ==> forall q :: ExactFor(ObsX(samples), q) ==> q == fit.value.forX
    ensures fit.Some? ==> forall q :: ExactFor(ObsY(samples), q) ==> q == fit.value.forY
  {
    if WellSpread(samples) {
      SpreadIsEnough(samples);
    }
    if |samples| < 3 {
      return None;
    }
    var sumsX, sumsY := ZERO, ZERO;
    for i := 0 to |samples|
      invariant sumsX == SumsOf(ObsX(samples)[..i]) && sumsY == SumsOf(ObsY(samples)[..i])
    {
      var s := samples[i];
      sumsX := sumsX.Plus(Obs(s.u, s.v, s.x));
      sumsY := sumsY.Plus(Obs(s.u, s.v, s.y));
      assert ObsX(samples)[..i + 1][..i] == ObsX(samples)[..i];
      assert ObsY(samples)[..i + 1][..i] == ObsY(samples)[..i];
    }
    assert ObsX(samples)[..|samples|] == ObsX(samples) && ObsY(samples)[..|samples|] == ObsY(samples);
    var forX := Solve3(sumsX.Normal());
    if forX.None? {
      return None;
    }
    Uniqueness(ObsX(samples), forX.value);
    UniqueIsNotCollinear(samples, forX.value);
    var forY := Solve3(sumsY.Normal());
    if forY.None? {
      return None;
    }
    Uniqueness(ObsY(samples), forY.value);
    fit := Some(Affine(forX.value, forY.value));
  }
}
