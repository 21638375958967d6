/** Python's `round`, and Euclidean distances compared through their squares. */
module Rounding {

  /** Nearest integer; a tie goes to the even neighbour. */
  function Round(x: real): (r: int)
    ensures -0.5 <= r as real - x <= 0.5
    ensures r as real - x == 0.5 || r as real - x == -0.5 ==> r % 2 == 0
  {
    var below := x.Floor;
    var rest := x - below as real;
    if rest < 0.5 || (rest == 0.5 && below % 2 == 0) then below else below + 1
  }

  lemma RoundExact(n: int)
    ensures Round(n as real) == n
  {
  }

  function Abs(x: real): real {
    if x < 0.0 then -x else x
  }

  function Min(a: real, b: real): real {
    if a <= b then a else b
  }

  /** A product as a named value, so that linear reasoning can treat it as one unknown. */
  function Times(k: real, d: real): real {
    k * d
  }

  lemma TimesNonNegative(k: real, d: real)
    requires k >= 0.0 && d >= 0.0
    ensures Times(k, d) >= 0.0
  {
  }

  lemma TimesPositive(k: real, d: real)
    requires k > 0.0 && d > 0.0
    ensures Times(k, d) > 0.0
  {
  }

  /** `error + dist((0, 0), (dx, dy)) <= limit` over the reals. */
  predicate Fits(error: real, dx: real, dy: real, limit: real) {
    error <= limit && dx * dx + dy * dy <= (limit - error) * (limit - error)
  }

  lemma ProductPositive(a: real, b: real)
    requires a > 0.0 && b > 0.0
    ensures a * b > 0.0
  {
  }

  lemma SquareOrder(a: real, b: real)
    requires a >= 0.0 && b >= 0.0
    ensures a <= b <==> a * a <= b * b
  {
    if a <= b {
      assert a * a <= a * b <= b * b;
    } else {
      ProductPositive(a - b, a + b);
      assert a * a - b * b == (a - b) * (a + b);
    }
  }

  /** `Fits` says what the comparison with a square root says. */
  lemma FitsMeaning(error: real, dx: real, dy: real, limit: real, dist: real)
    requires dist >= 0.0 && dist * dist == dx * dx + dy * dy
    ensures Fits(error, dx, dy, limit) <==> error + dist <= limit
  {
    if error <= limit {
      SquareOrder(dist, limit - error);
    }
  }

  /** A leg is no longer than the hypotenuse. */
  lemma LegBound(dx: real, dy: real, limit: real)
    requires limit >= 0.0 && dx * dx + dy * dy <= limit * limit
    ensures Abs(dx) <= limit && Abs(dy) <= limit
  {
    assert dx * dx >= 0.0 && dy * dy >= 0.0;
    assert Abs(dx) * Abs(dx) == dx * dx && Abs(dy) * Abs(dy) == dy * dy;
    SquareOrder(Abs(dx), limit);
    SquareOrder(Abs(dy), limit);
  }
}
