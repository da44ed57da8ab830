/** Python's `round(x, ndigits)` on exact real numbers: the nearest multiple
    of 10^-ndigits, ties going to the even multiple ("banker's rounding"). */
module Rounding {

  /** 10^n. */
  function Pow10(n: nat): (k: nat)
    ensures k >= 1
  {
    if n == 0 then 1 else 10 * Pow10(n - 1)
  }

  /** 10^n as a real number. */
  function Scale(n: nat): (p: real)
    ensures p >= 1.0
  {
    Pow10(n) as real
  }

  /** The nearest integer to `x`; a tie (fraction exactly one half) goes to
      the even neighbour. */
  function RoundHalfEven(x: real): (k: int)
    ensures -0.5 <= x - k as real <= 0.5
    ensures x - k as real == 0.5 ==> k % 2 == 0
    ensures x - k as real == -0.5 ==> k % 2 == 0
  {
    var f := x.Floor;
    var d := x - f as real;
    if d < 0.5 then f
    else if d > 0.5 then f + 1
    else if f % 2 == 0 then f
    else f + 1
  }

  /** The multiple of 1/p nearest to `x`, ties to the even multiple. */
  function RoundAt(x: real, p: real): (r: real)
    requires p >= 1.0
    ensures -0.5 <= (x - r) * p <= 0.5
  {
    var k := RoundHalfEven(x * p);
    var r := k as real / p;
    ScaleBack(k, p);
    assert (x - r) * p == x * p - k as real;
    r
  }

  /** `round(x, ndigits)`: the value within half a step of `x` on the grid
      of multiples of 10^-ndigits. */
  function Round(x: real, ndigits: nat): (r: real)
    ensures -0.5 <= (x - r) * Scale(ndigits) <= 0.5
  {
    RoundAt(x, Scale(ndigits))
  }

  /** `round(x, ndigits)` is `x * 10^ndigits` rounded half to even, divided
      back by 10^ndigits: a multiple of 10^-ndigits, ties to the even one. */
  lemma RoundOnGrid(x: real, ndigits: nat)
    ensures Round(x, ndigits) == RoundHalfEven(x * Scale(ndigits)) as real / Scale(ndigits)
  {
    RoundAtValue(x, Scale(ndigits));
  }

  lemma ScaleBack(k: int, p: real)
    requires p > 0.0
    ensures (k as real / p) * p == k as real
    ensures ((k as real / p) * p).Floor == k
  {
    assert (k as real).Floor == k;
  }

  lemma DivMonotone(a: real, b: real, p: real)
    requires a <= b && p > 0.0
    ensures a / p <= b / p
  {
    assert b / p - a / p == (b - a) / p;
  }

  lemma MulMonotone(a: real, b: real, p: real)
    requires a <= b && p >= 0.0
    ensures a * p <= b * p
  {
    assert b * p - a * p == (b - a) * p;
  }

  lemma RoundHalfEvenOfInt(k: int)
    ensures RoundHalfEven(k as real) == k
  {
    assert (k as real).Floor == k;
  }

  /** The nearest integer never reverses the order of two numbers. */
  lemma RoundHalfEvenMonotone(x: real, y: real)
    requires x <= y
    ensures RoundHalfEven(x) <= RoundHalfEven(y)
  {
    var fx, fy := x.Floor, y.Floor;
    assert fx <= fy;
    if fx == fy {
      var dx, dy := x - fx as real, y - fy as real;
      assert dx <= dy;
    }
  }

  lemma RoundAtMonotone(x: real, y: real, p: real)
    requires x <= y && p >= 1.0
    ensures RoundAt(x, p) <= RoundAt(y, p)
  {
    MulMonotone(x, y, p);
    RoundHalfEvenMonotone(x * p, y * p);
    DivMonotone(RoundHalfEven(x * p) as real, RoundHalfEven(y * p) as real, p);
  }

  lemma RoundAtIdempotent(x: real, p: real)
    requires p >= 1.0
    ensures RoundAt(RoundAt(x, p), p) == RoundAt(x, p)
  {
    var k := RoundHalfEven(x * p);
    assert RoundAt(x, p) == k as real / p;
    RoundAtOnGrid(k, p);
  }

  /** A multiple of 1/p rounds to itself. */
  lemma RoundAtOnGrid(k: int, p: real)
    requires p >= 1.0
    ensures RoundAt(k as real / p, p) == k as real / p
  {
    var r := k as real / p;
    ScaleBack(k, p);
    assert r * p == k as real;
    RoundHalfEvenOfInt(k);
    RoundAtValue(r, p);
  }

  lemma RoundAtValue(x: real, p: real)
    requires p >= 1.0
    ensures RoundAt(x, p) == RoundHalfEven(x * p) as real / p
  {
  }

  /** Rounding never reverses the order of two numbers, so sorting by the
      rounded score agrees with sorting by the exact one up to new ties. */
  lemma RoundMonotone(x: real, y: real, ndigits: nat)
    requires x <= y
    ensures Round(x, ndigits) <= Round(y, ndigits)
  {
    RoundAtMonotone(x, y, Scale(ndigits));
  }

  /** Rounding an already rounded value changes nothing. */
  lemma RoundIdempotent(x: real, ndigits: nat)
    ensures Round(Round(x, ndigits), ndigits) == Round(x, ndigits)
  {
    RoundAtIdempotent(x, Scale(ndigits));
  }
}
