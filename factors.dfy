/** The factor formulas both analyses share: a value as a share of the batch
    maximum, the inverted payback share, and capped points per compatible
    entry. A normalised factor is divided by its batch maximum only; there
    is no minimum. */
module Factors {
  import opened Rounding

  /** `(x / max) * full`. */
  function ShareOfMax(x: real, max: real, full: real): (r: real)
    requires max != 0.0
    ensures max > 0.0 && full >= 0.0 && 0.0 <= x <= max ==> 0.0 <= r <= full
    ensures x == max ==> r == full
    ensures x == 0.0 ==> r == 0.0
  {
    if max > 0.0 && full >= 0.0 && 0.0 <= x <= max then
      DivMonotone(0.0, x, max);
      DivMonotone(x, max, max);
      MulMonotone(x / max, 1.0, full);
      (x / max) * full
    else
      (x / max) * full
  }

  /** `(1 - x / max) * 100`: the smaller the payback, the larger the score. */
  function InverseShare(x: real, max: real): (r: real)
    requires max != 0.0
    ensures max > 0.0 && 0.0 <= x <= max ==> 0.0 <= r <= 100.0
    ensures x == max ==> r == 0.0
    ensures x == 0.0 ==> r == 100.0
  {
    if max > 0.0 && 0.0 <= x <= max then
      DivMonotone(0.0, x, max);
      DivMonotone(x, max, max);
      (1.0 - x / max) * 100.0
    else
      (1.0 - x / max) * 100.0
  }

  /** A larger payback never gets a larger inverse share. */
  lemma InverseShareAntitone(x: real, y: real, max: real)
    requires max > 0.0 && x <= y
    ensures InverseShare(y, max) <= InverseShare(x, max)
  {
    DivMonotone(x, y, max);
  }

  /** A larger value never gets a smaller share of the maximum. */
  lemma ShareOfMaxMonotone(x: real, y: real, max: real, full: real)
    requires max > 0.0 && full >= 0.0 && x <= y
    ensures ShareOfMax(x, max, full) <= ShareOfMax(y, max, full)
  {
    var a, b := x / max, y / max;
    DivMonotone(x, y, max);
    MulMonotone(a, b, full);
    ShareOfMaxValue(x, max, full);
    ShareOfMaxValue(y, max, full);
    calc {
      ShareOfMax(x, max, full);
    ==
      a * full;
    <=
      b * full;
    ==
      ShareOfMax(y, max, full);
    }
  }

  /** Both branches of `ShareOfMax` compute the same product. */
  lemma ShareOfMaxValue(x: real, max: real, full: real)
    requires max != 0.0
    ensures ShareOfMax(x, max, full) == (x / max) * full
  {
  }

  /** `min(count * per_entry, 100)` on Python integers. */
  function CappedPoints(count: nat, perEntry: nat): (r: nat)
    ensures r <= 100
    ensures r == 100 <==> count * perEntry >= 100
    ensures r < 100 ==> r == count * perEntry
  {
    if count * perEntry <= 100 then count * perEntry else 100
  }

  /** More compatible entries never earn fewer points. */
  lemma CappedPointsMonotone(a: nat, b: nat, perEntry: nat)
    requires a <= b
    ensures CappedPoints(a, perEntry) <= CappedPoints(b, perEntry)
  {
    assert a * perEntry <= b * perEntry by {
      assert b * perEntry == a * perEntry + (b - a) * perEntry;
    }
  }

  /** `min(x, cap)` on Python floats. */
  function MinReal(x: real, cap: real): (r: real)
    ensures r <= x && r <= cap && (r == x || r == cap)
  {
    if x <= cap then x else cap
  }
}
