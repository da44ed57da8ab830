/** Shared vocabulary of both ROI analyses: optional values, the two ways a
    scoring run can fail, and Python's built-in `max` over a list of numbers. */
module Common {

  datatype Option<+T> = None | Some(value: T)

  /** The exceptions a scoring run can raise on data the loader accepted. */
  datatype Error =
    | MaxOfEmpty     // `max()` applied to an empty batch (Python's ValueError)
    | ZeroDivision   // a batch maximum of 0 used as a divisor (ZeroDivisionError)

  datatype Result<+T> = Ok(value: T) | Err(error: Error)

  /** Python's `max(xs)`: it walks the list left to right and keeps the
      current maximum; on an empty list it raises, hence the precondition
      (callers test for emptiness and report `MaxOfEmpty`). */
  function MaxOf(s: seq<real>): (m: real)
    requires |s| > 0
    ensures m in s
    ensures forall i :: 0 <= i < |s| ==> s[i] <= m
  {
    if |s| == 1 then s[0]
    else
      var m := MaxOf(s[..|s| - 1]);
      assert m in s[..|s| - 1];
      if s[|s| - 1] > m then s[|s| - 1] else m
  }

  /** Any value that belongs to `s` and bounds it from above is `MaxOf(s)`. */
  lemma MaxOfUnique(s: seq<real>, m: real)
    requires m in s
    requires forall i :: 0 <= i < |s| ==> s[i] <= m
    ensures MaxOf(s) == m
  {
    var k :| 0 <= k < |s| && s[k] == m;
    assert s[k] <= MaxOf(s);
  }
}
