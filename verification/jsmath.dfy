/** The few JavaScript `Math` functions the dashboard uses, on exact reals.
    Floating-point rounding is not modelled: `real` is the ideal value. */
module JsMath {

  /** `Math.floor`. */
  function Floor(x: real): (n: int)
    ensures n as real <= x < n as real + 1.0
  {
    x.Floor
  }

  /** `Math.round`: the nearest integer, halves going towards +infinity. */
  function Round(x: real): (n: int)
    ensures n as real - 0.5 <= x < n as real + 0.5
  {
    Floor(x + 0.5)
  }

  /** `Math.abs`. */
  function Abs(x: real): (r: real)
    ensures r >= 0.0
    ensures r == x || r == -x
  {
    if x < 0.0 then -x else x
  }

  function Min(a: real, b: real): (r: real)
    ensures r <= a && r <= b
    ensures r == a || r == b
  {
    if a <= b then a else b
  }

  function Max(a: real, b: real): (r: real)
    ensures r >= a && r >= b
    ensures r == a || r == b
  {
    if a >= b then a else b
  }

  /** The interval property pins `Round` down: exactly one integer lies
      within half a unit below and strictly less than half a unit above. */
  lemma RoundUnique(x: real, n: int)
    ensures Round(x) == n <==> n as real - 0.5 <= x < n as real + 0.5
  {
    var m := Round(x);
    if n as real - 0.5 <= x < n as real + 0.5 {
      assert -1 < m - n < 1;
    }
  }

  /** Halfway points round up, also for negative numbers (`Math.round(-2.5)` is -2). */
  lemma RoundHalfUp(n: int)
    ensures Round(n as real + 0.5) == n + 1
    ensures Round(n as real - 0.5) == n
    ensures Round(n as real) == n
  {
    RoundUnique(n as real + 0.5, n + 1);
    RoundUnique(n as real - 0.5, n);
    RoundUnique(n as real, n);
  }
}
