/** Python's numeric conversions on exact reals, and counting facts shared by the frame samplers. */
module Numbers {

  function Max(a: int, b: int): int { if a >= b then a else b }

  function Min(a: int, b: int): int { if a <= b then a else b }

  function MaxR(a: real, b: real): real { if a >= b then a else b }

  function MinR(a: real, b: real): real { if a <= b then a else b }

  /** Python's `int(x)` on a float: truncation toward zero. */
  function Trunc(x: real): (r: int)
    ensures 0.0 <= x ==> r as real <= x < r as real + 1.0
    ensures x < 0.0 ==> r as real - 1.0 < x <= r as real
  {
    if x >= 0.0 then x.Floor else -((-x).Floor)
  }

  /** Python 3's `round(x)` with no digits: nearest integer, ties to the even one. */
  function RoundHalfEven(x: real): (r: int)
    ensures -0.5 <= x - r as real <= 0.5
    ensures (x - r as real == 0.5 || r as real - x == 0.5) ==> r % 2 == 0
  {
    var f := x.Floor;
    var d := x - f as real;
    if d < 0.5 then f
    else if d > 0.5 then f + 1
    else if f % 2 == 0 then f
    else f + 1
  }

  /** Away from a tie, rounding gives the unique integer within one half. */
  lemma RoundNearest(x: real, n: int)
    requires -0.5 < x - n as real < 0.5
    ensures RoundHalfEven(x) == n
  {
    var r := RoundHalfEven(x);
    assert -1.0 < r as real - n as real < 1.0;
  }

  /** Number of multiples of `step` in [0, n): the frames a sampler with that step keeps. */
  function CeilDiv(n: nat, step: int): nat
    requires step >= 1
  {
    (n + step - 1) / step
  }

  lemma DivUnique(a: int, b: int, q: int)
    requires b >= 1 && q * b <= a < q * b + b
    ensures a / b == q
  {
    var d, r := a / b, a % b;
    assert a == d * b + r && 0 <= r < b;
    assert (d - q) * b == d * b - q * b;
    if d - q >= 1 {
      MulLe(1, d - q, b);
    } else if d - q <= -1 {
      MulLe(d - q, -1, b);
    }
  }

  /** One more frame adds one to the count of kept frames exactly when its index is a multiple. */
  lemma {:induction false} CeilDivStep(idx: nat, step: int)
    requires step >= 1
    ensures CeilDiv(idx + 1, step) == CeilDiv(idx, step) + (if idx % step == 0 then 1 else 0)
  {
    var q := idx / step;
    var r := idx % step;
    assert idx == q * step + r;
    assert (q + 1) * step == q * step + step;
    if r == 0 {
      DivUnique(idx + step - 1, step, q);
      DivUnique(idx + step, step, q + 1);
    } else {
      DivUnique(idx + step - 1, step, q + 1);
      DivUnique(idx + step, step, q + 1);
    }
  }

  /** The index of the k-th kept frame is below n exactly when k is below the count. */
  lemma {:induction false} KeptIndexBelow(n: nat, step: int, k: nat)
    requires step >= 1
    ensures k * step < n <==> k < CeilDiv(n, step)
  {
    var c := CeilDiv(n, step);
    var m := n + step - 1;
    assert c * step <= m < c * step + step;
    if k < c {
      assert k * step <= (c - 1) * step by { MulLe(k, c - 1, step); }
      assert (c - 1) * step == c * step - step;
    } else {
      assert k * step >= c * step by { MulLe(c, k, step); }
    }
  }

  /** A kept index is the number of kept indices before it times the step. */
  lemma KeptIndexIsCount(idx: nat, step: int)
    requires step >= 1 && idx % step == 0
    ensures idx == CeilDiv(idx, step) * step
  {
    DivUnique(idx + step - 1, step, idx / step);
  }

  lemma MulLe(a: int, b: int, m: nat)
    requires a <= b
    ensures a * m <= b * m
  {
  }

  /**
   * An index below `n` is `k * step` for some k < CeilDiv(n, step) exactly when it is a
   * multiple of `step`: a sampler keeping the k-th multiple keeps `idx % step == 0`.
   */
  lemma KeptIffMultiple(n: nat, step: int, idx: nat)
    requires step >= 1 && idx < n
    ensures (exists k :: 0 <= k < CeilDiv(n, step) && idx == k * step) <==> idx % step == 0
  {
    if idx % step == 0 {
      var k := idx / step;
      assert idx == k * step;
      KeptIndexBelow(n, step, k);
    }
    forall k | 0 <= k < CeilDiv(n, step) && idx == k * step
      ensures idx % step == 0
    {
      DivUnique(idx, step, k);
    }
  }
}
