/** The arithmetic of bulletgraph.go: Go's integer division, the
    float-to-int conversion, `fraction`, the interval map `vmap` and the
    scale-tick loop. Floating point is modelled by exact reals. */
module Numeric {

  /** Go's `a / d` on ints for a positive divisor: the quotient is truncated
      toward zero, so the remainder takes the sign of `a`. */
  function Quot(a: int, d: int): (q: int)
    requires d > 0
    ensures a >= 0 ==> 0 <= a - q * d < d
    ensures a < 0 ==> -d < a - q * d <= 0
  {
    if a >= 0 then a / d else -((-a) / d)
  }

  /** Go's `int(n)` for a float in range: truncation toward zero. */
  function Trunc(n: real): (i: int)
    ensures n >= 0.0 ==> i as real <= n < i as real + 1.0
    ensures n < 0.0 ==> i as real - 1.0 < n <= i as real
  {
    if n >= 0.0 then n.Floor else -((-n).Floor)
  }

  /** `fraction(n)`: what is left of `n` once its integer part (truncated
      toward zero) is taken away. It is positive exactly for positive
      numbers that are not whole, so a negative step never selects the
      one-decimal tick format. */
  function Fraction(n: real): (f: real)
    ensures f > 0.0 <==> n > 0.0 && n != n.Floor as real
    ensures -1.0 < f < 1.0
  {
    n - Trunc(n) as real
  }

  /** A float64 result: a real number, or the infinity/NaN that a division
      by zero produces in Go. */
  datatype Mapped = Finite(v: real) | NonFinite

  /** `vmap`: the affine map taking `low1` to `low2` and `high1` to `high2`.
      Go does not guard the division; a degenerate source interval gives a
      non-finite float, and only then. */
  function Vmap(value: real, low1: real, high1: real, low2: real, high2: real): (r: Mapped)
    ensures r.NonFinite? <==> high1 == low1
    ensures high1 != low1 && value == low1 ==> r == Finite(low2)
    ensures high1 != low1 && value == high1 ==> r == Finite(high2)
  {
    if high1 == low1 then NonFinite
    else Finite(low2 + (high2 - low2) * (value - low1) / (high1 - low1))
  }

  /** Equal spacing in the source interval gives proportional spacing in the
      target interval. */
  lemma VmapAffine(a: real, b: real, low1: real, high1: real, low2: real, high2: real)
    requires high1 != low1
    ensures Vmap(a, low1, high1, low2, high2).v - Vmap(b, low1, high1, low2, high2).v
            == (high2 - low2) * (a - b) / (high1 - low1)
  {
    var k := (high2 - low2) / (high1 - low1);
    assert (high2 - low2) * (a - low1) / (high1 - low1) == k * (a - low1);
    assert (high2 - low2) * (b - low1) / (high1 - low1) == k * (b - low1);
    assert (high2 - low2) * (a - b) / (high1 - low1) == k * (a - b);
  }

  /** What `vmap` computes, without division: `m` is the image of `x`
      exactly when `m` is as far along the target interval as `x` is along
      the source interval. */
  lemma VmapCharacter(x: real, low1: real, high1: real, low2: real, high2: real, m: real)
    requires high1 != low1
    ensures Vmap(x, low1, high1, low2, high2) == Finite(m)
            <==> (m - low2) * (high1 - low1) == (high2 - low2) * (x - low1)
  {
    DivExact((high2 - low2) * (x - low1), high1 - low1, m - low2);
  }

  /** Mapping back with the intervals swapped returns the original value. */
  lemma VmapInverse(value: real, low1: real, high1: real, low2: real, high2: real)
    requires high1 != low1 && high2 != low2
    ensures Vmap(Vmap(value, low1, high1, low2, high2).v, low2, high2, low1, high1) == Finite(value)
  {
    var m := Vmap(value, low1, high1, low2, high2).v;
    VmapCharacter(value, low1, high1, low2, high2, m);
    VmapCharacter(m, low2, high2, low1, high1, value);
  }

  /** Division undoes multiplication. */
  lemma DivExact(x: real, y: real, z: real)
    requires y != 0.0
    ensures x == z * y ==> x / y == z
    ensures x / y * y == x
  {
  }

  /** On an increasing scale mapped onto a non-empty pixel range, a point of
      the scale lands inside the range, and order is kept. */
  lemma VmapWithin(a: real, b: real, low1: real, high1: real, low2: real, high2: real)
    requires low1 < high1 && low2 <= high2
    requires low1 <= a <= b <= high1
    ensures low2 <= Vmap(a, low1, high1, low2, high2).v
    ensures Vmap(a, low1, high1, low2, high2).v <= Vmap(b, low1, high1, low2, high2).v
    ensures Vmap(b, low1, high1, low2, high2).v <= high2
  {
    var d1, d2 := high1 - low1, high2 - low2;
    ScaleOrder(a - low1, b - low1, d2);
    ScaleOrder(b - low1, d1, d2);
    DivOrder(0.0, d2 * (a - low1), d1);
    DivOrder(d2 * (a - low1), d2 * (b - low1), d1);
    DivOrder(d2 * (b - low1), d2 * d1, d1);
    DivExact(d2 * d1, d1, d2);
    assert Vmap(a, low1, high1, low2, high2).v == low2 + d2 * (a - low1) / d1;
    assert Vmap(b, low1, high1, low2, high2).v == low2 + d2 * (b - low1) / d1;
  }

  /** Scaling by a non-negative factor keeps non-negative numbers in order. */
  lemma ScaleOrder(x: real, y: real, c: real)
    requires 0.0 <= x <= y && c >= 0.0
    ensures 0.0 <= c * x <= c * y
  {
  }

  /** Dividing by a positive number keeps order. */
  lemma DivOrder(x: real, y: real, d: real)
    requires x <= y && d > 0.0
    ensures x / d <= y / d
  {
    DivExact(x, d, x / d);
    DivExact(y, d, y / d);
    MulMonotone(x / d, y / d, d);
  }

  /** Steps left in `for sc := from; sc <= max; sc += incr` before the loop
      test fails. */
  function Remaining(from: real, max: real, incr: real): nat
    requires incr > 0.0
  {
    if from <= max then ((max - from) / incr).Floor + 1 else 0
  }

  lemma RemainingStep(from: real, max: real, incr: real)
    requires incr > 0.0 && from <= max
    ensures Remaining(from + incr, max, incr) == Remaining(from, max, incr) - 1
  {
    var q := (max - from) / incr;
    DivExact(max - from, incr, q);
    assert (q - 1.0) * incr == max - (from + incr);
    DivExact(max - (from + incr), incr, q - 1.0);
    assert (q - 1.0).Floor == q.Floor - 1;
  }

  /** Prepending `from` to the progression that starts one step later gives
      the progression that starts at `from`. */
  lemma Progression(from: real, max: real, incr: real, rest: seq<real>)
    requires forall k :: 0 <= k < |rest| ==> rest[k] == (from + incr) + k as real * incr && rest[k] <= max
    requires (from + incr) + |rest| as real * incr > max
    requires from <= max
    ensures forall k :: 0 <= k < |[from] + rest| ==> ([from] + rest)[k] == from + k as real * incr && ([from] + rest)[k] <= max
    ensures from + |[from] + rest| as real * incr > max
  {
    var r := [from] + rest;
    forall k | 0 <= k < |r|
      ensures r[k] == from + k as real * incr
    {
      if k > 0 {
        assert r[k] == rest[k - 1];
        assert (k - 1) as real * incr == k as real * incr - incr;
      }
    }
    assert |rest| as real * incr + incr == |r| as real * incr;
  }

  /** The values taken by the loop variable of
      `for sc := from; sc <= max; sc += incr`, computed exactly. The loop
      runs forever when it starts below `max` with a step that is not
      positive, so that is excluded. The result is exactly the arithmetic
      progression from `from` in steps of `incr` that stays at or below
      `max`. */
  function Ticks(from: real, max: real, incr: real): (r: seq<real>)
    requires from <= max ==> incr > 0.0
    ensures forall k :: 0 <= k < |r| ==> r[k] == from + k as real * incr && r[k] <= max
    ensures from + |r| as real * incr > max
    decreases if incr > 0.0 then Remaining(from, max, incr) else 0
  {
    if from <= max then
      RemainingStep(from, max, incr);
      var rest := Ticks(from + incr, max, incr);
      Progression(from, max, incr, rest);
      [from] + rest
    else []
  }

  /** The loop as written never ends when it starts at or below `max`
      with a step that is not positive: every value it reaches still passes
      the test `sc <= max`. */
  lemma TickGuardForever(min: real, max: real, incr: real, k: nat)
    requires min <= max && incr <= 0.0
    ensures min + k as real * incr <= max
  {
  }

  /** How many ticks the loop draws: one more than the number of whole steps
      that fit between `from` and `max`. */
  lemma TickCount(from: real, max: real, incr: real)
    requires from <= max && incr > 0.0
    ensures |Ticks(from, max, incr)| == ((max - from) / incr).Floor + 1
  {
    var r := Ticks(from, max, incr);
    var n := |r|;
    assert r[n - 1] == from + (n - 1) as real * incr;
    StepsBetween(max - from, incr, n);
  }

  /** When `n - 1` steps fit in `span` and `n` steps do not, the whole
      number of steps in `span` is `n - 1`. */
  lemma StepsBetween(span: real, incr: real, n: int)
    requires incr > 0.0
    requires (n - 1) as real * incr <= span < n as real * incr
    ensures (span / incr).Floor == n - 1
  {
    var q := span / incr;
    DivExact(span, incr, q);
    assert q * incr == span;
    MulMonotone((n - 1) as real, q, incr);
    MulMonotone(q, n as real, incr);
  }

  /** Multiplying by a positive number keeps order, both ways. */
  lemma MulMonotone(a: real, b: real, c: real)
    requires c > 0.0
    ensures a <= b <==> a * c <= b * c
    ensures a < b <==> a * c < b * c
  {
  }
}
