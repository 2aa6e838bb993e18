/**
 The eased cycle both animated views run: a cycle restarts once more than a
 period has elapsed, the elapsed fraction is eased with smoothstep, and every
 animated quantity is interpolated linearly between a source and a target.
 */
module Easing {

  import opened Numerics

  /** Smoothstep `t * t * (3 - 2 * t)`. */
  function Smoothstep(t: real): real
  {
    t * t * (3.0 - 2.0 * t)
  }

  /** Linear interpolation `a + (b - a) * t`. */
  function Lerp(a: real, b: real, t: real): real
  {
    a + (b - a) * t
  }

  /** `x` lies on the closed segment between `a` and `b`, whichever is larger. */
  predicate Between(x: real, a: real, b: real)
  {
    (a <= x <= b) || (b <= x <= a)
  }

  /**
   The cycle start after the refresh check `time - start > period`: a refresh
   moves the start to `time`, otherwise it stays. With a clock that never runs
   backwards the elapsed time afterwards is within one period.
   */
  function Restart(time: int, start: int, period: nat): (s: int)
    ensures time - start > period ==> s == time
    ensures time - start <= period ==> s == start
    ensures time >= start ==> 0 <= time - s <= period
  {
    if time - start > period then time else start
  }

  /** The raw fraction of the cycle elapsed at `time`. */
  function Fraction(time: int, start: int, period: nat): real
    requires period > 0
  {
    (time - start) as real / period as real
  }

  /** Smoothstep maps the unit interval into itself. */
  lemma SmoothstepBounds(t: real)
    requires 0.0 <= t <= 1.0
    ensures 0.0 <= Smoothstep(t) <= 1.0
  {
    MulNonneg(t, t);
    MulNonneg(t * t, 3.0 - 2.0 * t);
    assert 1.0 - Smoothstep(t) == (1.0 - t) * (1.0 - t) * (1.0 + 2.0 * t);
    MulNonneg(1.0 - t, 1.0 - t);
    MulNonneg((1.0 - t) * (1.0 - t), 1.0 + 2.0 * t);
  }

  /** Smoothstep fixes both ends of the unit interval. */
  lemma SmoothstepEnds()
    ensures Smoothstep(0.0) == 0.0 && Smoothstep(1.0) == 1.0
  {
  }

  /** Smoothstep is non-decreasing on the unit interval. */
  lemma SmoothstepMonotone(x: real, y: real)
    requires 0.0 <= x <= y <= 1.0
    ensures Smoothstep(x) <= Smoothstep(y)
  {
    MulUnit(x, x);
    MulUnit(y, y);
    MulUnit(x, y);
    MulUnit(y, x);
    assert y * x == x * y;
    var g := 3.0 * (x + y) - 2.0 * (x * x) - 2.0 * (x * y) - 2.0 * (y * y);
    SumBound(x * x, y * y, x * y, x, y);
    assert Smoothstep(y) - Smoothstep(x) == (y - x) * g;
    MulNonneg(y - x, g);
  }

  /** The linear step of the monotonicity argument, with the products as opaque terms. */
  lemma SumBound(xx: real, yy: real, xy: real, x: real, y: real)
    requires xx <= x && yy <= y && xy <= x && xy <= y
    ensures 3.0 * (x + y) - 2.0 * xx - 2.0 * xy - 2.0 * yy >= 0.0
  {
  }

  /** Interpolation yields the source at 0 and the target at 1. */
  lemma LerpEnds(a: real, b: real)
    ensures Lerp(a, b, 0.0) == a && Lerp(a, b, 1.0) == b
  {
  }

  /** Interpolation with a weight in the unit interval stays between source and target. */
  lemma LerpBetween(a: real, b: real, t: real)
    requires 0.0 <= t <= 1.0
    ensures Between(Lerp(a, b, t), a, b)
  {
    if a <= b {
      LerpRising(a, b, t);
    } else {
      LerpFalling(a, b, t);
    }
  }

  lemma LerpRising(a: real, b: real, t: real)
    requires a <= b && 0.0 <= t <= 1.0
    ensures a <= Lerp(a, b, t) <= b
  {
    var d := b - a;
    MulUnit(d, t);
    OffsetWithin(a, d, d * t);
  }

  lemma LerpFalling(a: real, b: real, t: real)
    requires b < a && 0.0 <= t <= 1.0
    ensures b <= Lerp(a, b, t) <= a
  {
    LerpSymmetric(a, b, t);
    LerpRising(b, a, 1.0 - t);
  }

  /** Interpolating from `a` to `b` by `t` is interpolating from `b` to `a` by `1 - t`. */
  lemma LerpSymmetric(a: real, b: real, t: real)
    ensures Lerp(a, b, t) == Lerp(b, a, 1.0 - t)
  {
    assert (a - b) * (1.0 - t) == (a - b) - (a - b) * t;
    assert (b - a) * t == -((a - b) * t);
  }

  /** Adding an offset no larger than `d` keeps `x` within `d` above. */
  lemma OffsetWithin(x: real, d: real, e: real)
    requires 0.0 <= e <= d
    ensures x <= x + e <= x + d
  {
  }

  /**
   After the refresh check, with a monotone clock, both the raw fraction and the
   eased fraction of the cycle lie in the unit interval.
   */
  lemma CycleFractionInUnit(time: int, start: int, period: nat)
    requires period > 0
    requires time >= start
    ensures 0.0 <= Fraction(time, Restart(time, start, period), period) <= 1.0
    ensures 0.0 <= Smoothstep(Fraction(time, Restart(time, start, period), period)) <= 1.0
  {
    var s := Restart(time, start, period);
    var f := Fraction(time, s, period);
    assert 0 <= time - s <= period;
    assert (time - s) as real <= period as real;
    assert f <= 1.0;
    SmoothstepBounds(f);
  }

  /** At the cycle start the eased interpolation is at its source, one period later at its target. */
  lemma EasedEnds(a: real, b: real, start: int, period: nat)
    requires period > 0
    ensures Lerp(a, b, Smoothstep(Fraction(start, start, period))) == a
    ensures Lerp(a, b, Smoothstep(Fraction(start + period, start, period))) == b
  {
    assert Fraction(start, start, period) == 0.0;
    assert Fraction(start + period, start, period) == 1.0;
  }

  /** Within a cycle the eased interpolation stays between source and target. */
  lemma EasedBetween(a: real, b: real, time: int, start: int, period: nat)
    requires period > 0
    requires start <= time <= start + period
    ensures Between(Lerp(a, b, Smoothstep(Fraction(time, start, period))), a, b)
  {
    var f := Fraction(time, start, period);
    assert (time - start) as real <= period as real;
    assert 0.0 <= f <= 1.0;
    SmoothstepBounds(f);
    LerpBetween(a, b, Smoothstep(f));
  }
}
