/**
 Shared numeric vocabulary of the three views: points over the reals, the value
 of `Math.PI`, and the transcendental library functions, which the model takes
 as parameters instead of defining.
 */
module Numerics {

  /** An `android.graphics.PointF`, or any (x, y) pair of floats, over the reals. */
  datatype Vec2 = Vec2(x: real, y: real)

  /** The double constant `java.lang.Math.PI`. */
  const Pi: real := 3.141592653589793

  /**
   The library functions the views call (`FloatMath.sqrt`, `Math.acos`, and the
   sine and cosine inside `FloatMath` and `android.graphics.Matrix`). The model
   knows nothing about them; each lemma that needs a fact about them asks for it.
   `nonFinite` stands for the Infinity or NaN a float division by zero produces.
   */
  datatype Math = Math(
    sqrt: real -> real,
    acos: real -> real,
    sin: real -> real,
    cos: real -> real,
    nonFinite: real)

  /** Float division `a / b`; a zero divisor yields the unspecified non-finite value. */
  function Quotient(a: real, b: real, m: Math): real
  {
    if b == 0.0 then m.nonFinite else a / b
  }

  /** A `Math.random()` value: in [0, 1). */
  predicate UnitDraw(r: real)
  {
    0.0 <= r < 1.0
  }

  /** The Euclidean length of (dx, dy) as the views compute it. */
  function Length(dx: real, dy: real, m: Math): real
  {
    m.sqrt(dx * dx + dy * dy)
  }

  /** A product of non-negative reals is non-negative. */
  lemma MulNonneg(a: real, b: real)
    requires a >= 0.0 && b >= 0.0
    ensures a * b >= 0.0
  {
  }

  /** Scaling a non-negative real by a weight in the unit interval does not enlarge it. */
  lemma MulUnit(a: real, t: real)
    requires a >= 0.0 && 0.0 <= t <= 1.0
    ensures 0.0 <= a * t <= a
  {
    MulNonneg(a, t);
    assert a - a * t == a * (1.0 - t);
    MulNonneg(a, 1.0 - t);
  }
}
