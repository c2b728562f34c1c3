/** Cubic-Bezier timing curves (Animator.swift, the `CAMediaTimingFunction`
    extension).  A curve is given by its four control points; `value(atTime:)`
    solves the x-cubic for the Bezier parameter with a capped Newton-Raphson
    loop seeded at the input, then evaluates the y-cubic there.  Arithmetic is
    exact; a Newton step that divides by a zero derivative leaves the reals and
    is reported as `NonFinite`. */
module TimingFunction {

  datatype Point = Point(x: real, y: real)

  /** The four control points of a timing curve, first to last. */
  datatype ControlPoints = ControlPoints(p0: Point, p1: Point, p2: Point, p3: Point)

  /** Power-basis coefficients of `a*t^3 + b*t^2 + c*t + d`. */
  datatype Cubic = Cubic(a: real, b: real, c: real, d: real)

  /** A Newton iterate: a real number, or what floating point makes of a
      division by zero (an infinity or NaN, which every later step keeps). */
  datatype Estimate = Finite(value: real) | NonFinite

  /** `cubicFunctionValue`: the constant term at 0, the sum of the
      coefficients at 1. */
  function CubicValue(k: Cubic, t: real): (v: real)
    ensures t == 0.0 ==> v == k.d
    ensures t == 1.0 ==> v == k.a + k.b + k.c + k.d
  {
    k.a * t * t * t + k.b * t * t + k.c * t + k.d
  }

  /** `cubicDerivativeValue`: the linear coefficient at 0, and 3a + 2b + c
      at 1; `DerivativeIsSlope` shows it is the derivative of `CubicValue`. */
  function CubicDerivative(k: Cubic, t: real): (v: real)
    ensures t == 0.0 ==> v == k.c
    ensures t == 1.0 ==> v == 3.0 * k.a + 2.0 * k.b + k.c
  {
    3.0 * k.a * t * t + 2.0 * k.b * t + k.c
  }

  /** The Bernstein form of a one-dimensional cubic Bezier with control values
      q0..q3: the reference the power-basis coefficients must agree with. */
  function Bezier(q0: real, q1: real, q2: real, q3: real, t: real): real {
    var s := 1.0 - t;
    s * s * s * q0 + 3.0 * s * s * t * q1 + 3.0 * s * t * t * q2 + t * t * t * q3
  }

  /** The power-basis coefficients of one coordinate of the curve
      (`value(atTime:)` builds them for x and for y).  The cubic starts at the
      first control value and ends at the last. */
  function Coefficients(q0: real, q1: real, q2: real, q3: real): (k: Cubic)
    ensures CubicValue(k, 0.0) == q0
    ensures CubicValue(k, 1.0) == q3
    ensures CubicDerivative(k, 0.0) == 3.0 * (q1 - q0)
    ensures CubicDerivative(k, 1.0) == 3.0 * (q3 - q2)
  {
    Cubic(-q0 + 3.0 * q1 - 3.0 * q2 + q3, 3.0 * q0 - 6.0 * q1 + 3.0 * q2, -3.0 * q0 + 3.0 * q1, q0)
  }

  /** The power basis and the Bernstein form are the same polynomial. */
  lemma CoefficientsAreBezier(q0: real, q1: real, q2: real, q3: real, t: real)
    ensures CubicValue(Coefficients(q0, q1, q2, q3), t) == Bezier(q0, q1, q2, q3, t)
  {
    var s := 1.0 - t;
    assert s * s * s == 1.0 - 3.0 * t + 3.0 * t * t - t * t * t;
    assert s * s * t == t - 2.0 * t * t + t * t * t;
    assert s * t * t == t * t - t * t * t;
  }

  /** `cubicDerivativeValue` is the derivative of `cubicFunctionValue`: the
      exact Taylor expansion of the cubic around `t` has it as linear term. */
  lemma DerivativeIsSlope(k: Cubic, t: real, h: real)
    ensures CubicValue(k, t + h)
         == CubicValue(k, t) + h * CubicDerivative(k, t) + h * h * (3.0 * k.a * t + k.b) + h * h * h * k.a
  {
    assert (t + h) * (t + h) == t * t + 2.0 * t * h + h * h;
    assert (t + h) * (t + h) * (t + h) == t * t * t + 3.0 * t * t * h + 3.0 * t * h * h + h * h * h;
  }

  /** The x-cubic whose root is the Bezier parameter for input `x`: the
      x-coefficients with `x` subtracted from the constant term. */
  function XCubic(cp: ControlPoints, x: real): (k: Cubic)
    ensures CubicValue(k, 0.0) == cp.p0.x - x
    ensures CubicValue(k, 1.0) == cp.p3.x - x
    ensures forall t :: CubicValue(k, t) == CubicValue(Coefficients(cp.p0.x, cp.p1.x, cp.p2.x, cp.p3.x), t) - x
  {
    var k := Coefficients(cp.p0.x, cp.p1.x, cp.p2.x, cp.p3.x);
    k.(d := k.d - x)
  }

  /** The y-cubic that maps the Bezier parameter to the eased value. */
  function YCubic(cp: ControlPoints): (k: Cubic)
    ensures CubicValue(k, 0.0) == cp.p0.y
    ensures CubicValue(k, 1.0) == cp.p3.y
  {
    Coefficients(cp.p0.y, cp.p1.y, cp.p2.y, cp.p3.y)
  }

  /** `kMaximumSteps`: the loop runs while the step counter is at most this. */
  const MaximumSteps: nat := 10

  /** `kApproximationTolerance`. */
  const Tolerance: real := 0.00000001

  /** One Newton-Raphson step `x - f(x) / f'(x)`. */
  function NewtonStep(k: Cubic, x: Estimate): (r: Estimate)
    ensures x.NonFinite? ==> r.NonFinite?
    ensures x.Finite? && CubicDerivative(k, x.value) != 0.0 ==>
              r.Finite? && (x.value - r.value) * CubicDerivative(k, x.value) == CubicValue(k, x.value)
    ensures x.Finite? && CubicDerivative(k, x.value) == 0.0 ==> r.NonFinite?
  {
    match x
    case NonFinite => NonFinite
    case Finite(v) =>
      var slope := CubicDerivative(k, v);
      if slope == 0.0 then NonFinite else Finite(v - CubicValue(k, v) / slope)
  }

  /** The reference sequence of iterates: the seed, then repeated steps. */
  function Iterate(k: Cubic, seed: real, n: nat): Estimate {
    if n == 0 then Finite(seed) else NewtonStep(k, Iterate(k, seed, n - 1))
  }

  /** The value `lastX` holds when the loop test runs for the `n`-th time:
      1 before the first step, then the previous iterate. */
  function Previous(k: Cubic, seed: real, n: nat): Estimate {
    if n == 0 then Finite(1.0) else Iterate(k, seed, n - 1)
  }

  /** `fabs(lastX - x) > kApproximationTolerance`; every comparison with a
      non-finite value is false. */
  predicate Apart(last: Estimate, x: Estimate) {
    last.Finite? && x.Finite? &&
    (if last.value >= x.value then last.value - x.value else x.value - last.value) > Tolerance
  }

  /** The loop test before step `n`. */
  predicate Continues(k: Cubic, seed: real, n: nat) {
    n <= MaximumSteps && Apart(Previous(k, seed, n), Iterate(k, seed, n))
  }

  /** The outcome of `rootOfCubic`: the final iterate and how many steps ran. */
  datatype Root = Root(t: Estimate, steps: nat)

  /** The `while` loop of `rootOfCubic`, one recursive call per iteration;
      `lastX`, `x` and `y` are the loop variables.  It stops at the first
      count whose test fails, which the counter cap makes at most 11. */
  function NewtonLoop(k: Cubic, seed: real, lastX: Estimate, x: Estimate, y: nat): (r: Root)
    requires y <= MaximumSteps + 1
    requires lastX == Previous(k, seed, y) && x == Iterate(k, seed, y)
    decreases MaximumSteps + 1 - y
    ensures y <= r.steps <= MaximumSteps + 1
    ensures r.t == Iterate(k, seed, r.steps)
    ensures forall j :: y <= j < r.steps ==> Continues(k, seed, j)
    ensures !Continues(k, seed, r.steps)
  {
    if y <= MaximumSteps && Apart(lastX, x) then
      NewtonLoop(k, seed, x, NewtonStep(k, x), y + 1)
    else
      Root(x, y)
  }

  /** `rootOfCubic(a, b, c, d, startPoint)`: Newton iterates from the start
      point until two successive iterates are within the tolerance or the
      counter passes its cap.  The result is the iterate at the first count
      where the loop test fails, so it is an iterate of the reference
      sequence, at most 11 steps in. */
  function RootOfCubic(k: Cubic, startPoint: real): (r: Root)
    ensures r.steps <= MaximumSteps + 1
    ensures r.t == Iterate(k, startPoint, r.steps)
    ensures forall j :: 0 <= j < r.steps ==> Continues(k, startPoint, j)
    ensures !Continues(k, startPoint, r.steps)
  {
    NewtonLoop(k, startPoint, Finite(1.0), Finite(startPoint), 0)
  }

  /** With the start point equal to `lastX`'s initial 1 the loop body never runs. */
  lemma RootFromOne(k: Cubic)
    ensures RootOfCubic(k, 1.0) == Root(Finite(1.0), 0)
  {
    assert !Continues(k, 1.0, 0);
  }

  /** Whenever the loop stops before its cap on a finite iterate, the last step
      moved by no more than the tolerance. */
  lemma RootStopsWhenClose(k: Cubic, startPoint: real)
    ensures var r := RootOfCubic(k, startPoint);
            r.steps <= MaximumSteps && r.t.Finite? && Previous(k, startPoint, r.steps).Finite? ==>
              -Tolerance <= Previous(k, startPoint, r.steps).value - r.t.value <= Tolerance
  {
  }

  /** `value(atTime:)`: the y-coordinate of the curve at the parameter the
      Newton loop finds for `x`, seeded at `x` itself. */
  function ValueAtTime(cp: ControlPoints, x: real): (y: Estimate)
    ensures x == 1.0 ==> y == Finite(cp.p3.y)
    ensures x == 0.0 && cp.p0.x == 0.0 && cp.p1.x != 0.0 ==> y == Finite(cp.p0.y)
  {
    var k := XCubic(cp, x);
    var root := RootOfCubic(k, x);
    RootFromOne(k);
    RootFromZero(cp);
    match root.t
    case NonFinite => NonFinite
    case Finite(t) => Finite(CubicValue(YCubic(cp), t))
  }

  /** A curve starting at the origin with a non-flat start: from 0 the first
      Newton step stays at 0, so the loop stops after one step. */
  lemma RootFromZero(cp: ControlPoints)
    ensures cp.p0.x == 0.0 && cp.p1.x != 0.0 ==> RootOfCubic(XCubic(cp, 0.0), 0.0) == Root(Finite(0.0), 1)
  {
    if cp.p0.x != 0.0 || cp.p1.x == 0.0 {
      return;
    }
    var k := XCubic(cp, 0.0);
    assert CubicDerivative(k, 0.0) == 3.0 * cp.p1.x;
    assert CubicValue(k, 0.0) == 0.0;
    assert Iterate(k, 0.0, 1) == Finite(0.0);
    assert Continues(k, 0.0, 0);
    assert !Continues(k, 0.0, 1);
  }
}
