/** Interpolation over numeric ranges (Range+Animation.swift).
    Every variant maps a progress point to `from + (to - from) * point`, where
    `from`/`to` are `min`/`max`, or `max`/`min` when `reversed` is set.  The
    point is never clamped, so progress beyond 1 overshoots the `to` endpoint.
    Doubles and CGFloats are modelled as exact reals. */
module RangeAnimation {

  /** The unclamped walk from `from` towards `to`: it starts at `from`, arrives
      at `to` at point 1, stays between them for points in [0, 1] and carries
      on past `to` beyond 1. */
  function Lerp(from: real, to: real, point: real): (r: real)
    ensures point == 0.0 ==> r == from
    ensures point == 1.0 ==> r == to
    ensures 0.0 <= point <= 1.0 && from <= to ==> from <= r <= to
    ensures 0.0 <= point <= 1.0 && to <= from ==> to <= r <= from
    ensures point > 1.0 && from < to ==> r > to
    ensures point > 1.0 && to < from ==> r < to
  {
    var scaled := (to - from) * point;
    ScaleWithin(to - from, point, scaled);
    scaled + from
  }

  /** A fraction of a distance lies between zero and the distance; beyond 1 it passes it. */
  lemma ScaleWithin(distance: real, point: real, scaled: real)
    requires scaled == distance * point
    ensures point == 0.0 ==> scaled == 0.0
    ensures point == 1.0 ==> scaled == distance
    ensures 0.0 <= point <= 1.0 && distance >= 0.0 ==> 0.0 <= scaled <= distance
    ensures 0.0 <= point <= 1.0 && distance <= 0.0 ==> distance <= scaled <= 0.0
    ensures point > 1.0 && distance > 0.0 ==> scaled > distance
    ensures point > 1.0 && distance < 0.0 ==> scaled < distance
  {
  }

  /** `double(min:max:at:reversed:)`. */
  function Double(min: real, max: real, point: real, reversed: bool): (r: real)
    ensures point == 0.0 ==> r == (if reversed then max else min)
    ensures point == 1.0 ==> r == (if reversed then min else max)
    ensures min <= max && 0.0 <= point <= 1.0 ==> min <= r <= max
    ensures min < max && point > 1.0 ==> (if reversed then r < min else r > max)
  {
    var from := if reversed then max else min;
    var to := if reversed then min else max;
    Lerp(from, to, point)
  }

  /** Reversing the range is the same as running the unreversed range backwards. */
  lemma ReversedIsMirrored(min: real, max: real, point: real)
    ensures Double(min, max, point, true) == Double(min, max, 1.0 - point, false)
  {
  }

  /** Swift's `round`: to the nearest integer, halves away from zero. */
  function Round(x: real): (n: int)
    ensures x >= 0.0 ==> n as real - 0.5 <= x < n as real + 0.5
    ensures x < 0.0 ==> n as real - 0.5 < x <= n as real + 0.5
  {
    if x >= 0.0 then (x + 0.5).Floor else -((-x + 0.5).Floor)
  }

  /** Rounding leaves whole numbers alone. */
  lemma RoundWhole(k: int)
    ensures Round(k as real) == k
  {
  }

  /** `int(min:max:at:reversed:)`: the distance is scaled as a double, rounded,
      and added to `from`.  The result is the whole number nearest to the real
      interpolation, and it is exact at both endpoints. */
  function Int(min: int, max: int, point: real, reversed: bool): (r: int)
    ensures point == 0.0 ==> r == (if reversed then max else min)
    ensures point == 1.0 ==> r == (if reversed then min else max)
    ensures -0.5 <= r as real - Double(min as real, max as real, point, reversed) <= 0.5
    ensures var from := if reversed then max else min;
            var exact := Double(min as real, max as real, point, reversed);
            && (exact >= from as real ==> -0.5 < r as real - exact <= 0.5)
            && (exact < from as real ==> -0.5 <= r as real - exact < 0.5)
    ensures min <= max && 0.0 <= point <= 1.0 ==> min <= r <= max
  {
    var from := if reversed then max else min;
    var to := if reversed then min else max;
    var scaled := (to - from) as real * point;
    ScaleWithin((to - from) as real, point, scaled);
    assert Double(min as real, max as real, point, reversed) == scaled + from as real;
    RoundWhole(0);
    RoundWhole(to - from);
    Round(scaled) + from
  }

  /** `cgfloat(min:max:at:reversed:)`: the same interpolation over CGFloat. */
  function CGFloat(min: real, max: real, point: real, reversed: bool): (r: real)
    ensures r == Double(min, max, point, reversed)
  {
    var from := if reversed then max else min;
    var to := if reversed then min else max;
    (to - from) * point + from
  }

  /** Swift's `Range` (`a..<b`) and `ClosedRange` (`a...b`); both are only
      constructible with `lowerBound <= upperBound`. The interpolations below
      stay between `lowerBound` and `upperBound` inclusive; for a half-open
      `Range`, point 1 gives the `upperBound` the range excludes. */
  datatype Bounds<T> = HalfOpen(lowerBound: T, upperBound: T) | Closed(lowerBound: T, upperBound: T)

  /** `double(in:at:reversed:)` and `value(at:reversed:)` on Double ranges. */
  function DoubleIn(range: Bounds<real>, point: real, reversed: bool): (r: real)
    requires range.lowerBound <= range.upperBound
    ensures r == Double(range.lowerBound, range.upperBound, point, reversed)
    ensures 0.0 <= point <= 1.0 ==> range.lowerBound <= r <= range.upperBound
  {
    Double(range.lowerBound, range.upperBound, point, reversed)
  }

  /** `int(in:at:reversed:)` and `value(at:reversed:)` on Int ranges. */
  function IntIn(range: Bounds<int>, point: real, reversed: bool): (r: int)
    requires range.lowerBound <= range.upperBound
    ensures r == Int(range.lowerBound, range.upperBound, point, reversed)
    ensures 0.0 <= point <= 1.0 ==> range.lowerBound <= r <= range.upperBound
  {
    Int(range.lowerBound, range.upperBound, point, reversed)
  }

  /** `cgfloat(in:at:reversed:)` and `value(at:reversed:)` on CGFloat ranges. */
  function CGFloatIn(range: Bounds<real>, point: real, reversed: bool): (r: real)
    requires range.lowerBound <= range.upperBound
    ensures r == Double(range.lowerBound, range.upperBound, point, reversed)
    ensures 0.0 <= point <= 1.0 ==> range.lowerBound <= r <= range.upperBound
  {
    CGFloat(range.lowerBound, range.upperBound, point, reversed)
  }
}
