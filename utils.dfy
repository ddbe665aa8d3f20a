/** `clamp` from src/utils.ts, over JavaScript numbers taken as reals (NaN and infinities excluded). */
module Utils {

  function Min(a: real, b: real): real { if a <= b then a else b }
  function Max(a: real, b: real): real { if a >= b then a else b }

  /** The JavaScript `Math.floor` of a real, as a real. */
  function Floor(x: real): (r: real)
    ensures r <= x < r + 1.0
    ensures r == r.Floor as real
  {
    x.Floor as real
  }

  /**
   * `min(max(value, minValue), maxValue)`, floored when `floorValue` is set.
   * An inverted range (`minValue > maxValue`) yields `maxValue`.
   */
  function Clamp(value: real, minValue: real, maxValue: real, floorValue: bool := false): (r: real)
    ensures !floorValue && minValue <= maxValue ==> minValue <= r <= maxValue
    ensures !floorValue && minValue <= value <= maxValue ==> r == value
    ensures minValue > maxValue ==> r == (if floorValue then Floor(maxValue) else maxValue)
    ensures floorValue ==> r == r.Floor as real && r <= Clamp(value, minValue, maxValue) < r + 1.0
    ensures floorValue && minValue <= maxValue ==> minValue - 1.0 < r <= maxValue
  {
    var clamped := Min(Max(value, minValue), maxValue);
    if floorValue then Floor(clamped) else clamped
  }

  /** With a proper range, clamping twice is clamping once, floored or not. */
  lemma ClampIdempotent(value: real, minValue: real, maxValue: real, floorValue: bool)
    requires minValue <= maxValue
    ensures Clamp(Clamp(value, minValue, maxValue, floorValue), minValue, maxValue, floorValue)
         == Clamp(value, minValue, maxValue, floorValue)
  {
    if floorValue {
      var c := Clamp(value, minValue, maxValue);
      var f := Floor(c);
      if f < minValue {
        // floor(c) < minValue <= c, so minValue has the same floor as c
        assert Floor(minValue) == f by { FloorBetween(f, minValue, c); }
      }
    }
  }

  /** The floor of `x` is the one integer `n` with `n <= x < n + 1`. */
  lemma FloorUnique(x: real, n: int)
    requires n as real <= x < n as real + 1.0
    ensures x.Floor == n
  {
    var k := x.Floor;
    assert k as real <= x < k as real + 1.0;
  }

  /** Floor is monotone: a real between `f` and a value whose floor is `f` also has floor `f`. */
  lemma FloorBetween(f: real, x: real, c: real)
    requires f == Floor(c) && f <= x <= c
    ensures Floor(x) == f
  {
    FloorUnique(x, c.Floor);
  }

  /** With `floorValue` set and an integral `minValue`, the result lies within the range. */
  lemma ClampFlooredInRange(value: real, minValue: real, maxValue: real)
    requires minValue <= maxValue && minValue == Floor(minValue)
    ensures minValue <= Clamp(value, minValue, maxValue, true) <= maxValue
  {
    var c := Clamp(value, minValue, maxValue);
    var m := minValue.Floor;
    var k := c.Floor;
    assert minValue <= c <= maxValue;
    assert Clamp(value, minValue, maxValue, true) == k as real;
    assert m as real == minValue;
    assert (k + 1) as real > m as real;
    assert k >= m;
  }
}
