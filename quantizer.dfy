/** The velocity quantizer of the teleoperation node (`speedStepControl`):
    a velocity is scaled by 100, converted to a 16-bit integer (the C++
    float-to-integer conversion truncates toward zero) and scaled back by
    1/100, so every published velocity is a multiple of 0.01. */
module Quantizer {

  const Int16Min: int := -32768
  const Int16Max: int := 32767

  /** Scale between a velocity and its integer intermediate. */
  const Scale: real := 100.0

  function Abs(x: real): real {
    if x < 0.0 then -x else x
  }

  /** C++ conversion of a floating value to an integer: truncation toward zero. */
  function TruncateTowardZero(x: real): (n: int)
    ensures 0.0 <= x ==> 0 <= n && n as real <= x < n as real + 1.0
    ensures x < 0.0 ==> n <= 0 && n as real - 1.0 < x <= n as real
  {
    if x >= 0.0 then x.Floor else -((-x).Floor)
  }

  /** The conversion to `int16_t` is defined only when the truncated value
      is representable; callers must keep the velocity in that range. */
  predicate FitsInt16(v: real) {
    Int16Min <= TruncateTowardZero(v * Scale) <= Int16Max
  }

  /** True when `q` is a whole number of hundredths. */
  predicate IsCentiMultiple(q: real) {
    (q * Scale).Floor as real == q * Scale
  }

  /** `speedStepControl`: truncation toward zero to a resolution of 0.01. */
  function SpeedStepControl(v: real): (r: real)
    requires FitsInt16(v)
    ensures IsCentiMultiple(r)
    ensures 0.0 <= v ==> 0.0 <= r <= v
    ensures v < 0.0 ==> v <= r <= 0.0
    ensures Abs(r) <= Abs(v) && Abs(v - r) < 0.01
  {
    TruncateTowardZero(v * Scale) as real / Scale
  }

  /** The result is the only whole number of hundredths that lies between
      zero and `v` and within 0.01 of `v`: truncation, not rounding. */
  lemma {:induction false} SpeedStepControlUnique(v: real, q: real)
    requires FitsInt16(v) && IsCentiMultiple(q)
    requires 0.0 <= v ==> 0.0 <= q <= v
    requires v < 0.0 ==> v <= q <= 0.0
    requires Abs(v - q) < 0.01
    ensures SpeedStepControl(v) == q
  {
    var k := (q * Scale).Floor;
    var n := TruncateTowardZero(v * Scale);
    assert q == k as real / Scale;
    if 0.0 <= v {
      assert 0 <= k && k as real <= v * Scale < k as real + 1.0;
    } else {
      assert k <= 0 && k as real - 1.0 < v * Scale <= k as real;
    }
    assert n == k;
  }

  /** The integer intermediate is representable exactly for velocities in
      the half-open band (-327.69, 327.68). */
  lemma {:induction false} FitsInt16Range(v: real)
    ensures FitsInt16(v) <==> -327.69 < v < 327.68
  {
    var n := TruncateTowardZero(v * Scale);
    if 0.0 <= v {
      assert n as real <= v * Scale < n as real + 1.0;
    } else {
      assert n as real - 1.0 < v * Scale <= n as real;
    }
  }

  /** Every whole number of hundredths in the 16-bit range is left as it is. */
  lemma {:induction false} CentiMultiplesAreFixed(k: int)
    requires Int16Min <= k <= Int16Max
    ensures FitsInt16(k as real / Scale)
    ensures SpeedStepControl(k as real / Scale) == k as real / Scale
  {
    var q := k as real / Scale;
    assert q * Scale == k as real;
    assert TruncateTowardZero(q * Scale) == k;
    SpeedStepControlUnique(q, q);
  }

  /** Quantizing twice is quantizing once. */
  lemma {:induction false} SpeedStepControlIdempotent(v: real)
    requires FitsInt16(v)
    ensures FitsInt16(SpeedStepControl(v))
    ensures SpeedStepControl(SpeedStepControl(v)) == SpeedStepControl(v)
  {
    var n := TruncateTowardZero(v * Scale);
    assert SpeedStepControl(v) == n as real / Scale;
    CentiMultiplesAreFixed(n);
  }

  /** Two sample values: the fraction below 0.01 is dropped toward zero. */
  lemma SpeedStepControlSamples()
    ensures FitsInt16(0.1234) && SpeedStepControl(0.1234) == 0.12
    ensures FitsInt16(-0.1999) && SpeedStepControl(-0.1999) == -0.19
  {
    assert TruncateTowardZero(0.1234 * Scale) == 12;
    assert TruncateTowardZero(-0.1999 * Scale) == -19;
  }
}
