/** The PID controller of CIP04 in exact arithmetic. */
module Pid {
  import opened Types
  import D = Difficulty

  const PROPORTIONAL := -0.005125
  const DERIVATIVE := -0.0075
  const SPACING := D.SPACING as real

  /** The integral gain, by the size of the error. */
  function Integral(error: int): real {
    if -450 <= error <= 450 then -0.0225 else -0.0525
  }

  /** The controller output for an average block time. */
  function Controller(avg: int): real
    requires avg != 0
  {
    var error := avg - D.SPACING;
    var e, a := error as real, avg as real;
    var i := Integral(error) * e * (SPACING / a);
    PROPORTIONAL * e + i + DERIVATIVE * (e / a) * i
  }

  /** Conversion to a 64-bit integer: toward zero, and saturating. */
  function ToI64(x: real): int {
    var t := if x >= 0.0 then x.Floor else -((-x).Floor);
    if t > MAX_I64 then MAX_I64 else if t < MIN_I64 then MIN_I64 else t
  }

  /** The scaled output. With an average of zero the controller is infinite, and above. */
  function Output(avg: int): int {
    if avg == 0 then MAX_I64 else ToI64(65536.0 * Controller(avg))
  }

  /** A parabola stays above its vertex. */
  lemma Parabola(r: real)
    ensures 0.0075 * (r * r) - r >= -34.0
  {
    var d := r - 66.0;
    assert d * d == r * r - 132.0 * r + 4356.0;
    assert d * d >= 0.0;
    var c := r - 67.0;
    assert c * c == r * r - 134.0 * r + 4489.0;
    assert c * c >= 0.0;
  }

  /** Integral and derivative terms, as a parabola in the ratio of error and average. */
  lemma Ratio(g: real, e: real, a: real)
    requires a != 0.0
    ensures var r, i := e / a, g * e * (SPACING / a);
            i == g * SPACING * r && DERIVATIVE * r * i == g * SPACING * DERIVATIVE * (r * r)
  {
    var r := e / a;
    assert e == r * a;
    assert e * (SPACING / a) == r * SPACING;
    var i := g * e * (SPACING / a);
    assert i == g * (e * (SPACING / a));
    assert DERIVATIVE * r * i == DERIVATIVE * r * (g * SPACING * r);
  }

  /** For every average of 32-bit timestamps the scaled output is far above -2^43. */
  lemma {:induction false} OutputBounded(avg: int)
    requires -0x2000_0000 <= avg <= 0x2000_0000
    ensures -0x800_0000_0000 <= Output(avg)
  {
    if avg != 0 {
      var error := avg - D.SPACING;
      var e, a, g := error as real, avg as real, Integral(error);
      var r := e / a;
      Ratio(g, e, a);
      Parabola(r);
      var w := -g * SPACING;
      var p := 0.0075 * (r * r) - r;
      assert 0.0 < w <= 31.5;
      Scaled(w, p);
      assert Controller(avg) == PROPORTIONAL * e + w * p by {
        Combine(g, e, a);
      }
    }
  }

  lemma Scaled(w: real, p: real)
    requires 0.0 < w <= 31.5 && p >= -34.0
    ensures w * p >= -1071.0
  {
    if p < 0.0 {
      assert w * (-p) <= 31.5 * (-p);
    }
  }

  lemma Combine(g: real, e: real, a: real)
    requires a != 0.0
    ensures var r, i := e / a, g * e * (SPACING / a);
            i + DERIVATIVE * r * i == (-g * SPACING) * (0.0075 * (r * r) - r)
  {
    Ratio(g, e, a);
    var r := e / a;
    var w := -g * SPACING;
    assert w * (0.0075 * (r * r) - r) == w * (0.0075 * (r * r)) - w * r;
    assert w * (0.0075 * (r * r)) == w * 0.0075 * (r * r);
  }
}
