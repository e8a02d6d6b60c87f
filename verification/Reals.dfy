/** Arithmetic steps the solver needs one at a time. */
module Reals {

  function Abs(x: real): real {
    if x < 0.0 then -x else x
  }

  function Max(a: real, b: real): real {
    if a < b then b else a
  }

  lemma DivMonotone(a: real, b: real, d: real)
    requires a <= b && d > 0.0
    ensures a / d <= b / d
  {
    assert b / d - a / d == (b - a) / d;
  }

  lemma ScaleBounds(t: real, d: real, cap: real)
    requires t >= 0.0 && -cap <= d <= cap
    ensures -(t * cap) <= t * d <= t * cap
  {
    assert t * (cap - d) >= 0.0 && t * (cap + d) >= 0.0;
  }

  lemma ScaleMonotone(t: real, a: real, b: real)
    requires a <= b && t >= 0.0
    ensures t * a <= t * b
  {
    assert t * (b - a) >= 0.0;
  }

  lemma StrictScale(t: real, x: real, y: real)
    requires t >= 0.0 && x < y
    ensures t * x <= t * y && (t > 0.0 ==> t * x < t * y)
    ensures t == 0.0 ==> t * x == 0.0
  {
    if t > 0.0 {
      assert t * (y - x) > 0.0;
    }
  }

  lemma DivNegated(a: real, d: real)
    requires d > 0.0
    ensures (-a) / d == -(a / d)
  {
  }

  lemma Distribute(c: real, x: real, t: real, y: real)
    ensures c * (x + t * y) == c * x + t * (c * y)
  {
  }
}
