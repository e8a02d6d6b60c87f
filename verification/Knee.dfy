/** The knee of a frontier: the interior point farthest from the chord between the two ends. */
module Knee {
  import opened Reals
  import opened Extremes
  import opened Options

  const FLAT := 0.000000000001

  // ---- Normalised coordinates ----

  function Range(s: seq<real>): real
    requires s != []
  {
    MaxOf(s) - MinOf(s)
  }

  /** Mapped to [0, 1], or to zeros when the range is at most 1e-12. */
  function Norm(s: seq<real>): (r: seq<real>)
    requires s != []
    ensures |r| == |s|
  {
    if Range(s) > FLAT then seq(|s|, i requires 0 <= i < |s| => (s[i] - MinOf(s)) / Range(s))
    else seq(|s|, _ => 0.0)
  }

  // ---- Distance from the chord ----

  /** The signed numerator of the distance of (x, y) from the line through (x0, y0) and (x1, y1). */
  function Cross(x0: real, y0: real, x1: real, y1: real, x: real, y: real): real {
    (y1 - y0) * x - (x1 - x0) * y + x1 * y0 - y1 * x0
  }

  function Square(a: real): real {
    a * a
  }

  /** Squared length of the chord. */
  function ChordSquared(xs: seq<real>, ys: seq<real>): real
    requires |xs| == |ys| > 0
  {
    var n := |xs| - 1;
    Square(xs[n] - xs[0]) + Square(ys[n] - ys[0])
  }

  /** Numerators of the distances, zero at both ends. */
  function Numerators(xs: seq<real>, ys: seq<real>): (d: seq<real>)
    requires |xs| == |ys| > 0
    ensures |d| == |xs|
  {
    var n := |xs| - 1;
    seq(|xs|, i requires 0 <= i < |xs| =>
      if i == 0 || i == n then 0.0 else Abs(Cross(xs[0], ys[0], xs[n], ys[n], xs[i], ys[i])))
  }

  ghost predicate IsFirstMax(d: seq<real>, k: nat) {
    k < |d| && (forall i :: 0 <= i < |d| ==> d[i] <= d[k]) && (forall i :: 0 <= i < k ==> d[i] < d[k])
  }

  /** The chord is too short: its length is below 1e-12. */
  predicate Degenerate(xs: seq<real>, ys: seq<real>)
    requires |xs| == |ys| > 0
  {
    ChordSquared(xs, ys) < Square(FLAT)
  }

  /** A distance counts when it exceeds 1e-6: compared without the square root. */
  predicate Bends(numerator: real, chordSquared: real) {
    Square(numerator) > Square(0.000001) * chordSquared
  }

  /** What the search returns. */
  ghost predicate IsKnee(xs: seq<real>, ys: seq<real>, knee: Option<nat>)
    requires |xs| == |ys|
  {
    if |xs| < 3 then knee.None?
    else
      var u, v := Norm(xs), Norm(ys);
      var d, c := Numerators(u, v), ChordSquared(u, v);
      if Degenerate(u, v) then knee.None?
      else if knee.Some? then IsFirstMax(d, knee.value) && Bends(d[knee.value], c)
      else forall i :: 0 <= i < |d| ==> !Bends(d[i], c)
  }

  method FindKnee(xs: seq<real>, ys: seq<real>) returns (knee: Option<nat>)
    requires |xs| == |ys|
    ensures IsKnee(xs, ys, knee)
  {
    hide Square, Cross, Norm;
    if |xs| < 3 { return None; }
    var u, v, n := Norm(xs), Norm(ys), |xs|;
    var c := ChordSquared(u, v);
    if Degenerate(u, v) { return None; }
    var distances := new real[n](i requires 0 <= i < n => Abs(Cross(u[0], v[0], u[n - 1], v[n - 1], u[i], v[i])));
    distances[0] := 0.0;
    distances[n - 1] := 0.0;
    assert distances[..] == Numerators(u, v);
    var best := 0;
    for i := 1 to n
      invariant 0 <= best < i
      invariant forall j :: 0 <= j < i ==> distances[j] <= distances[best]
      invariant forall j :: 0 <= j < best ==> distances[j] < distances[best]
    {
      if distances[i] > distances[best] { best := i; }
    }
    if Bends(distances[best], c) {
      knee := Some(best);
    } else {
      knee := None;
      forall i | 0 <= i < n ensures !Bends(Numerators(u, v)[i], c) {
        assert 0.0 <= distances[i] <= distances[best];
        SquareMonotone(distances[i], distances[best]);
      }
    }
  }

  lemma SquareMonotone(a: real, b: real)
    requires 0.0 <= a <= b
    ensures Square(a) <= Square(b)
  {
    assert b * b - a * a == (b - a) * (b + a);
  }

  /** The answer is determined by the data. */
  lemma KneeIsUnique(xs: seq<real>, ys: seq<real>, a: Option<nat>, b: Option<nat>)
    requires |xs| == |ys|
    requires IsKnee(xs, ys, a) && IsKnee(xs, ys, b)
    ensures a == b
  {
    hide Bends, Norm, Numerators, ChordSquared;
    if |xs| >= 3 && !Degenerate(Norm(xs), Norm(ys)) {
      var d := Numerators(Norm(xs), Norm(ys));
      if a.Some? && b.Some? {
        assert d[a.value] == d[b.value];
      }
    }
  }

  /** A knee is strictly inside the list and at least as far from the chord as every point. */
  lemma KneeIsInterior(xs: seq<real>, ys: seq<real>, k: nat)
    requires |xs| == |ys| && IsKnee(xs, ys, Some(k))
    ensures 0 < k < |xs| - 1
  {
    var u, v := Norm(xs), Norm(ys);
    var d, c := Numerators(u, v), ChordSquared(u, v);
    assert d[0] == 0.0 && d[|xs| - 1] == 0.0;
    assert c >= 0.0;
    assert !Bends(0.0, c);
  }

  // ---- The numerator is the distance ----

  /** Squared distance of (x, y) from the point at parameter t on the chord. */
  function DistanceSquared(x0: real, y0: real, x1: real, y1: real, x: real, y: real, t: real): real {
    Square(x - x0 - t * (x1 - x0)) + Square(y - y0 - t * (y1 - y0))
  }

  /** numerator² = chord² · (least squared distance from the line): no point of the line is nearer,
      and some point is that near. */
  lemma NumeratorMeasuresDistance(x0: real, y0: real, x1: real, y1: real, x: real, y: real)
    ensures var c := Square(x1 - x0) + Square(y1 - y0);
      (forall t: real :: Square(Cross(x0, y0, x1, y1, x, y)) <= c * DistanceSquared(x0, y0, x1, y1, x, y, t)) &&
      (c > 0.0 ==> exists t: real :: Square(Cross(x0, y0, x1, y1, x, y)) == c * DistanceSquared(x0, y0, x1, y1, x, y, t))
  {
    hide Cross, DistanceSquared, Square, Along;
    forall t: real
      ensures Square(Cross(x0, y0, x1, y1, x, y))
           <= (Square(x1 - x0) + Square(y1 - y0)) * DistanceSquared(x0, y0, x1, y1, x, y, t)
    {
      DistanceAt(x0, y0, x1, y1, x, y, t);
    }
    if Square(x1 - x0) + Square(y1 - y0) > 0.0 {
      var t := FootOfPerpendicular(x1 - x0, y1 - y0, x - x0, y - y0);
      DistanceAt(x0, y0, x1, y1, x, y, t);
    }
  }

  /** The identity behind the distance formula, at parameter t. */
  lemma DistanceAt(x0: real, y0: real, x1: real, y1: real, x: real, y: real, t: real)
    ensures (Square(x1 - x0) + Square(y1 - y0)) * DistanceSquared(x0, y0, x1, y1, x, y, t)
         == Square(Cross(x0, y0, x1, y1, x, y)) + Square(Along(x1 - x0, y1 - y0, x - x0, y - y0, t))
    ensures Square(Along(x1 - x0, y1 - y0, x - x0, y - y0, t)) >= 0.0
  {
    hide Square, Cross, Along;
    var a, b, p, q := x1 - x0, y1 - y0, x - x0 - t * (x1 - x0), y - y0 - t * (y1 - y0);
    CrossOfOffset(x0, y0, x1, y1, x, y, t);
    Lagrange(a, b, p, q, Cross(x0, y0, x1, y1, x, y), Along(a, b, x - x0, y - y0, t));
    SquareNonNegative(Along(a, b, x - x0, y - y0, t));
  }

  lemma CrossOfOffset(x0: real, y0: real, x1: real, y1: real, x: real, y: real, t: real)
    ensures var a, b, p, q := x1 - x0, y1 - y0, x - x0 - t * (x1 - x0), y - y0 - t * (y1 - y0);
      Cross(x0, y0, x1, y1, x, y) == b * p - a * q && Along(a, b, x - x0, y - y0, t) == a * p + b * q
  {
  }

  /** The component along (a, b) of (p, q) - t·(a, b), times the length of (a, b). */
  function Along(a: real, b: real, p: real, q: real, t: real): real {
    a * (p - t * a) + b * (q - t * b)
  }

  lemma SquareNonNegative(a: real)
    ensures Square(a) >= 0.0
  {
  }

  lemma FootOfPerpendicular(a: real, b: real, p: real, q: real) returns (t: real)
    requires Square(a) + Square(b) > 0.0
    ensures Square(Along(a, b, p, q, t)) == 0.0
  {
    var c := a * a + b * b;
    t := (a * p + b * q) / c;
    assert t * c == a * p + b * q;
    assert a * (p - t * a) + b * (q - t * b) == (a * p + b * q) - t * c;
  }

  lemma Lagrange(a: real, b: real, p: real, q: real, u: real, v: real)
    requires u == b * p - a * q && v == a * p + b * q
    ensures (Square(a) + Square(b)) * (Square(p) + Square(q)) == Square(u) + Square(v)
  {
  }

  // ---- When there is a knee ----

  /** Every point of the line through the ends is farther than 1e-6 from point i. */
  ghost predicate OffTheChord(u: seq<real>, v: seq<real>, i: nat)
    requires |u| == |v| && i < |u|
  {
    var n := |u| - 1;
    forall t: real :: DistanceSquared(u[0], v[0], u[n], v[n], u[i], v[i], t) > 0.000000000001
  }

  lemma BendsOffTheChord(u: seq<real>, v: seq<real>, i: nat)
    requires |u| == |v| && 0 < i < |u| - 1 && ChordSquared(u, v) > 0.0
    ensures Bends(Numerators(u, v)[i], ChordSquared(u, v)) <==> OffTheChord(u, v, i)
  {
    hide Cross, DistanceSquared;
    var n, c := |u| - 1, ChordSquared(u, v);
    var x := Cross(u[0], v[0], u[n], v[n], u[i], v[i]);
    NumeratorMeasuresDistance(u[0], v[0], u[n], v[n], u[i], v[i]);
    SameSquare(x);
    BendsAsBound(Numerators(u, v)[i], c);
    assert Bends(Numerators(u, v)[i], c) <==> Square(x) > c * 0.000000000001;
    var t :| Square(x) == c * DistanceSquared(u[0], v[0], u[n], v[n], u[i], v[i], t);
    hide Square, Bends, Numerators, ChordSquared;
    if OffTheChord(u, v, i) {
      BendsWhenFar(c, Square(x), DistanceSquared(u[0], v[0], u[n], v[n], u[i], v[i], t));
    }
    if Bends(Numerators(u, v)[i], c) {
      forall t: real ensures DistanceSquared(u[0], v[0], u[n], v[n], u[i], v[i], t) > 0.000000000001 {
        FarWhenBends(c, Square(x), DistanceSquared(u[0], v[0], u[n], v[n], u[i], v[i], t));
      }
    }
  }

  lemma BendsWhenFar(c: real, x: real, d: real)
    requires c > 0.0 && x == c * d && d > 0.000000000001
    ensures x > c * 0.000000000001
  {
    StrictScale(c, 0.000000000001, d);
  }

  lemma FarWhenBends(c: real, x: real, d: real)
    requires c > 0.0 && x <= c * d && x > c * 0.000000000001
    ensures d > 0.000000000001
  {
    if d <= 0.000000000001 { ScaleMonotone(c, d, 0.000000000001); }
  }

  lemma SameSquare(x: real)
    ensures Square(Abs(x)) == Square(x)
  {
  }

  lemma BendsAsBound(numerator: real, c: real)
    ensures Bends(numerator, c) <==> Square(numerator) > c * 0.000000000001
  {
  }

  /** A knee is found exactly when, on the normalised axes, the ends are at least 1e-12 apart and some point between
      them lies farther than 1e-6 from the line through them. */
  lemma KneeExactlyWhen(xs: seq<real>, ys: seq<real>, knee: Option<nat>)
    requires |xs| == |ys| && |xs| >= 3 && IsKnee(xs, ys, knee)
    ensures var u, v := Norm(xs), Norm(ys);
      knee.Some? <==>
        && ChordSquared(u, v) >= 0.000000000000000000000001
        && exists i: nat :: 0 < i < |xs| - 1 && OffTheChord(u, v, i)
  {
    hide Norm, OffTheChord;
    var u, v := Norm(xs), Norm(ys);
    var d, c := Numerators(u, v), ChordSquared(u, v);
    assert Degenerate(u, v) <==> c < 0.000000000000000000000001;
    if !Degenerate(u, v) {
      forall i: nat | 0 < i < |xs| - 1 ensures Bends(d[i], c) <==> OffTheChord(u, v, i) {
        BendsOffTheChord(u, v, i);
      }
      if knee.Some? {
        KneeIsInterior(xs, ys, knee.value);
        assert OffTheChord(u, v, knee.value);
      }
    }
  }

  /** No point is farther from the line through the ends than the knee. */
  lemma KneeIsFarthest(xs: seq<real>, ys: seq<real>, k: nat, i: nat, t: real) returns (s: real)
    requires |xs| == |ys| && IsKnee(xs, ys, Some(k)) && 0 < i < |xs| - 1
    ensures k < |xs|
    ensures var u, v, n := Norm(xs), Norm(ys), |xs| - 1;
      DistanceSquared(u[0], v[0], u[n], v[n], u[i], v[i], s) <= DistanceSquared(u[0], v[0], u[n], v[n], u[k], v[k], t)
  {
    hide Cross, DistanceSquared, Norm;
    var u, v, n := Norm(xs), Norm(ys), |xs| - 1;
    var c, d := ChordSquared(u, v), Numerators(u, v);
    KneeIsInterior(xs, ys, k);
    NumeratorMeasuresDistance(u[0], v[0], u[n], v[n], u[i], v[i]);
    NumeratorMeasuresDistance(u[0], v[0], u[n], v[n], u[k], v[k]);
    var a, b := Cross(u[0], v[0], u[n], v[n], u[i], v[i]), Cross(u[0], v[0], u[n], v[n], u[k], v[k]);
    SameSquare(a);
    SameSquare(b);
    assert d[i] == Abs(a) && d[k] == Abs(b);
    SquareMonotone(Abs(a), Abs(b));
    s :| Square(a) == c * DistanceSquared(u[0], v[0], u[n], v[n], u[i], v[i], s);
    var p, q := DistanceSquared(u[0], v[0], u[n], v[n], u[i], v[i], s), DistanceSquared(u[0], v[0], u[n], v[n], u[k], v[k], t);
    assert c * p <= c * q;
    hide Square, Numerators, ChordSquared;
    if q < p { StrictScale(c, q, p); }
  }

  /** An axis on which every point lies at one of two ends. */
  lemma NormOfEnds(s: seq<real>, m: real, i: nat)
    requires m > 0.0 && 0.0 in s && m in s && i < |s| && forall j :: 0 <= j < |s| ==> s[j] == 0.0 || s[j] == m
    ensures Norm(s)[i] == if m > FLAT && s[i] == m then 1.0 else 0.0
  {
    ExtremesAre(s, 0.0, m);
    hide MinOf, MaxOf;
    WholeAndNothing(m);
    if m > FLAT { NormEntry(s, i); }
  }

  lemma WholeAndNothing(m: real)
    requires m > 0.0
    ensures m / m == 1.0 && 0.0 / m == 0.0
  {
  }

  /** A right-angled corner is a knee exactly when both axes span more than 1e-12. */
  lemma CornerIsKneeExactlyWhen(r: real, s: real, knee: Option<nat>)
    requires r > 0.0 && s > 0.0 && IsKnee([0.0, r, r], [0.0, 0.0, s], knee)
    ensures knee == if r > 0.000000000001 && s > 0.000000000001 then Some(1) else None
  {
    var xs, ys := [0.0, r, r], [0.0, 0.0, s];
    forall i: nat | i < 3
      ensures Norm(xs)[i] == if r > FLAT && xs[i] == r then 1.0 else 0.0
      ensures Norm(ys)[i] == if s > FLAT && ys[i] == s then 1.0 else 0.0
    {
      assert xs[0] == ys[0] == 0.0 && xs[1] == r && ys[2] == s;
      NormOfEnds(xs, r, i);
      NormOfEnds(ys, s, i);
    }
    hide Norm;
    var u, v := Norm(xs), Norm(ys);
    var x, y := if r > FLAT then 1.0 else 0.0, if s > FLAT then 1.0 else 0.0;
    assert u == [0.0, x, x] && v == [0.0, 0.0, y];
    CornerNumerators(x, y);
    hide Numerators, ChordSquared, Bends;
    var d, c := Numerators(u, v), ChordSquared(u, v);
    assert d[0] == d[2] == 0.0 && d[1] == x * y;
    assert c < Square(FLAT) <==> x == y == 0.0;
  }

  lemma CornerNumerators(x: real, y: real)
    requires (x == 0.0 || x == 1.0) && (y == 0.0 || y == 1.0)
    ensures var d, c := Numerators([0.0, x, x], [0.0, 0.0, y]), ChordSquared([0.0, x, x], [0.0, 0.0, y]);
      d == [0.0, x * y, 0.0] && c == x + y && (Bends(x * y, c) <==> x == y == 1.0) && !Bends(0.0, c)
  {
  }

  // ---- Rescaling the axes ----

  function Affine(scale: real, shift: real, x: real): real {
    scale * x + shift
  }

  /** t = scale·s + shift, entry by entry. */
  ghost predicate Rescaled(s: seq<real>, scale: real, shift: real, t: seq<real>) {
    |t| == |s| && forall i :: 0 <= i < |s| ==> t[i] == Affine(scale, shift, s[i])
  }

  /** Rescaling an axis leaves the normalised coordinates alone, or reflects them when the scale is negative. */
  lemma NormOfRescaled(s: seq<real>, scale: real, shift: real, t: seq<real>, i: nat)
    requires s != [] && Rescaled(s, scale, shift, t) && scale != 0.0
    requires Range(s) > FLAT && Range(t) > FLAT
    requires i < |s|
    ensures Norm(t)[i] == if scale > 0.0 then Norm(s)[i] else 1.0 - Norm(s)[i]
  {
    hide MinOf, MaxOf, Norm, Affine;
    RangeOfRescaled(s, scale, shift, t);
    NormEntry(s, i);
    NormEntry(t, i);
    RescaledRatio(scale, shift, s[i], MinOf(s), MaxOf(s));
  }

  lemma NormEntry(s: seq<real>, i: nat)
    requires i < |s| && Range(s) > FLAT
    ensures Norm(s)[i] == (s[i] - MinOf(s)) / (MaxOf(s) - MinOf(s))
  {
    hide MinOf, MaxOf;
  }

  /** (x - lo)/(hi - lo) after x, lo and hi are rescaled. */
  lemma RescaledRatio(scale: real, shift: real, x: real, lo: real, hi: real)
    requires scale != 0.0 && lo < hi
    ensures var x', lo', hi' := Affine(scale, shift, x), Affine(scale, shift, lo), Affine(scale, shift, hi);
      (scale > 0.0 ==> hi' > lo' && (x' - lo') / (hi' - lo') == (x - lo) / (hi - lo)) &&
      (scale < 0.0 ==> lo' > hi' && (x' - hi') / (lo' - hi') == 1.0 - (x - lo) / (hi - lo))
  {
    var x', lo', hi' := Affine(scale, shift, x), Affine(scale, shift, lo), Affine(scale, shift, hi);
    AffineDifference(scale, shift, x, lo);
    AffineDifference(scale, shift, hi, lo);
    AffineDifference(scale, shift, x, hi);
    hide Affine;
    ScaledRatio(scale, x - lo, hi - lo, x' - lo', x' - hi', hi' - lo');
  }

  /** a/r after a and r are scaled; r - a is scaled along. */
  lemma ScaledRatio(scale: real, a: real, r: real, a': real, b': real, r': real)
    requires scale != 0.0 && r > 0.0 && a' == scale * a && b' == -scale * (r - a) && r' == scale * r
    ensures scale > 0.0 ==> r' > 0.0 && a' / r' == a / r
    ensures scale < 0.0 ==> -r' > 0.0 && b' / -r' == 1.0 - a / r
  {
    if scale > 0.0 {
      QuotientEqual(scale, a, r, a', r');
    } else {
      QuotientEqual(-scale, r - a, r, b', -r');
      RatioComplement(a, r - a, r);
    }
  }

  lemma AffineDifference(scale: real, shift: real, x: real, y: real)
    ensures Affine(scale, shift, x) - Affine(scale, shift, y) == scale * (x - y) == -scale * (y - x)
  {
  }

  lemma QuotientEqual(scale: real, a: real, r: real, a': real, r': real)
    requires scale > 0.0 && r > 0.0 && a' == scale * a && r' == scale * r
    ensures r' > 0.0 && a' / r' == a / r
  {
  }

  lemma RatioComplement(a: real, b: real, r: real)
    requires r > 0.0 && a + b == r
    ensures b / r == 1.0 - a / r
  {
    assert a / r + b / r == (a + b) / r == 1.0;
  }

  lemma RangeOfRescaled(s: seq<real>, scale: real, shift: real, t: seq<real>)
    requires s != [] && Rescaled(s, scale, shift, t) && scale != 0.0
    ensures scale > 0.0 ==> MinOf(t) == Affine(scale, shift, MinOf(s)) && MaxOf(t) == Affine(scale, shift, MaxOf(s))
    ensures scale < 0.0 ==> MinOf(t) == Affine(scale, shift, MaxOf(s)) && MaxOf(t) == Affine(scale, shift, MinOf(s))
  {
    hide MinOf, MaxOf, Affine;
    ExtremesAttained(s);
    var lo, hi := Affine(scale, shift, MinOf(s)), Affine(scale, shift, MaxOf(s));
    ImageIn(s, scale, shift, t, MinOf(s));
    ImageIn(s, scale, shift, t, MaxOf(s));
    forall i | 0 <= i < |t|
      ensures if scale > 0.0 then lo <= t[i] <= hi else hi <= t[i] <= lo
    {
      ImageBetween(scale, shift, MinOf(s), s[i], MaxOf(s));
    }
    if scale > 0.0 { ExtremesAre(t, lo, hi); } else { ExtremesAre(t, hi, lo); }
  }

  lemma ImageIn(s: seq<real>, scale: real, shift: real, t: seq<real>, m: real)
    requires Rescaled(s, scale, shift, t) && m in s
    ensures Affine(scale, shift, m) in t
  {
    hide Affine;
    var i: nat :| i < |s| && s[i] == m;
    assert t[i] == Affine(scale, shift, m);
  }

  lemma ImageBetween(scale: real, shift: real, lo: real, x: real, hi: real)
    requires lo <= x <= hi
    ensures scale > 0.0 ==> Affine(scale, shift, lo) <= Affine(scale, shift, x) <= Affine(scale, shift, hi)
    ensures scale < 0.0 ==> Affine(scale, shift, hi) <= Affine(scale, shift, x) <= Affine(scale, shift, lo)
  {
    if scale > 0.0 {
      ScaleMonotone(scale, lo, x);
      ScaleMonotone(scale, x, hi);
    } else if scale < 0.0 {
      ScaleMonotone(-scale, lo, x);
      ScaleMonotone(-scale, x, hi);
    }
  }

  /** Either the same coordinates or their reflection in 1/2. */
  ghost predicate SameOrReflected(u: seq<real>, flipped: bool, v: seq<real>) {
    |v| == |u| && forall i :: 0 <= i < |u| ==> v[i] == if flipped then 1.0 - u[i] else u[i]
  }

  lemma CrossReflected(x0: real, y0: real, x1: real, y1: real, x: real, y: real)
    ensures Cross(1.0 - x0, y0, 1.0 - x1, y1, 1.0 - x, y) == -Cross(x0, y0, x1, y1, x, y)
    ensures Cross(x0, 1.0 - y0, x1, 1.0 - y1, x, 1.0 - y) == -Cross(x0, y0, x1, y1, x, y)
  {
  }

  lemma NumeratorsReflected(u: seq<real>, v: seq<real>, fx: bool, u': seq<real>, fy: bool, v': seq<real>)
    requires |u| == |v| > 0
    requires SameOrReflected(u, fx, u') && SameOrReflected(v, fy, v')
    ensures Numerators(u', v') == Numerators(u, v) && ChordSquared(u', v') == ChordSquared(u, v)
  {
    hide Cross;
    var n := |u| - 1;
    forall i | 0 <= i <= n ensures Numerators(u', v')[i] == Numerators(u, v)[i] {
      CrossReflected(u[0], v[0], u[n], v[n], u[i], v[i]);
      CrossReflected(u[0], v'[0], u[n], v'[n], u[i], v'[i]);
    }
  }

  lemma NormReflected(s: seq<real>, scale: real, shift: real, t: seq<real>)
    requires s != [] && Rescaled(s, scale, shift, t) && scale != 0.0
    requires Range(s) > FLAT && Range(t) > FLAT
    ensures SameOrReflected(Norm(s), scale < 0.0, Norm(t))
  {
    hide Norm;
    forall i | 0 <= i < |s| ensures Norm(t)[i] == if scale < 0.0 then 1.0 - Norm(s)[i] else Norm(s)[i] {
      NormOfRescaled(s, scale, shift, t, i);
    }
  }

  /** The knee does not depend on the units or the directions of the axes, as long as no range
      is at or below 1e-12 before or after. */
  lemma KneeIgnoresUnits(xs: seq<real>, ys: seq<real>, a: real, b: real, c: real, d: real,
                         xs': seq<real>, ys': seq<real>, knee: Option<nat>)
    requires |xs| == |ys| > 0 && a != 0.0 && c != 0.0
    requires Rescaled(xs, a, b, xs') && Rescaled(ys, c, d, ys')
    requires Range(xs) > FLAT && Range(ys) > FLAT && Range(xs') > FLAT && Range(ys') > FLAT
    ensures IsKnee(xs, ys, knee) <==> IsKnee(xs', ys', knee)
  {
    hide Norm, Numerators, ChordSquared, Range, SameOrReflected;
    NormReflected(xs, a, b, xs');
    NormReflected(ys, c, d, ys');
    NumeratorsReflected(Norm(xs), Norm(ys), a < 0.0, Norm(xs'), c < 0.0, Norm(ys'));
  }
}
