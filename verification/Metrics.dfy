/** Risk metrics over a wealth path or a list of returns. */
module Drawdown {
  import opened Reals
  import opened Extremes

  ghost predicate Positive(w: seq<real>) {
    forall i :: 0 <= i < |w| ==> w[i] > 0.0
  }

  /** The running maximum of a wealth path. */
  function RunningMax(w: seq<real>): (m: seq<real>)
    ensures |m| == |w|
  {
    if w == [] then []
    else
      var rest := RunningMax(w[..|w| - 1]);
      rest + [if rest != [] && rest[|rest| - 1] > w[|w| - 1] then rest[|rest| - 1] else w[|w| - 1]]
  }

  lemma {:induction false} RunningMaxMeaning(w: seq<real>, j: nat) returns (peak: nat)
    requires j < |w|
    ensures peak <= j && RunningMax(w)[j] == w[peak]
    ensures forall i :: 0 <= i <= j ==> w[i] <= RunningMax(w)[j]
  {
    var n := |w| - 1;
    if j < n {
      peak := RunningMaxMeaning(w[..n], j);
    } else if n == 0 {
      peak := 0;
    } else {
      peak := RunningMaxMeaning(w[..n], n - 1);
      if RunningMax(w[..n])[n - 1] <= w[n] { peak := n; }
    }
  }

  /** The fall from peak to value, as a fraction of the peak. */
  function Fall(peak: real, value: real): real
    requires peak > 0.0
  {
    (value - peak) / peak
  }

  function Falls(w: seq<real>): (d: seq<real>)
    requires Positive(w)
    ensures |d| == |w|
  {
    var m := RunningMax(w);
    seq(|w|, j requires 0 <= j < |w| =>
      assert m[j] > 0.0 by { var peak := RunningMaxMeaning(w, j); } Fall(m[j], w[j]))
  }

  /** The deepest fall below the running maximum; zero for an empty path. */
  function MaxDrawdown(w: seq<real>): real
    requires Positive(w)
  {
    if w == [] then 0.0 else MinOf(Falls(w))
  }

  lemma FallMonotone(p: real, q: real, v: real)
    requires 0.0 < p <= q && v > 0.0
    ensures Fall(q, v) <= Fall(p, v)
    ensures -1.0 < Fall(q, v)
    ensures v <= q ==> Fall(q, v) <= 0.0
    ensures Fall(q, v) == 0.0 ==> v == q
  {
    FallFactor(p, v);
    FallFactor(q, v);
    hide Fall;
    FactorOrder(Fall(p, v) + 1.0, p, Fall(q, v) + 1.0, q, v);
  }

  /** What is left of the peak after a fall. */
  lemma FallFactor(p: real, v: real)
    requires p > 0.0
    ensures (Fall(p, v) + 1.0) * p == v
  {
    assert Fall(p, v) * p == v - p;
  }

  lemma FactorOrder(a: real, p: real, b: real, q: real, v: real)
    requires 0.0 < p <= q && v > 0.0 && a * p == v && b * q == v
    ensures 0.0 < b <= a
    ensures v <= q ==> b <= 1.0
    ensures b == 1.0 ==> v == q
  {
    if b <= 0.0 { ScaleMonotone(q, b, 0.0); }
    if a <= 0.0 { ScaleMonotone(p, a, 0.0); }
    if b > a {
      StrictScale(q, a, b);
      ScaleMonotone(a, p, q);
    }
    if b > 1.0 { StrictScale(q, 1.0, b); }
  }

  /** The one-pass value is the worst fall over all pairs of an earlier and a later day. */
  lemma DrawdownIsWorstPair(w: seq<real>)
    requires Positive(w) && w != []
    ensures forall i, j :: 0 <= i <= j < |w| ==> MaxDrawdown(w) <= Fall(w[i], w[j])
    ensures exists i, j :: 0 <= i <= j < |w| && MaxDrawdown(w) == Fall(w[i], w[j])
  {
    hide Fall, MinOf, RunningMax;
    var d, m := Falls(w), RunningMax(w);
    ExtremesAttained(d);
    forall i: nat, j: nat | i <= j < |w| ensures MaxDrawdown(w) <= Fall(w[i], w[j]) {
      var peak := RunningMaxMeaning(w, j);
      FallMonotone(w[i], m[j], w[j]);
      assert d[j] == Fall(m[j], w[j]);
    }
    var j: nat :| j < |d| && d[j] == MinOf(d);
    var peak := RunningMaxMeaning(w, j);
    assert d[j] == Fall(w[peak], w[j]);
  }

  /** It lies in (-1, 0] and is zero exactly when wealth never falls. */
  lemma DrawdownRange(w: seq<real>)
    requires Positive(w)
    ensures -1.0 < MaxDrawdown(w) <= 0.0
    ensures MaxDrawdown(w) == 0.0 <==> forall i, j :: 0 <= i <= j < |w| ==> w[i] <= w[j]
  {
    hide Fall, MaxDrawdown;
    if w == [] {
      EmptyDrawdown();
    } else {
      DrawdownIsWorstPair(w);
      var i, j :| 0 <= i <= j < |w| && MaxDrawdown(w) == Fall(w[i], w[j]);
      FallMonotone(w[i], w[i], w[j]);
      FallMonotone(w[0], w[0], w[0]);
      forall a, b | 0 <= a <= b < |w| ensures MaxDrawdown(w) == 0.0 ==> w[a] <= w[b] {
        FallSign(w[a], w[b]);
      }
      FallSign(w[i], w[j]);
    }
  }

  lemma EmptyDrawdown()
    ensures MaxDrawdown([]) == 0.0
  {
  }

  lemma FallSign(p: real, v: real)
    requires p > 0.0
    ensures Fall(p, v) >= 0.0 <==> p <= v
  {
    if p <= v { DivMonotone(0.0, v - p, p); }
    if p > v { assert (v - p) / p < 0.0; }
  }

  /** The path starts after the first return, so the initial capital 1 is no peak: counting it would also count
      the falls below it. */
  lemma StartingCapitalIsNotAPeak(w: seq<real>)
    requires Positive(w) && w != []
    ensures Positive([1.0] + w)
    ensures MaxDrawdown([1.0] + w) == if MaxDrawdown(w) <= MinOf(w) - 1.0 then MaxDrawdown(w) else MinOf(w) - 1.0
  {
    WithCapitalAtMost(w);
    WithCapitalAttained(w);
  }

  /** Counting it changes nothing exactly when some pair of days falls as deep as the lowest day lies below it;
      in particular when the first day gains. */
  lemma StartingCapitalIsIdleExactlyWhen(w: seq<real>)
    requires Positive(w) && w != [] && Positive([1.0] + w)
    ensures MaxDrawdown([1.0] + w) == MaxDrawdown(w)
       <==> exists i, j :: 0 <= i <= j < |w| && Fall(w[i], w[j]) <= MinOf(w) - 1.0
    ensures w[0] >= 1.0 ==> MaxDrawdown([1.0] + w) == MaxDrawdown(w)
  {
    hide MaxDrawdown, MinOf, Fall;
    StartingCapitalIsNotAPeak(w);
    DrawdownIsWorstPair(w);
    if w[0] >= 1.0 {
      var k := LowestDay(w);
    }
  }

  /** A single day that loses half: no drawdown at all, where counting the initial capital finds one of a half. */
  lemma HalvedOnTheFirstDay()
    ensures MaxDrawdown([0.5]) == 0.0 && MaxDrawdown([1.0] + [0.5]) == -0.5
  {
    var w := [0.5];
    assert w[0] == 0.5;
    StartingCapitalIsNotAPeak(w);
    DrawdownRange(w);
  }

  lemma LowestDay(w: seq<real>) returns (k: nat)
    requires Positive(w) && w != [] && w[0] >= 1.0
    ensures k < |w| && Fall(w[0], w[k]) <= MinOf(w) - 1.0
  {
    hide MinOf, Fall;
    ExtremesAttained(w);
    k :| k < |w| && w[k] == MinOf(w);
    FallFromOne(w[k]);
    FallMonotone(1.0, w[0], w[k]);
  }

  lemma WithCapitalAtMost(w: seq<real>)
    requires Positive(w) && w != [] && Positive([1.0] + w)
    ensures MaxDrawdown([1.0] + w) <= MaxDrawdown(w) && MaxDrawdown([1.0] + w) <= MinOf(w) - 1.0
  {
    hide MaxDrawdown, MinOf, Fall;
    var c := [1.0] + w;
    DrawdownIsWorstPair(w);
    DrawdownIsWorstPair(c);
    ExtremesAttained(w);
    var a, b :| 0 <= a <= b < |w| && MaxDrawdown(w) == Fall(w[a], w[b]);
    assert c[a + 1] == w[a] && c[b + 1] == w[b];
    var k :| 0 <= k < |w| && w[k] == MinOf(w);
    assert c[k + 1] == w[k];
    FallFromOne(w[k]);
    assert MaxDrawdown(c) <= Fall(c[0], c[k + 1]);
  }

  lemma WithCapitalAttained(w: seq<real>)
    requires Positive(w) && w != [] && Positive([1.0] + w)
    ensures MaxDrawdown([1.0] + w) >= MaxDrawdown(w) || MaxDrawdown([1.0] + w) >= MinOf(w) - 1.0
  {
    hide MaxDrawdown, MinOf, Fall;
    var c := [1.0] + w;
    DrawdownIsWorstPair(w);
    DrawdownIsWorstPair(c);
    ExtremesAttained(w);
    DrawdownRange(w);
    var i, j :| 0 <= i <= j < |c| && MaxDrawdown(c) == Fall(c[i], c[j]);
    if i > 0 {
      assert c[i] == w[i - 1] && c[j] == w[j - 1];
    } else if j > 0 {
      assert c[j] == w[j - 1];
      FallFromOne(w[j - 1]);
    } else {
      FallFromOne(1.0);
    }
  }

  lemma FallFromOne(v: real)
    ensures Fall(1.0, v) == v - 1.0
  {
  }
}

/** Historical value at risk and expected shortfall. */
module ValueAtRisk {
  import opened Reals
  import opened Sums

  function Insert(x: real, s: seq<real>): seq<real> {
    if s == [] || x <= s[0] then [x] + s else [s[0]] + Insert(x, s[1..])
  }

  function Sort(s: seq<real>): seq<real> {
    if s == [] then [] else Insert(s[0], Sort(s[1..]))
  }

  ghost predicate Ascending(s: seq<real>) {
    forall i, j :: 0 <= i < j < |s| ==> s[i] <= s[j]
  }

  lemma {:induction false} InsertElements(x: real, s: seq<real>)
    ensures multiset(Insert(x, s)) == multiset(s) + multiset{x}
  {
    if s != [] && x > s[0] {
      InsertElements(x, s[1..]);
      assert s == [s[0]] + s[1..];
    }
  }

  lemma {:induction false} InsertAscending(x: real, s: seq<real>)
    requires Ascending(s)
    ensures Ascending(Insert(x, s))
  {
    if s != [] && x > s[0] {
      InsertAscending(x, s[1..]);
      var r := Insert(x, s[1..]);
      InsertElements(x, s[1..]);
      forall i | 0 <= i < |r| ensures s[0] <= r[i] {
        assert r[i] in multiset(r);
        assert r[i] in multiset(s[1..]) || r[i] == x;
      }
    }
  }

  lemma {:induction false} SortSorts(s: seq<real>)
    ensures Ascending(Sort(s)) && multiset(Sort(s)) == multiset(s)
  {
    if s != [] {
      SortSorts(s[1..]);
      InsertElements(s[0], Sort(s[1..]));
      InsertAscending(s[0], Sort(s[1..]));
      assert s == [s[0]] + s[1..];
    }
  }

  function Interpolate(a: real, b: real, f: real): real {
    a + f * (b - a)
  }

  lemma InterpolateMonotone(a: real, b: real, f: real, g: real)
    requires a <= b && f <= g
    ensures Interpolate(a, b, f) <= Interpolate(a, b, g)
    ensures Interpolate(a, b, 0.0) == a && Interpolate(a, b, 1.0) == b
  {
    ScaleMonotone(b - a, f, g);
  }

  /** The fractional position of quantile q in a list. */
  function Place(s: seq<real>, q: real): real {
    (|s| - 1) as real * q
  }

  lemma PlaceMonotone(s: seq<real>, p: real, q: real)
    requires s != [] && p <= q
    ensures Place(s, p) <= Place(s, q)
    ensures Place(s, 0.0) == 0.0 && Place(s, 1.0) == (|s| - 1) as real
  {
    var last := (|s| - 1) as real;
    assert Place(s, p) == last * p && Place(s, q) == last * q;
    assert Place(s, 0.0) == last * 0.0 && Place(s, 1.0) == last * 1.0;
    hide Place;
    ScaleMonotone(last, p, q);
  }

  /** Linear interpolation between the neighbours of position q·(n-1) in a sorted list. */
  function Percentile(s: seq<real>, q: real): real
    requires s != [] && 0.0 <= q <= 1.0
  {
    PlaceMonotone(s, 0.0, q);
    PlaceMonotone(s, q, 1.0);
    var lo := Place(s, q).Floor;
    if lo + 1 < |s| then Interpolate(s[lo], s[lo + 1], Place(s, q) - lo as real) else s[lo]
  }

  function VaR(history: seq<real>, confidence: real): real
    requires 0.0 <= confidence <= 1.0
  {
    if history == [] then 0.0
    else SortLength(history); Percentile(Sort(history), 1.0 - confidence)
  }

  lemma SortLength(s: seq<real>)
    ensures |Sort(s)| == |s|
  {
    SortSorts(s);
    assert |multiset(Sort(s))| == |multiset(s)|;
  }

  /** The returns at or below a threshold. */
  function Tail(s: seq<real>, v: real): seq<real> {
    if s == [] then []
    else Tail(s[..|s| - 1], v) + if s[|s| - 1] <= v then [s[|s| - 1]] else []
  }

  function Total(s: seq<real>): real {
    if s == [] then 0.0 else Total(s[..|s| - 1]) + s[|s| - 1]
  }

  function CVaR(history: seq<real>, confidence: real): real
    requires 0.0 <= confidence <= 1.0
  {
    if history == [] then 0.0
    else
      var v := VaR(history, confidence);
      var tail := Tail(history, v);
      if tail == [] then v else Total(tail) / |tail| as real
  }

  // ---- Percentiles ----

  /** Where q falls in a sorted list: at index lo, a fraction f towards the next. */
  lemma PercentileAt(s: seq<real>, q: real) returns (lo: nat, f: real)
    requires s != [] && 0.0 <= q <= 1.0
    ensures lo < |s| && 0.0 <= f < 1.0 && lo as real + f == Place(s, q)
    ensures lo + 1 == |s| ==> f == 0.0
    ensures Percentile(s, q) == if lo + 1 < |s| then Interpolate(s[lo], s[lo + 1], f) else s[lo]
  {
    hide Interpolate, Place;
    PlaceMonotone(s, 0.0, q);
    PlaceMonotone(s, q, 1.0);
    lo := Place(s, q).Floor;
    f := Place(s, q) - lo as real;
  }

  lemma PercentileAtLeastFirst(s: seq<real>, q: real)
    requires s != [] && Ascending(s) && 0.0 <= q <= 1.0
    ensures s[0] <= Percentile(s, q)
  {
    hide Interpolate, Percentile;
    var lo, f := PercentileAt(s, q);
    assert s[0] <= s[lo];
    if lo + 1 < |s| { InterpolateMonotone(s[lo], s[lo + 1], 0.0, f); }
  }

  lemma PercentileMonotone(s: seq<real>, p: real, q: real)
    requires s != [] && Ascending(s) && 0.0 <= p <= q <= 1.0
    ensures Percentile(s, p) <= Percentile(s, q)
  {
    hide Interpolate, Percentile, Place;
    var lo, f := PercentileAt(s, p);
    var hi, g := PercentileAt(s, q);
    PlaceMonotone(s, p, q);
    assert lo as real + f <= hi as real + g;
    if lo == hi {
      if lo + 1 < |s| { InterpolateMonotone(s[lo], s[lo + 1], f, g); }
    } else {
      InterpolateMonotone(s[lo], s[lo + 1], f, 1.0);
      assert s[lo + 1] <= s[hi];
      if hi + 1 < |s| { InterpolateMonotone(s[hi], s[hi + 1], 0.0, g); }
    }
  }

  // ---- Value at risk and shortfall ----

  /** Asking for more confidence never raises the value at risk. */
  lemma VaRFallsWithConfidence(r: seq<real>, c: real, c': real)
    requires 0.0 <= c <= c' <= 1.0
    ensures VaR(r, c') <= VaR(r, c)
  {
    hide Percentile;
    if r != [] {
      SortSorts(r);
      SortLength(r);
      PercentileMonotone(Sort(r), 1.0 - c', 1.0 - c);
    }
  }

  lemma {:induction false} TailMember(s: seq<real>, v: real, x: real)
    ensures x in Tail(s, v) <==> x in s && x <= v
  {
    if s != [] {
      TailMember(s[..|s| - 1], v, x);
      assert s == s[..|s| - 1] + [s[|s| - 1]];
    }
  }

  /** The shortfall tail is never empty. */
  lemma TailNonempty(r: seq<real>, c: real)
    requires r != [] && 0.0 <= c <= 1.0
    ensures Tail(r, VaR(r, c)) != []
  {
    hide Percentile;
    SortSorts(r);
    SortLength(r);
    var s := Sort(r);
    PercentileAtLeastFirst(s, 1.0 - c);
    assert s[0] in multiset(s);
    TailMember(r, VaR(r, c), s[0]);
  }

  lemma {:induction false} TotalAtMost(s: seq<real>, v: real)
    requires forall i :: 0 <= i < |s| ==> s[i] <= v
    ensures Total(s) <= |s| as real * v
  {
    if s != [] {
      TotalAtMost(s[..|s| - 1], v);
      OneMore(|s| - 1, v);
    }
  }

  lemma OneMore(n: nat, v: real)
    ensures (n + 1) as real * v == n as real * v + v
  {
  }

  /** A larger threshold adds only returns above the smaller one. */
  lemma {:induction false} TailGrows(s: seq<real>, u: real, v: real)
    requires u <= v
    ensures Grown(|Tail(s, u)|, Total(Tail(s, u)), |Tail(s, v)|, Total(Tail(s, v)), u)
  {
    hide Grown;
    if s == [] {
      GrownEmpty(u);
    } else {
      TailGrows(s[..|s| - 1], u, v);
      OneMoreReturn(s, u, v);
    }
  }

  lemma OneMoreReturn(s: seq<real>, u: real, v: real)
    requires u <= v && s != []
    requires var rest := s[..|s| - 1];
      Grown(|Tail(rest, u)|, Total(Tail(rest, u)), |Tail(rest, v)|, Total(Tail(rest, v)), u)
    ensures Grown(|Tail(s, u)|, Total(Tail(s, u)), |Tail(s, v)|, Total(Tail(s, v)), u)
  {
    hide Tail, Total, Grown;
    TailStep(s, u);
    TailStep(s, v);
    var rest := s[..|s| - 1];
    GrowStep(|Tail(rest, u)|, Total(Tail(rest, u)), |Tail(rest, v)|, Total(Tail(rest, v)), s[|s| - 1], u, v);
  }

  /** n returns summing to b are m returns summing to a, and others at least u. */
  predicate Grown(m: nat, a: real, n: nat, b: real, u: real) {
    m <= n && b >= a + (n - m) as real * u
  }

  lemma GrownEmpty(u: real)
    ensures Grown(0, 0.0, 0, 0.0, u)
  {
  }

  lemma GrowStep(m: nat, a: real, n: nat, b: real, x: real, u: real, v: real)
    requires u <= v && Grown(m, a, n, b, u)
    ensures Grown(if x <= u then m + 1 else m, if x <= u then a + x else a,
                  if x <= v then n + 1 else n, if x <= v then b + x else b, u)
  {
    if u < x <= v {
      assert (n + 1 - m) as real * u == (n - m) as real * u + u;
    } else if x <= u {
      assert (n + 1 - (m + 1)) == n - m;
    }
  }

  lemma TailStep(s: seq<real>, v: real)
    requires s != []
    ensures var x, rest := s[|s| - 1], Tail(s[..|s| - 1], v);
      if x <= v then |Tail(s, v)| == |rest| + 1 && Total(Tail(s, v)) == Total(rest) + x
      else |Tail(s, v)| == |rest| && Total(Tail(s, v)) == Total(rest)
  {
    var rest := Tail(s[..|s| - 1], v);
    assert (rest + [s[|s| - 1]])[..|rest|] == rest;
    assert rest + [] == rest;
  }

  lemma TailBelow(r: seq<real>, v: real)
    requires Tail(r, v) != []
    ensures Total(Tail(r, v)) <= |Tail(r, v)| as real * v
  {
    hide Tail, Total;
    var t := Tail(r, v);
    forall i | 0 <= i < |t| ensures t[i] <= v { TailMember(r, v, t[i]); }
    TotalAtMost(t, v);
  }

  lemma MeanAtMost(total: real, n: nat, v: real)
    requires n > 0 && total <= n as real * v
    ensures total / n as real <= v
  {
    var mean := total / n as real;
    assert mean * n as real == total;
    if mean > v { StrictScale(n as real, v, mean); }
  }

  /** The expected shortfall is at most the value at risk. */
  lemma CVaRAtMostVaR(r: seq<real>, c: real)
    requires 0.0 <= c <= 1.0
    ensures CVaR(r, c) <= VaR(r, c)
  {
    hide VaR, Tail, Total;
    if r == [] {
      EmptyVaR(c);
    } else {
      TailNonempty(r, c);
      TailBelow(r, VaR(r, c));
      MeanAtMost(Total(Tail(r, VaR(r, c))), |Tail(r, VaR(r, c))|, VaR(r, c));
    }
  }

  lemma EmptyVaR(c: real)
    requires 0.0 <= c <= 1.0
    ensures VaR([], c) == 0.0
  {
  }

  /** Asking for more confidence never raises the expected shortfall. */
  lemma CVaRFallsWithConfidence(r: seq<real>, c: real, c': real)
    requires 0.0 <= c <= c' <= 1.0
    ensures CVaR(r, c') <= CVaR(r, c)
  {
    hide VaR, Tail, Total;
    if r != [] {
      var u, v := VaR(r, c'), VaR(r, c);
      VaRFallsWithConfidence(r, c, c');
      TailNonempty(r, c);
      TailNonempty(r, c');
      TailGrows(r, u, v);
      TailBelow(r, u);
      MeansGrow(Total(Tail(r, u)), |Tail(r, u)|, Total(Tail(r, v)), |Tail(r, v)|, u);
    }
  }

  lemma MeansGrow(a: real, m: nat, b: real, n: nat, u: real)
    requires 0 < m <= n && a <= m as real * u && b >= a + (n - m) as real * u
    ensures a / m as real <= b / n as real
  {
    var x, y := m as real, n as real;
    var mean := a / x;
    assert mean * x == a;
    MeanAtMost(a, m, u);
    ScaleMonotone(y - x, mean, u);
    assert b >= mean * x + mean * (y - x) == mean * y;
    DivMonotone(mean * y, b, y);
    assert (mean * y) / y == mean;
  }

  // ---- What the two numbers are ----

  /** How far each return in the tail lies above m. */
  function TailDeviation(r: seq<real>, v: real, m: real): Vec {
    i => if 0 <= i < |r| && r[i] <= v then r[i] - m else 0.0
  }

  /** The expected shortfall is the balance point of the returns at or below the value at risk. */
  lemma CVaRBalancesTail(r: seq<real>, c: real)
    requires 0.0 <= c <= 1.0
    ensures Sum(|r|, TailDeviation(r, VaR(r, c), CVaR(r, c))) == 0.0
  {
    hide VaR, Tail, Total, TailDeviation, Sum, CVaR;
    var v := VaR(r, c);
    DeviationsSum(r, v, CVaR(r, c));
    if r == [] {
      EmptyTail(v);
    } else {
      CVaRIsMean(r, c);
      MeanBalances(Total(Tail(r, v)), |Tail(r, v)|, CVaR(r, c));
    }
  }

  lemma CVaRIsMean(r: seq<real>, c: real)
    requires r != [] && 0.0 <= c <= 1.0
    ensures var t := Tail(r, VaR(r, c)); t != [] && CVaR(r, c) == Total(t) / |t| as real
  {
    TailNonempty(r, c);
    hide VaR, Tail, Total;
  }

  lemma MeanBalances(total: real, n: nat, mean: real)
    requires n > 0 && mean == total / n as real
    ensures total - n as real * mean == 0.0
  {
  }

  lemma {:induction false} DeviationsSum(r: seq<real>, v: real, m: real)
    ensures Sum(|r|, TailDeviation(r, v, m)) == Total(Tail(r, v)) - |Tail(r, v)| as real * m
  {
    hide Tail, Total;
    if r == [] {
      EmptyTail(v);
    } else {
      var n, rest := |r| - 1, r[..|r| - 1];
      DeviationsSum(rest, v, m);
      SumEqual(n, TailDeviation(r, v, m), TailDeviation(rest, v, m));
      TailStep(r, v);
      OneMore(|Tail(rest, v)|, m);
    }
  }

  lemma EmptyTail(v: real)
    ensures Tail([], v) == [] && Total([]) == 0.0
  {
  }

  /** It equals the value at risk exactly when no return is worse than that. */
  lemma CVaRIsVaRExactlyWhen(r: seq<real>, c: real)
    requires 0.0 <= c <= 1.0
    ensures CVaR(r, c) == VaR(r, c) <==> forall i :: 0 <= i < |r| ==> VaR(r, c) <= r[i]
  {
    hide VaR, CVaR;
    if r != [] {
      var v := VaR(r, c);
      CVaRAtMostVaR(r, c);
      CVaRBalancesTail(r, c);
      var short, atVar := TailDeviation(r, v, CVaR(r, c)), TailDeviation(r, v, v);
      if CVaR(r, c) == v {
        if i :| 0 <= i < |r| && r[i] < v {
          NonPositiveSum(|r|, atVar, i);
        }
      } else if forall i :: 0 <= i < |r| ==> v <= r[i] {
        var i := TailIndex(r, c);
        NonPositiveSum(|r|, Negative(short), i);
        SumScale(|r|, Negative(short), -1.0, short);
      }
    } else {
      EmptyCVaR(c);
    }
  }

  function Negative(f: Vec): Vec {
    i => -1.0 * f(i)
  }

  lemma EmptyCVaR(c: real)
    requires 0.0 <= c <= 1.0
    ensures CVaR([], c) == VaR([], c) == 0.0
  {
  }

  lemma TailIndex(r: seq<real>, c: real) returns (i: nat)
    requires r != [] && 0.0 <= c <= 1.0
    ensures i < |r| && r[i] <= VaR(r, c)
  {
    hide VaR, Tail;
    TailNonempty(r, c);
    var x := Tail(r, VaR(r, c))[0];
    TailMember(r, VaR(r, c), x);
    i :| i < |r| && r[i] == x;
  }

  lemma NonPositiveSum(n: nat, f: Vec, k: nat)
    requires k < n && f(k) < 0.0 && forall i :: 0 <= i < n ==> f(i) <= 0.0
    ensures Sum(n, f) < 0.0
  {
    SumStrict(n, f, Const(0.0), k);
    SumZero(n, Const(0.0));
  }

  // ---- The rank of the value at risk ----

  lemma {:induction false} AllInTail(s: seq<real>, v: real)
    requires forall i :: 0 <= i < |s| ==> s[i] <= v
    ensures |Tail(s, v)| == |s|
  {
    if s != [] { AllInTail(s[..|s| - 1], v); }
  }

  lemma {:induction false} TailWithin(s: seq<real>, v: real)
    ensures |Tail(s, v)| <= |s|
  {
    if s != [] { TailWithin(s[..|s| - 1], v); }
  }

  /** In an ascending list more than k entries lie at or below v exactly when entry k does. */
  lemma {:induction false} RankInAscending(s: seq<real>, k: nat, v: real)
    requires Ascending(s) && k < |s|
    ensures |Tail(s, v)| > k <==> s[k] <= v
  {
    var last, rest := |s| - 1, s[..|s| - 1];
    if k < last {
      RankInAscending(rest, k, v);
      if s[last] <= v { assert s[k] <= s[last]; }
    } else if s[last] <= v {
      AllInTail(s, v);
    } else {
      TailWithin(rest, v);
    }
  }

  lemma {:induction false} TailCounts(s: seq<real>, v: real, x: real)
    ensures multiset(Tail(s, v))[x] == if x <= v then multiset(s)[x] else 0
  {
    hide Tail;
    if s == [] {
      EmptyTail(v);
    } else {
      var rest, last := s[..|s| - 1], s[|s| - 1];
      TailCounts(rest, v, x);
      TailSplit(s, v);
      LastCounted(s, x);
    }
  }

  lemma TailSplit(s: seq<real>, v: real)
    requires s != []
    ensures var rest, last := s[..|s| - 1], s[|s| - 1];
      multiset(Tail(s, v)) == multiset(Tail(rest, v)) + if last <= v then multiset{last} else multiset{}
  {
    var rest, last := s[..|s| - 1], s[|s| - 1];
    assert Tail(s, v) == Tail(rest, v) + if last <= v then [last] else [];
  }

  lemma LastCounted(s: seq<real>, x: real)
    requires s != []
    ensures multiset(s)[x] == multiset(s[..|s| - 1])[x] + if s[|s| - 1] == x then 1 else 0
  {
    assert s == s[..|s| - 1] + [s[|s| - 1]];
  }

  lemma TailOfPermutation(s: seq<real>, r: seq<real>, v: real)
    requires multiset(s) == multiset(r)
    ensures |Tail(s, v)| == |Tail(r, v)|
  {
    hide Tail;
    forall x ensures multiset(Tail(s, v))[x] == multiset(Tail(r, v))[x] {
      TailCounts(s, v, x);
      TailCounts(r, v, x);
    }
    assert multiset(Tail(s, v)) == multiset(Tail(r, v));
    assert |multiset(Tail(s, v))| == |multiset(Tail(r, v))|;
  }

  /** The confidence whose quantile stands at a position of the sorted returns. */
  function ConfidenceAt(n: nat, position: real): real
    requires n > 1
  {
    1.0 - position / (n - 1) as real
  }

  lemma ConfidenceInRange(n: nat, position: real)
    requires n > 1 && 0.0 <= position <= (n - 1) as real
    ensures 0.0 <= ConfidenceAt(n, position) <= 1.0
    ensures (n - 1) as real * (1.0 - ConfidenceAt(n, position)) == position
  {
    var d := (n - 1) as real;
    DivMonotone(0.0, position, d);
    DivMonotone(position, d, d);
    assert d / d == 1.0;
    assert d * (position / d) == position;
  }

  /** Between two positions the value at risk runs along the line through the order statistics around it. */
  lemma VaRAtPosition(r: seq<real>, k: nat, f: real)
    requires |r| > 1 && 0.0 <= f <= 1.0 && k < |r| && (k + 1 == |r| ==> f == 0.0)
    requires 0.0 <= ConfidenceAt(|r|, k as real + f) <= 1.0
    ensures |Sort(r)| == |r|
    ensures VaR(r, ConfidenceAt(|r|, k as real + f))
         == if k + 1 < |r| then (1.0 - f) * Sort(r)[k] + f * Sort(r)[k + 1] else Sort(r)[k]
  {
    hide Percentile, Sort, ConfidenceAt, Interpolate;
    var c, s := ConfidenceAt(|r|, k as real + f), Sort(r);
    SortLength(r);
    ConfidenceInRange(|r|, k as real + f);
    var lo, g := PercentileAt(s, 1.0 - c);
    assert lo as real + g == k as real + f;
    if k + 1 < |r| { Blend(s[k], s[k + 1], f); }
    if lo != k {
      assert lo == k + 1 && g == 0.0;
      if lo + 1 < |r| { Blend(s[lo], s[lo + 1], 0.0); }
    }
  }

  lemma Blend(a: real, b: real, f: real)
    ensures Interpolate(a, b, f) == (1.0 - f) * a + f * b
  {
  }

  /** At a whole position the value at risk has that rank: more than k returns lie at or below it, and at most k
      at or below anything less. */
  lemma VaRIsAnOrderStatistic(r: seq<real>, k: nat, u: real)
    requires |r| > 1 && k < |r|
    ensures 0.0 <= ConfidenceAt(|r|, k as real) <= 1.0
    ensures var v := VaR(r, ConfidenceAt(|r|, k as real));
      |Tail(r, v)| > k && (u < v ==> |Tail(r, u)| <= k)
  {
    hide VaR, Tail, ConfidenceAt;
    ConfidenceInRange(|r|, k as real);
    assert k as real + 0.0 == k as real;
    VaRAtPosition(r, k, 0.0);
    var s, v := Sort(r), VaR(r, ConfidenceAt(|r|, k as real));
    SortSorts(r);
    RankInAscending(s, k, v);
    RankInAscending(s, k, u);
    TailOfPermutation(s, r, v);
    TailOfPermutation(s, r, u);
  }

  /** A history of one return is worth that return, and an empty one zero. */
  lemma ShortHistory(r: seq<real>, c: real)
    requires |r| <= 1 && 0.0 <= c <= 1.0
    ensures VaR(r, c) == CVaR(r, c) == if r == [] then 0.0 else r[0]
  {
    hide Percentile, CVaR;
    if r != [] {
      SortLength(r);
      SortSorts(r);
      var s := Sort(r);
      assert s[0] in multiset(s) && multiset(s) == multiset(r);
      var lo, f := PercentileAt(s, 1.0 - c);
      assert VaR(r, c) == s[0] == r[0];
      CVaRIsVaRExactlyWhen(r, c);
    } else {
      EmptyCVaR(c);
    }
  }

  /** Between two whole positions it is their blend. */
  lemma VaRBlends(r: seq<real>, k: nat, f: real)
    requires k + 1 < |r| && 0.0 <= f <= 1.0
    ensures 0.0 <= ConfidenceAt(|r|, k as real + f) <= 1.0
    ensures 0.0 <= ConfidenceAt(|r|, k as real) <= 1.0 && 0.0 <= ConfidenceAt(|r|, (k + 1) as real) <= 1.0
    ensures VaR(r, ConfidenceAt(|r|, k as real + f))
         == (1.0 - f) * VaR(r, ConfidenceAt(|r|, k as real)) + f * VaR(r, ConfidenceAt(|r|, (k + 1) as real))
  {
    hide VaR, ConfidenceAt;
    ConfidenceInRange(|r|, k as real + f);
    ConfidenceInRange(|r|, k as real);
    ConfidenceInRange(|r|, (k + 1) as real);
    assert k as real + 0.0 == k as real && (k + 1) as real + 0.0 == (k + 1) as real;
    VaRAtPosition(r, k, f);
    VaRAtPosition(r, k, 0.0);
    VaRAtPosition(r, k + 1, 0.0);
  }
}

/** The diversification ratio: weighted average volatility over portfolio volatility. */
module Diversification {
  import opened Reals
  import opened Sums
  import opened Options
  import Allocation

  /** Negative weights are clipped and the rest rescaled to sum to one, if anything is left. */
  function Cleaned(n: nat, w: Vec): Vec {
    var total := Sum(n, Allocation.Clipped(w));
    if total > 0.0 then Allocation.Cleaned(w, total) else Allocation.Clipped(w)
  }

  /** vols holds the asset volatilities and vol the portfolio volatility, as square roots. */
  ghost predicate AreVolatilities(n: nat, sigma: Mat, w: Vec, vols: Vec, vol: real) {
    && (forall i :: 0 <= i < n ==> vols(i) >= 0.0 && vols(i) * vols(i) == Max(sigma(i, i), 0.0))
    && vol >= 0.0 && vol * vol == Max(Quad(n, sigma, w), 0.0)
  }

  function Ratio(n: nat, w: Vec, vols: Vec, vol: real): Option<real> {
    if vol > 0.0000000001 then Some(Dot(n, w, vols) / vol) else None
  }

  /** In a PSD matrix an off-diagonal entry is at most the product of the two volatilities. */
  lemma CovarianceBound(n: nat, sigma: Mat, vols: Vec, i: nat, j: nat)
    requires Symmetric(n, sigma) && PositiveSemidefinite(n, sigma) && i < n && j < n
    requires forall k :: 0 <= k < n ==> vols(k) >= 0.0 && vols(k) * vols(k) == Max(sigma(k, k), 0.0)
    ensures sigma(i, j) <= vols(i) * vols(j)
  {
    hide Quad, Bilinear, Dot;
    forall t: real ensures Trinomial(sigma(i, i), sigma(j, i), sigma(j, j), t) >= 0.0 {
      QuadExpand(n, sigma, Unit(i), t, Unit(j));
      BilinearUnit(n, sigma, i, Unit(i));
      BilinearUnit(n, sigma, j, Unit(i));
      DotUnit(n, i, Row(sigma, j));
      assert Quad(n, sigma, Axpy(Unit(i), t, Unit(j))) >= 0.0;
    }
    Discriminant(sigma(i, i), sigma(j, i), sigma(j, j), vols(i), vols(j));
  }

  /** a + 2t·b + t²·c */
  function Trinomial(a: real, b: real, c: real, t: real): real {
    a + 2.0 * t * b + t * t * c
  }

  lemma Discriminant(a: real, b: real, c: real, p: real, q: real)
    requires p >= 0.0 && q >= 0.0 && p * p == Max(a, 0.0) && q * q == Max(c, 0.0)
    requires forall t: real :: Trinomial(a, b, c, t) >= 0.0
    ensures b <= p * q
  {
    assert Trinomial(a, b, c, 0.0) >= 0.0;
    assert p * p == a;
    if q == 0.0 {
      if b > 0.0 {
        assert Trinomial(a, b, c, -(a + 1.0) / b) >= 0.0;
        FlatNegative(a, b, c);
        assert false;
      }
    } else if p == 0.0 {
      RootPositive(c, q);
      if b > 0.0 {
        assert Trinomial(a, b, c, -b / c) >= 0.0;
        SteepNegative(b, c);
        assert false;
      }
    } else {
      RootPositive(c, q);
      assert Trinomial(a, b, c, -p / q) >= 0.0;
      CriticalPoint(b, p, q);
    }
  }

  lemma RootPositive(c: real, q: real)
    requires q > 0.0 && q * q == Max(c, 0.0)
    ensures c > 0.0
  {
    ProductPositive(q, q, Max(c, 0.0));
  }

  lemma ProductPositive(x: real, y: real, p: real)
    requires x > 0.0 && y > 0.0 && x * y == p
    ensures p > 0.0
  {
  }

  lemma FlatNegative(a: real, b: real, c: real)
    requires a >= 0.0 && b > 0.0 && c <= 0.0
    ensures Trinomial(a, b, c, -(a + 1.0) / b) < 0.0
  {
    var t := -(a + 1.0) / b;
    assert t * b == -(a + 1.0);
    assert t * t >= 0.0;
    ScaleMonotone(t * t, c, 0.0);
  }

  lemma SteepNegative(b: real, c: real)
    requires b > 0.0 && c > 0.0
    ensures Trinomial(0.0, b, c, -b / c) < 0.0
  {
    var t := -b / c;
    assert t * c == -b;
    assert t * t * c == t * (t * c) == -(t * b);
    assert t < 0.0;
    assert t * b < 0.0;
  }

  lemma CriticalPoint(b: real, p: real, q: real)
    requires p > 0.0 && q > 0.0 && Trinomial(p * p, b, q * q, -p / q) >= 0.0
    ensures b <= p * q
  {
    var t := -p / q;
    assert t * q == -p;
    assert t * t * (q * q) == (t * q) * (t * q) == p * p;
    assert p * p + t * b >= 0.0;
    assert -t * (p * q) == p * p;
    if b > p * q {
      assert t < 0.0;
      StrictScale(-t, p * q, b);
    }
  }

  /** The form of σ is at most that of the outer product of the volatilities, for nonnegative weights. */
  lemma VarianceAtMostSquare(n: nat, sigma: Mat, w: Vec, vols: Vec)
    requires Symmetric(n, sigma) && PositiveSemidefinite(n, sigma)
    requires forall i :: 0 <= i < n ==> w(i) >= 0.0
    requires forall i :: 0 <= i < n ==> vols(i) >= 0.0 && vols(i) * vols(i) == Max(sigma(i, i), 0.0)
    ensures Quad(n, sigma, w) <= Dot(n, w, vols) * Dot(n, w, vols)
  {
    hide Quad, Bilinear, Dot, Symmetric, PositiveSemidefinite;
    var outer := Outer(vols);
    forall i: nat, j: nat | i < n && j < n ensures Weighted(sigma, w, w)(i, j) <= Weighted(outer, w, w)(i, j) {
      CovarianceBound(n, sigma, vols, i, j);
      WeightedTerm(w(i), w(j), sigma(i, j), vols(i) * vols(j));
    }
    DoubleSumMonotone(n, Weighted(sigma, w, w), Weighted(outer, w, w));
    QuadAsDoubleSum(n, sigma, w);
    QuadAsDoubleSum(n, outer, w);
    QuadOuter(n, vols, w);
  }

  function Outer(v: Vec): Mat {
    (i, j) => v(i) * v(j)
  }

  lemma WeightedTerm(a: real, b: real, x: real, y: real)
    requires a >= 0.0 && b >= 0.0 && x <= y
    ensures a * x * b <= a * y * b
  {
    ScaleMonotone(a * b, x, y);
  }

  lemma DoubleSumMonotone(n: nat, m: Mat, m': Mat)
    requires forall i, j :: 0 <= i < n && 0 <= j < n ==> m(i, j) <= m'(i, j)
    ensures Sum(n, RowSum(n, m)) <= Sum(n, RowSum(n, m'))
  {
    forall i | 0 <= i < n ensures RowSum(n, m)(i) <= RowSum(n, m')(i) {
      SumMonotone(n, Row(m, i), Row(m', i));
    }
    SumMonotone(n, RowSum(n, m), RowSum(n, m'));
  }

  lemma QuadAsDoubleSum(n: nat, m: Mat, w: Vec)
    ensures Quad(n, m, w) == Sum(n, RowSum(n, Weighted(m, w, w)))
  {
    BilinearIsDoubleSum(n, m, w, w);
  }

  /** The form of an outer product is a square. */
  lemma QuadOuter(n: nat, v: Vec, w: Vec)
    ensures Quad(n, Outer(v), w) == Dot(n, w, v) * Dot(n, w, v)
  {
    hide Dot, Apply, Outer;
    var d := Dot(n, w, v);
    forall i: int ensures Times(w, Apply(n, Outer(v), w))(i) == d * Times(w, v)(i) {
      OuterRow(n, v, w, i);
      Distributed(w(i), v(i), d);
    }
    QuadAsSum(n, Outer(v), w);
    DotAsSum(n, w, v);
    SumScale(n, Times(w, Apply(n, Outer(v), w)), d, Times(w, v));
  }

  lemma Distributed(a: real, b: real, d: real)
    ensures a * (b * d) == d * (a * b)
  {
  }

  lemma OuterRow(n: nat, v: Vec, w: Vec, i: int)
    ensures Apply(n, Outer(v), w)(i) == v(i) * Dot(n, w, v)
  {
    DotCommutes(n, v, w);
    SumScale(n, Times(Row(Outer(v), i), w), v(i), Times(v, w));
  }

  lemma CleanedIsNonnegative(n: nat, w: Vec)
    ensures forall i :: 0 <= i < n ==> Cleaned(n, w)(i) >= 0.0
  {
    assert forall i :: Allocation.Clipped(w)(i) == Max(w(i), 0.0) >= 0.0;
    if Sum(n, Allocation.Clipped(w)) > 0.0 {
      Allocation.CleanedOnSimplex(n, w);
    }
  }

  /** The weights the ratio is taken over are a portfolio whenever some weight is positive, and the given ones
      when these are one already. */
  lemma CleanedIsPortfolio(n: nat, w: Vec)
    ensures (exists i :: 0 <= i < n && w(i) > 0.0) ==> Sum(n, Cleaned(n, w)) == 1.0
    ensures Sum(n, w) == 1.0 && (forall i :: 0 <= i < n ==> w(i) >= 0.0) ==>
      forall i :: 0 <= i < n ==> Cleaned(n, w)(i) == w(i)
  {
    var c := Allocation.Clipped(w);
    assert forall i :: c(i) == Max(w(i), 0.0);
    SumMonotone(n, Const(0.0), c);
    SumZero(n, Const(0.0));
    if i: nat :| i < n && w(i) > 0.0 {
      SumStrict(n, Const(0.0), c, i);
      Allocation.CleanedOnSimplex(n, w);
    }
    if Sum(n, w) == 1.0 && forall i :: 0 <= i < n ==> w(i) >= 0.0 {
      Allocation.PortfolioIsKept(n, w);
    }
  }

  /** Whatever weights come in, the ratio is at least one whenever it is defined. */
  lemma RatioAtLeastOne(n: nat, sigma: Mat, w: Vec, vols: Vec, vol: real)
    requires Symmetric(n, sigma) && PositiveSemidefinite(n, sigma)
    requires AreVolatilities(n, sigma, Cleaned(n, w), vols, vol)
    ensures var r := Ratio(n, Cleaned(n, w), vols, vol); r.Some? ==> r.value >= 1.0
  {
    hide Quad, Dot, Cleaned, Symmetric;
    var c := Cleaned(n, w);
    CleanedIsNonnegative(n, w);
    VarianceAtMostSquare(n, sigma, c, vols);
    assert Quad(n, sigma, c) >= 0.0;
    AverageIsNonnegative(n, c, vols);
    var d := Dot(n, c, vols);
    if vol > 0.0000000001 {
      if d < vol {
        StrictScale(vol, d, vol);
        ScaleMonotone(d, d, vol);
      }
      DivMonotone(vol, d, vol);
    }
  }

  lemma AverageIsNonnegative(n: nat, w: Vec, vols: Vec)
    requires forall i :: 0 <= i < n ==> w(i) >= 0.0 && vols(i) >= 0.0
    ensures Dot(n, w, vols) >= 0.0
  {
    SumMonotone(n, Const(0.0), Times(w, vols));
    SumZero(n, Const(0.0));
  }

  // ---- The ratio itself ----

  /** It is defined exactly above the volatility floor, is then the average volatility of the assets over that of
      the portfolio, and is one exactly when all assets held are perfectly correlated with each other. */
  lemma RatioIsOneExactlyWhen(n: nat, sigma: Mat, w: Vec, vols: Vec, vol: real)
    requires Symmetric(n, sigma) && PositiveSemidefinite(n, sigma)
    requires AreVolatilities(n, sigma, Cleaned(n, w), vols, vol)
    ensures var c, r := Cleaned(n, w), Ratio(n, Cleaned(n, w), vols, vol);
      && (r.Some? <==> vol > 0.0000000001)
      && (r.Some? ==> r.value * vol == Dot(n, c, vols))
      && (r.Some? ==> (r.value == 1.0 <==> PerfectlyCorrelated(n, sigma, c, vols)))
  {
    hide Quad, Dot, Cleaned, Symmetric, PositiveSemidefinite, PerfectlyCorrelated;
    var c := Cleaned(n, w);
    if vol > 0.0000000001 {
      CleanedIsNonnegative(n, w);
      AverageIsNonnegative(n, c, vols);
      assert Quad(n, sigma, c) >= 0.0 by { VarianceIsNonnegative(n, sigma, c); }
      SquareReachedExactlyWhen(n, sigma, c, vols);
      SameSquares(Dot(n, c, vols), vol);
      QuotientOne(Dot(n, c, vols), vol);
    }
  }

  lemma VarianceIsNonnegative(n: nat, sigma: Mat, w: Vec)
    requires PositiveSemidefinite(n, sigma)
    ensures Quad(n, sigma, w) >= 0.0
  {
  }

  ghost predicate PerfectlyCorrelated(n: nat, sigma: Mat, w: Vec, vols: Vec) {
    forall i, j :: 0 <= i < n && 0 <= j < n && w(i) > 0.0 && w(j) > 0.0 ==> sigma(i, j) == vols(i) * vols(j)
  }

  lemma SameSquares(a: real, b: real)
    requires a >= 0.0 && b >= 0.0
    ensures a * a == b * b <==> a == b
  {
    if a < b { LargerSquare(a, b); }
    if b < a { LargerSquare(b, a); }
  }

  lemma LargerSquare(a: real, b: real)
    requires 0.0 <= a < b
    ensures a * a < b * b
  {
    var d := b - a;
    ProductPositive(d, d + 2.0 * a, b * b - a * a);
  }

  lemma QuotientOne(d: real, v: real)
    requires v > 0.0
    ensures d / v * v == d && (d / v == 1.0 <==> d == v)
  {
  }

  lemma SquareReachedExactlyWhen(n: nat, sigma: Mat, w: Vec, vols: Vec)
    requires Symmetric(n, sigma) && PositiveSemidefinite(n, sigma)
    requires forall i :: 0 <= i < n ==> w(i) >= 0.0
    requires forall i :: 0 <= i < n ==> vols(i) >= 0.0 && vols(i) * vols(i) == Max(sigma(i, i), 0.0)
    ensures Dot(n, w, vols) * Dot(n, w, vols) == Quad(n, sigma, w) <==> PerfectlyCorrelated(n, sigma, w, vols)
  {
    hide Quad, Bilinear, Dot, Symmetric, PositiveSemidefinite, Outer, Weighted;
    var outer := Outer(vols);
    forall i: nat, j: nat | i < n && j < n
      ensures Weighted(sigma, w, w)(i, j) <= Weighted(outer, w, w)(i, j)
      ensures Weighted(sigma, w, w)(i, j) == Weighted(outer, w, w)(i, j)
         <==> (w(i) > 0.0 && w(j) > 0.0 ==> sigma(i, j) == vols(i) * vols(j))
    {
      CovarianceBound(n, sigma, vols, i, j);
      PairReached(sigma, vols, w, i, j);
    }
    DoubleSumEqualExactlyWhen(n, Weighted(sigma, w, w), Weighted(outer, w, w));
    QuadAsDoubleSum(n, sigma, w);
    QuadAsDoubleSum(n, outer, w);
    QuadOuter(n, vols, w);
  }

  lemma PairReached(sigma: Mat, vols: Vec, w: Vec, i: nat, j: nat)
    requires w(i) >= 0.0 && w(j) >= 0.0 && sigma(i, j) <= vols(i) * vols(j)
    ensures Weighted(sigma, w, w)(i, j) <= Weighted(Outer(vols), w, w)(i, j)
    ensures Weighted(sigma, w, w)(i, j) == Weighted(Outer(vols), w, w)(i, j)
       <==> (w(i) > 0.0 && w(j) > 0.0 ==> sigma(i, j) == vols(i) * vols(j))
  {
    EqualTerms(w(i), w(j), sigma(i, j), vols(i) * vols(j));
  }

  lemma EqualTerms(a: real, b: real, x: real, y: real)
    requires a >= 0.0 && b >= 0.0 && x <= y
    ensures a * x * b <= a * y * b
    ensures a * x * b == a * y * b <==> (a > 0.0 && b > 0.0 ==> x == y)
  {
    WeightedTerm(a, b, x, y);
    if a > 0.0 && b > 0.0 && x < y {
      StrictScale(a, x, y);
      StrictScale(b, a * x, a * y);
    }
  }

  lemma DoubleSumEqualExactlyWhen(n: nat, m: Mat, m': Mat)
    requires forall i, j :: 0 <= i < n && 0 <= j < n ==> m(i, j) <= m'(i, j)
    ensures Sum(n, RowSum(n, m)) == Sum(n, RowSum(n, m'))
       <==> forall i, j :: 0 <= i < n && 0 <= j < n ==> m(i, j) == m'(i, j)
  {
    forall i | 0 <= i < n ensures RowSum(n, m)(i) <= RowSum(n, m')(i) {
      SumMonotone(n, Row(m, i), Row(m', i));
    }
    if i: nat, j: nat :| i < n && j < n && m(i, j) < m'(i, j) {
      SumStrict(n, Row(m, i), Row(m', i), j);
      SumStrict(n, RowSum(n, m), RowSum(n, m'), i);
    } else {
      forall i | 0 <= i < n ensures RowSum(n, m)(i) == RowSum(n, m')(i) {
        SumEqual(n, Row(m, i), Row(m', i));
      }
      SumEqual(n, RowSum(n, m), RowSum(n, m'));
    }
  }
}
