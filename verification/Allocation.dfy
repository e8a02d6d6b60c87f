/** Cleaning the solver's answer: clip the negatives, rescale to sum one. */
module Allocation {
  import opened Reals
  import opened Sums
  import opened Constraints

  function Clipped(w: Vec): Vec {
    i => Max(w(i), 0.0)
  }

  function Cleaned(w: Vec, total: real): Vec
    requires total != 0.0
  {
    i => Clipped(w)(i) / total
  }

  function Moved(w: Vec, total: real): Vec
    requires total != 0.0
  {
    i => Abs(Cleaned(w, total)(i) - w(i))
  }

  /** Whatever the solver returns, unless it has no positive part the cleaned weights are a portfolio. */
  lemma CleanedOnSimplex(n: nat, w: Vec)
    requires Sum(n, Clipped(w)) > 0.0
    ensures OnSimplex(n, Cleaned(w, Sum(n, Clipped(w))))
  {
    var total := Sum(n, Clipped(w));
    var c := Cleaned(w, total);
    forall i | 0 <= i < n ensures c(i) >= 0.0 && c(i) == (1.0 / total) * Clipped(w)(i) {
      CleanedEntry(w, total, i);
    }
    hide Cleaned, Clipped;
    SumScale(n, c, 1.0 / total, Clipped(w));
    Inverse(total);
  }

  lemma CleanedEntry(w: Vec, total: real, i: int)
    requires total > 0.0
    ensures Cleaned(w, total)(i) >= 0.0 && Cleaned(w, total)(i) == (1.0 / total) * Clipped(w)(i)
  {
    var c := Clipped(w)(i);
    assert c == Max(w(i), 0.0) >= 0.0;
    DivMonotone(0.0, c, total);
    Reciprocal(c, total);
  }

  lemma Reciprocal(x: real, t: real)
    requires t > 0.0
    ensures x / t == (1.0 / t) * x
  {
  }

  lemma Inverse(t: real)
    requires t > 0.0
    ensures (1.0 / t) * t == 1.0
  {
  }

  /** A feasible answer is left as it is. */
  lemma PortfolioIsKept(n: nat, w: Vec)
    requires OnSimplex(n, w)
    ensures Sum(n, Clipped(w)) == 1.0
    ensures forall i :: 0 <= i < n ==> Cleaned(w, 1.0)(i) == w(i)
  {
    assert forall i :: 0 <= i < n ==> Clipped(w)(i) == w(i);
    SumEqual(n, Clipped(w), w);
  }

  lemma ClippingAdds(n: nat, w: Vec)
    ensures Sum(n, w) <= Sum(n, Clipped(w))
  {
  }

  /** A cleaned weight meets a cap exactly when the clipped weight meets it times the clipped total. */
  lemma CapMetExactlyWhen(n: nat, w: Vec, cap: real, i: nat)
    requires Sum(n, Clipped(w)) > 0.0 && i < n
    ensures Cleaned(w, Sum(n, Clipped(w)))(i) <= cap <==> Clipped(w)(i) <= cap * Sum(n, Clipped(w))
  {
    QuotientAtMost(Clipped(w)(i), Sum(n, Clipped(w)), cap);
  }

  lemma QuotientAtMost(x: real, t: real, cap: real)
    requires t > 0.0
    ensures x / t <= cap <==> x <= cap * t
  {
    var q := x / t;
    assert q * t == x;
    if q <= cap { ScaleMonotone(t, q, cap); } else { StrictScale(t, cap, q); }
  }

  /** So a weight cap the solver met survives when its weights sum to at least one. */
  lemma CapSurvives(n: nat, w: Vec, cap: real, i: nat)
    requires Sum(n, w) >= 1.0 && i < n && w(i) <= cap && cap >= 0.0
    ensures Sum(n, Clipped(w)) >= 1.0
    ensures Cleaned(w, Sum(n, Clipped(w)))(i) <= cap
  {
    ClippingAdds(n, w);
    ClippedWithin(w, cap, i);
    hide Cleaned, Clipped;
    Enlarged(cap, Sum(n, Clipped(w)));
    CapMetExactlyWhen(n, w, cap, i);
  }

  lemma ClippedWithin(w: Vec, cap: real, i: int)
    requires w(i) <= cap && cap >= 0.0
    ensures 0.0 <= Clipped(w)(i) <= cap
  {
  }

  lemma Enlarged(x: real, t: real)
    requires x >= 0.0 && t >= 1.0
    ensures x <= x * t
  {
    ScaleMonotone(x, 1.0, t);
  }

  lemma QuotientShrinks(x: real, t: real)
    requires x >= 0.0 && t >= 1.0
    ensures 0.0 <= x / t <= x
  {
    ScaleMonotone(x, 1.0, t);
    QuotientAtMost(x, t, x);
    DivMonotone(0.0, x, t);
  }

  /** And rescaling lifts a weight that sits at its positive cap above it exactly when less than one is left. */
  lemma CapBreaksExactlyWhen(n: nat, w: Vec, cap: real, i: nat)
    requires i < n && w(i) == cap > 0.0 && Sum(n, Clipped(w)) > 0.0
    ensures Cleaned(w, Sum(n, Clipped(w)))(i) > cap <==> Sum(n, Clipped(w)) < 1.0
  {
    CapMetExactlyWhen(n, w, cap, i);
    var t := Sum(n, Clipped(w));
    if t < 1.0 { StrictScale(cap, t, 1.0); } else { ScaleMonotone(cap, 1.0, t); }
  }

  /** For instance two weights of 0.4 under a cap of 0.4. */
  lemma CapCanBreak()
    ensures var w: Vec := _ => 0.4;
      Sum(2, w) < 1.0 && Cleaned(w, Sum(2, Clipped(w)))(0) > 0.4
  {
    var w: Vec := _ => 0.4;
    TwoTerms(w);
    TwoTerms(Clipped(w));
    CapBreaksExactlyWhen(2, w, 0.4, 0);
  }

  /** Cleaning an answer that sums to one moves exactly twice the mass that was clipped. */
  lemma MovesTwiceTheClippedMass(n: nat, w: Vec)
    requires Sum(n, w) == 1.0
    ensures var total := Sum(n, Clipped(w)); total >= 1.0 && Sum(n, Moved(w, total)) == 2.0 * (total - 1.0)
  {
    ClippingAdds(n, w);
    var total := Sum(n, Clipped(w));
    CleanedOnSimplex(n, w);
    var a, b := Axpy(Clipped(w), -1.0, w), Axpy(Clipped(w), -1.0, Cleaned(w, total));
    forall i | 0 <= i < n ensures Moved(w, total)(i) == Axpy(a, 1.0, b)(i) {
      QuotientShrinks(Clipped(w)(i), total);
    }
    SumEqual(n, Moved(w, total), Axpy(a, 1.0, b));
    SumLinear(n, Axpy(a, 1.0, b), a, 1.0, b);
    SumLinear(n, a, Clipped(w), -1.0, w);
    SumLinear(n, b, Clipped(w), -1.0, Cleaned(w, total));
  }
}
