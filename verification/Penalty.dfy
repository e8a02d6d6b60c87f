/** When the cardinality penalty is large enough: exactly which weights make every
    minimum-energy selection have k assets. */
module Penalty {
  import opened Reals
  import opened Sums
  import opened Selections
  import opened Qubo

  ghost predicate IsMinimiser(p: Problem, x: Selection) {
    |x| == |p.mu| && forall y: Selection :: |y| == |p.mu| ==> Energy(Entry(p), x) <= Energy(Entry(p), y)
  }

  /** The inputs the builder documents: square symmetric positive semi-definite covariance, 1 ≤ k ≤ n. */
  ghost predicate Documented(p: Problem) {
    p.WellFormed() && Symmetric(|p.mu|, M(p.sigma)) && PositiveSemidefinite(|p.mu|, M(p.sigma))
  }

  ghost predicate UsesWeights(p: Problem, n: nat, lr: real, lk: real, lc: real) {
    Documented(p) && |p.mu| == n && p.lambdaReturn == lr && p.lambdaRisk == lk && p.lambdaCardinality == lc
  }

  /** Every documented problem on n assets with these weights has only k-asset minimisers. */
  ghost predicate PenaltyAlwaysWorks(n: nat, lr: real, lk: real, lc: real) {
    forall p: Problem, x: Selection :: UsesWeights(p, n, lr, lk, lc) && IsMinimiser(p, x) ==> Count(x) == p.k
  }

  /** The condition on the weights that a caller can check, for a target of n assets. */
  predicate PenaltyCondition(n: nat, lr: real, lk: real, lc: real) {
    lc > 0.0 && lc >= lr + (2.0 * (n as real - 1.0) + 1.0) * lk
  }

  function Ratio(m: real): real
    requires m >= 0.0
  {
    m / (m + SCALE_FLOOR)
  }

  lemma RatioBelowOne(m: real, a: real)
    requires 0.0 <= m && Abs(a) <= m
    ensures 0.0 <= Ratio(m) < 1.0
    ensures -Ratio(m) <= a / (m + SCALE_FLOOR) <= Ratio(m)
  {
    DivMonotone(a, m, m + SCALE_FLOOR);
    DivMonotone(-m, a, m + SCALE_FLOOR);
    DivMonotone(0.0, m, m + SCALE_FLOOR);
  }

  /** Normalised data are bounded by a number below one. */
  lemma NormalisedBounds(p: Problem)
    requires p.SquareCovariance()
    ensures var a := Ratio(MaxAbs(p.mu)); 0.0 <= a < 1.0 && forall i :: -a <= MuNorm(p)(i) <= a
    ensures var s := Ratio(MaxAbsRows(p.sigma)); 0.0 <= s < 1.0 && forall i, j :: -s <= SigmaNorm(p)(i, j) <= s
  {
    hide Ratio, MuNorm, SigmaNorm;
    RatioBelowOne(MaxAbs(p.mu), 0.0);
    RatioBelowOne(MaxAbsRows(p.sigma), 0.0);
    var a, s := Ratio(MaxAbs(p.mu)), Ratio(MaxAbsRows(p.sigma));
    forall i ensures -a <= MuNorm(p)(i) <= a {
      MuNormBound(p, i);
    }
    forall i, j ensures -s <= SigmaNorm(p)(i, j) <= s {
      SigmaNormBound(p, i, j);
    }
  }

  lemma MuNormBound(p: Problem, i: int)
    ensures var a := Ratio(MaxAbs(p.mu)); -a <= MuNorm(p)(i) <= a
  {
    hide Ratio;
    RatioBelowOne(MaxAbs(p.mu), V(p.mu)(i));
  }

  lemma SigmaNormBound(p: Problem, i: int, j: int)
    ensures var s := Ratio(MaxAbsRows(p.sigma)); -s <= SigmaNorm(p)(i, j) <= s
  {
    hide Ratio;
    RatioBelowOne(MaxAbsRows(p.sigma), M(p.sigma)(i, j));
  }

  ghost function RiskCap(c: real, s: real): real {
    (2.0 * c + 1.0) * s
  }

  /** The change of the quadratic term when asset i joins. */
  lemma JoinChange(n: nat, m: Mat, x: Selection, i: nat)
    requires i < n == |x| && !x[i] && Symmetric(n, m)
    ensures Quad(n, m, B(x[i := true])) == Quad(n, m, B(x)) + 2.0 * Dot(n, Row(m, i), B(x)) + m(i, i)
  {
    hide Quad, Dot, Bilinear;
    QuadEqual(n, m, B(x[i := true]), Axpy(B(x), 1.0, Unit(i)));
    QuadExpand(n, m, B(x), 1.0, Unit(i));
    BilinearUnit(n, m, i, B(x));
  }

  /** A bound on that change. */
  lemma RiskChange(n: nat, m: Mat, x: Selection, i: nat, s: real)
    requires i < n == |x| && !x[i]
    requires Symmetric(n, m)
    requires forall j :: -s <= m(i, j) <= s
    ensures -RiskCap(Count(x) as real, s) <= Quad(n, m, B(x[i := true])) - Quad(n, m, B(x)) <= RiskCap(Count(x) as real, s)
  {
    hide Quad, Dot, Count;
    JoinChange(n, m, x, i);
    DotBound(x, Row(m, i), s);
    TwicePlusOne(Count(x) as real, s);
    assert -s <= m(i, i) <= s;
  }

  lemma TwicePlusOne(c: real, s: real)
    ensures (2.0 * c + 1.0) * s == 2.0 * (c * s) + s
  {
  }

  lemma DotBound(x: Selection, row: Vec, s: real)
    requires forall j :: -s <= row(j) <= s
    ensures -(Count(x) as real * s) <= Dot(|x|, row, B(x)) <= Count(x) as real * s
  {
    hide Count, Times;
    var n, w, c := |x|, B(x), Count(x) as real;
    CountIsSum(x);
    forall j ensures Times(Const(-s), w)(j) <= Times(row, w)(j) <= Times(Const(s), w)(j) {
      TermBound(x, row, s, j);
    }
    SumMonotone(n, Times(row, w), Times(Const(s), w));
    SumMonotone(n, Times(Const(-s), w), Times(row, w));
    SumTimesConst(n, s, w);
    SumTimesConst(n, -s, w);
    Negation(s, c);
  }

  lemma Negation(s: real, c: real)
    ensures -s * c == -(c * s) && s * c == c * s
  {
  }

  lemma TermBound(x: Selection, row: Vec, s: real, j: int)
    requires -s <= row(j) <= s
    ensures Times(Const(-s), B(x))(j) <= Times(row, B(x))(j) <= Times(Const(s), B(x))(j)
  {
    ScaleBounds(B(x)(j), row(j), s);
  }

  /** The most that one asset joining c others can change the objective. */
  ghost function Cap(p: Problem, c: real): real {
    p.lambdaReturn * Ratio(MaxAbs(p.mu)) + p.lambdaRisk * RiskCap(c, Ratio(MaxAbsRows(p.sigma)))
  }

  lemma ObjectiveChange(p: Problem, x: Selection, i: nat)
    requires p.SquareCovariance() && Symmetric(|p.mu|, M(p.sigma))
    requires p.lambdaReturn >= 0.0 && p.lambdaRisk >= 0.0
    requires i < |x| == |p.mu| && !x[i]
    ensures -Cap(p, Count(x) as real) <= Objective(p, x[i := true]) - Objective(p, x) <= Cap(p, Count(x) as real)
  {
    hide Quad, Ratio, MuNorm, SigmaNorm, Dot, RiskCap;
    var n, y, mu := |x|, x[i := true], MuNorm(p);
    var a, s := Ratio(MaxAbs(p.mu)), Ratio(MaxAbsRows(p.sigma));
    NormalisedBounds(p);
    SigmaNormSymmetric(p);
    RiskChange(n, SigmaNorm(p), x, i, s);
    DotChange(mu, x, i);
    var v, v' := Quad(n, SigmaNorm(p), B(x)), Quad(n, SigmaNorm(p), B(y));
    ChangeWithin(p.lambdaReturn, p.lambdaRisk, Dot(n, mu, B(x)), Dot(n, mu, B(y)), mu(i), v, v',
                 a, RiskCap(Count(x) as real, s));
  }

  lemma ChangeWithin(lr: real, lk: real, r: real, r': real, dr: real, v: real, v': real, a: real, b: real)
    requires lr >= 0.0 && lk >= 0.0 && r' == r + dr && -a <= dr <= a && -b <= v' - v <= b
    ensures -(lr * a + lk * b) <= (-lr * r' + lk * v') - (-lr * r + lk * v) <= lr * a + lk * b
  {
    ScaleBounds(lr, dr, a);
    ScaleBounds(lk, v' - v, b);
    CombineChanges(lr, lk, r, r', dr, v, v');
  }

  lemma DotChange(mu: Vec, x: Selection, i: nat)
    requires i < |x| && !x[i]
    ensures Dot(|x|, mu, B(x[i := true])) == Dot(|x|, mu, B(x)) + mu(i)
  {
    SumDiffersAt(|x|, Times(mu, B(x[i := true])), Times(mu, B(x)), i);
  }

  lemma CombineChanges(lr: real, lk: real, r: real, r': real, dr: real, v: real, v': real)
    requires r' == r + dr
    ensures (-lr * r' + lk * v') - (-lr * r + lk * v) == -(lr * dr) + lk * (v' - v)
  {
    assert lr * r' == lr * r + lr * dr;
  }

  lemma CapMonotone(p: Problem, c: nat, n: nat)
    requires c < n && p.lambdaRisk >= 0.0
    ensures Cap(p, c as real) <= Cap(p, n as real - 1.0)
  {
    hide Ratio;
    RatioBelowOne(MaxAbsRows(p.sigma), 0.0);
    RiskCapMonotone(c as real, n as real - 1.0, Ratio(MaxAbsRows(p.sigma)));
    hide RiskCap;
    ScaleMonotone(p.lambdaRisk, RiskCap(c as real, Ratio(MaxAbsRows(p.sigma))),
                  RiskCap(n as real - 1.0, Ratio(MaxAbsRows(p.sigma))));
  }

  lemma RiskCapMonotone(c: real, d: real, s: real)
    requires c <= d && s >= 0.0
    ensures RiskCap(c, s) <= RiskCap(d, s)
  {
    assert (d - c) * s >= 0.0;
  }

  lemma CardinalityStep(p: Problem, c: nat)
    requires p.lambdaCardinality >= 0.0
    ensures c < p.k ==> CardinalityTerm(p, c + 1) <= CardinalityTerm(p, c) - p.lambdaCardinality
    ensures c >= p.k ==> CardinalityTerm(p, c) <= CardinalityTerm(p, c + 1) - p.lambdaCardinality
  {
    var lc, e, e' := p.lambdaCardinality, Excess(c as real, p.k as real), Excess((c + 1) as real, p.k as real);
    assert e' - e == 2.0 * (c as real - p.k as real) + 1.0;
    assert c < p.k ==> lc * (e - e' - 1.0) >= 0.0;
    assert c >= p.k ==> lc * (e' - e - 1.0) >= 0.0;
  }

  /** Moving one step towards k assets lowers the energy by at least λ_card - Cap(n-1). */
  lemma StepTowardsK(p: Problem, x: Selection) returns (y: Selection)
    requires p.WellFormed() && Symmetric(|p.mu|, M(p.sigma))
    requires p.lambdaReturn >= 0.0 && p.lambdaRisk >= 0.0 && p.lambdaCardinality >= 0.0
    requires |x| == |p.mu| && Count(x) != p.k
    ensures |y| == |x|
    ensures Energy(Entry(p), y) <= Energy(Entry(p), x) - (p.lambdaCardinality - Cap(p, |x| as real - 1.0))
  {
    hide Energy, Objective, CardinalityTerm, Entry, Cap;
    var n := |x|;
    CountIsSum(x);
    if Count(x) < p.k {
      var i := FindBit(x, false);
      y := x[i := true];
      ObjectiveChange(p, x, i);
      CountSelect(x, i);
      CapMonotone(p, Count(x), n);
      CardinalityStep(p, Count(x));
    } else {
      var i := FindBit(x, true);
      y := x[i := false];
      CountDrop(x, i);
      assert y[i := true] == x;
      ObjectiveChange(p, y, i);
      CapMonotone(p, Count(y), n);
      CardinalityStep(p, Count(y));
    }
    EnergyIsObjectivePlusPenalty(p, x);
    EnergyIsObjectivePlusPenalty(p, y);
  }

  lemma GainIsPositive(p: Problem, n: nat)
    requires n >= 1
    requires p.lambdaReturn >= 0.0 && p.lambdaRisk >= 0.0
    requires PenaltyCondition(n, p.lambdaReturn, p.lambdaRisk, p.lambdaCardinality)
    ensures p.lambdaCardinality >= 0.0 && Cap(p, n as real - 1.0) < p.lambdaCardinality
  {
    hide Ratio;
    RatioBelowOne(MaxAbs(p.mu), 0.0);
    RatioBelowOne(MaxAbsRows(p.sigma), 0.0);
    StrictCap(p.lambdaReturn, p.lambdaRisk, Ratio(MaxAbs(p.mu)), Ratio(MaxAbsRows(p.sigma)),
              2.0 * (n as real - 1.0) + 1.0, p.lambdaCardinality);
  }

  lemma StrictCap(lr: real, lk: real, a: real, s: real, m: real, lc: real)
    requires lr >= 0.0 && lk >= 0.0 && 0.0 <= a < 1.0 && 0.0 <= s < 1.0 && m > 0.0
    requires lc > 0.0 && lc >= lr + m * lk
    ensures lr * a + lk * (m * s) < lc
  {
    StrictScale(m, s, 1.0);
    StrictScale(lr, a, 1.0);
    StrictScale(lk, m * s, m);
  }

  /** A k-subset with the best return/risk trade-off on the normalised data. */
  ghost predicate IsBestSubset(p: Problem, x: Selection) {
    |x| == |p.mu| && Count(x) == p.k &&
    forall y: Selection :: |y| == |p.mu| && Count(y) == p.k ==> Objective(p, x) <= Objective(p, y)
  }

  /** Nonnegative weights with a large enough penalty, on a symmetric covariance. */
  ghost predicate Dominated(p: Problem) {
    && p.WellFormed() && Symmetric(|p.mu|, M(p.sigma))
    && p.lambdaReturn >= 0.0 && p.lambdaRisk >= 0.0
    && PenaltyCondition(|p.mu|, p.lambdaReturn, p.lambdaRisk, p.lambdaCardinality)
  }

  lemma MinimiserIsBestSubset(p: Problem, x: Selection)
    requires Dominated(p) && IsMinimiser(p, x)
    ensures IsBestSubset(p, x)
  {
    hide Energy, Entry, Objective, CardinalityTerm, Cap, PenaltyCondition;
    if Count(x) != p.k {
      GainIsPositive(p, |x|);
      var y := StepTowardsK(p, x);
      assert false;
    }
    EnergyIsObjectivePlusPenalty(p, x);
    forall y: Selection | |y| == |p.mu| && Count(y) == p.k
      ensures Objective(p, x) <= Objective(p, y)
    {
      EnergyIsObjectivePlusPenalty(p, y);
    }
  }

  /** With a large enough penalty the energy minimisers are exactly the best k-subsets. */
  lemma MinimisersAreBestSubsets(p: Problem)
    requires Dominated(p)
    ensures forall x: Selection :: IsMinimiser(p, x) <==> IsBestSubset(p, x)
  {
    hide Dominated, Energy, Objective, CardinalityTerm, Entry;
    var z := MinimiserOf(p);
    MinimiserIsBestSubset(p, z);
    forall x: Selection | IsMinimiser(p, x) ensures IsBestSubset(p, x) {
      MinimiserIsBestSubset(p, x);
    }
    forall x: Selection | IsBestSubset(p, x) ensures IsMinimiser(p, x) {
      BestSubsetEnergy(p, x, z);
    }
  }

  lemma BestSubsetEnergy(p: Problem, x: Selection, z: Selection)
    requires Dominated(p) && IsBestSubset(p, x) && IsBestSubset(p, z)
    ensures Energy(Entry(p), x) <= Energy(Entry(p), z)
  {
    hide Energy, Objective, CardinalityTerm, Entry, PenaltyCondition;
    EnergyIsObjectivePlusPenalty(p, x);
    EnergyIsObjectivePlusPenalty(p, z);
  }

  // ---- Necessity: a family of rank-one problems that defeats any smaller penalty ----

  /** n perfectly correlated assets with return -m and covariance m, of which k are to be selected. */
  function Adversary(n: nat, k: nat, m: real, lr: real, lk: real, lc: real): Problem {
    Problem(seq(n, _ => -m), seq(n, _ => seq(n, _ => m)), k, lr, lk, lc)
  }

  lemma {:induction false} MaxAbsUniform(s: seq<real>, m: real)
    requires s != [] && m >= 0.0
    requires forall i :: 0 <= i < |s| ==> s[i] == m || s[i] == -m
    ensures MaxAbs(s) == m
  {
    if |s| > 1 { MaxAbsUniform(s[..|s| - 1], m); }
  }

  lemma {:induction false} MaxAbsRowsUniform(rows: seq<seq<real>>, m: real)
    requires rows != [] && m >= 0.0
    requires forall i :: 0 <= i < |rows| ==> rows[i] != []
    requires forall i, j :: 0 <= i < |rows| && 0 <= j < |rows[i]| ==> rows[i][j] == m
    ensures MaxAbsRows(rows) == m
  {
    MaxAbsUniform(rows[|rows| - 1], m);
    if |rows| > 1 { MaxAbsRowsUniform(rows[..|rows| - 1], m); }
  }

  lemma QuadUniform(n: nat, h: Mat, t: real, w: Vec)
    requires forall i, j :: 0 <= i < n && 0 <= j < n ==> h(i, j) == t
    ensures Quad(n, h, w) == t * (Sum(n, w) * Sum(n, w))
  {
    hide Bilinear;
    BilinearLinearMatrix(n, h, ConstMat(0.0), t, ConstMat(1.0), w, w);
    BilinearLinearMatrix(n, ConstMat(0.0), ConstMat(0.0), 1.0, ConstMat(0.0), w, w);
    QuadOnes(n, w);
  }

  lemma AdversaryNormalised(n: nat, k: nat, m: real, lr: real, lk: real, lc: real)
    requires n >= 1 && m >= 0.0
    ensures var p := Adversary(n, k, m, lr, lk, lc);
            (forall i :: 0 <= i < n ==> MuNorm(p)(i) == -Ratio(m)) &&
            (forall i, j :: 0 <= i < n && 0 <= j < n ==> M(p.sigma)(i, j) == m && SigmaNorm(p)(i, j) == Ratio(m))
  {
    hide MaxAbs, MaxAbsRows;
    var p := Adversary(n, k, m, lr, lk, lc);
    MaxAbsUniform(p.mu, m);
    MaxAbsRowsUniform(p.sigma, m);
    DivNegated(m, m + SCALE_FLOOR);
    assert forall i :: 0 <= i < n ==> V(p.mu)(i) == -m;
    assert forall i, j :: 0 <= i < n && 0 <= j < n ==> M(p.sigma)(i, j) == m;
  }

  lemma AdversaryIsDocumented(n: nat, k: nat, m: real, lr: real, lk: real, lc: real)
    requires 1 <= k <= n && m >= 0.0
    ensures Documented(Adversary(n, k, m, lr, lk, lc))
  {
    hide Quad, MuNorm, SigmaNorm, Ratio;
    var p := Adversary(n, k, m, lr, lk, lc);
    AdversaryNormalised(n, k, m, lr, lk, lc);
    forall w: Vec ensures Quad(n, M(p.sigma), w) >= 0.0 {
      QuadUniform(n, M(p.sigma), m, w);
      var s := Sum(n, w);
      assert s * s >= 0.0;
    }
  }

  /** On uniform data the energy depends on the count alone. */
  lemma AdversaryEnergy(n: nat, k: nat, m: real, lr: real, lk: real, lc: real, x: Selection)
    requires n >= 1 && m >= 0.0 && |x| == n
    ensures Energy(Entry(Adversary(n, k, m, lr, lk, lc)), x) == UniformEnergy(k, Ratio(m), lr, lk, lc, Count(x) as real)
  {
    hide MuNorm, SigmaNorm, Ratio, Energy, Entry, Objective;
    var p := Adversary(n, k, m, lr, lk, lc);
    AdversaryNormalised(n, k, m, lr, lk, lc);
    EnergyIsObjectivePlusPenalty(p, x);
    AdversaryObjective(n, k, m, lr, lk, lc, x);
  }

  lemma AdversaryObjective(n: nat, k: nat, m: real, lr: real, lk: real, lc: real, x: Selection)
    requires n >= 1 && m >= 0.0 && |x| == n
    ensures var c := Count(x) as real;
            Objective(Adversary(n, k, m, lr, lk, lc), x) == Ratio(m) * (lr * c + lk * (c * c))
  {
    hide Quad, MuNorm, SigmaNorm, Ratio;
    var p, w, c, t := Adversary(n, k, m, lr, lk, lc), B(x), Count(x) as real, Ratio(m);
    AdversaryNormalised(n, k, m, lr, lk, lc);
    CountIsSum(x);
    SumScale(n, Times(MuNorm(p), w), -t, w);
    QuadUniform(n, SigmaNorm(p), t, w);
    UniformObjective(lr, lk, t, c);
  }

  function UniformEnergy(k: nat, t: real, lr: real, lk: real, lc: real, c: real): real {
    t * (lr * c + lk * (c * c)) + lc * Excess(c, k as real)
  }

  lemma UniformObjective(lr: real, lk: real, t: real, c: real)
    ensures -lr * (-t * c) + lk * (t * (c * c)) == t * (lr * c + lk * (c * c))
  {
  }

  /** Dropping one of k uniform assets: the penalty against the saved risk and (negative) return. */
  lemma DroppingOne(k: nat, t: real, lr: real, lk: real, lc: real)
    ensures UniformEnergy(k, t, lr, lk, lc, k as real) - UniformEnergy(k, t, lr, lk, lc, k as real - 1.0)
         == t * (lr + (2.0 * (k as real - 1.0) + 1.0) * lk) - lc
  {
    DroppingOneReal(k as real, t, lr, lk, lc);
  }

  lemma DroppingOneReal(c: real, t: real, lr: real, lk: real, lc: real)
    ensures (t * (lr * c + lk * (c * c)) + lc * Excess(c, c))
            - (t * (lr * (c - 1.0) + lk * ((c - 1.0) * (c - 1.0))) + lc * Excess(c - 1.0, c))
         == t * (lr + (2.0 * (c - 1.0) + 1.0) * lk) - lc
  {
    assert Excess(c - 1.0, c) == Excess(c, c) + 1.0;
    assert (c - 1.0) * (c - 1.0) == c * c - (2.0 * (c - 1.0) + 1.0);
    var q, e := c * c, 2.0 * (c - 1.0) + 1.0;
    assert lr * (c - 1.0) + lk * (q - e) == (lr * c + lk * q) - (lr + e * lk);
    var u, d := lr * c + lk * q, lr + e * lk;
    assert t * (u - d) == t * u - t * d;
  }

  /** A minimiser of the adversary that misses the target, whenever the penalty is too small for k. */
  lemma PenaltyCanFail(n: nat, k: nat, lr: real, lk: real, lc: real) returns (p: Problem, x: Selection)
    requires 1 <= k <= n && lr >= 0.0 && lk >= 0.0 && lc >= 0.0
    requires !PenaltyCondition(k, lr, lk, lc)
    ensures UsesWeights(p, n, lr, lk, lc) && p.k == k
    ensures IsMinimiser(p, x) && Count(x) != k
  {
    hide Energy, Entry, Ratio, Documented;
    var a := lr + (2.0 * (k as real - 1.0) + 1.0) * lk;
    var m := if a <= lc then 0.0 else (lc * SCALE_FLOOR + 1.0) / (a - lc);
    ScaleMonotone(2.0 * (k as real - 1.0) + 1.0, 0.0, lk);
    TightRatio(a, lc, m);
    p := Adversary(n, k, m, lr, lk, lc);
    AdversaryIsDocumented(n, k, m, lr, lk, lc);
    x := MinimiserOf(p);
    if Count(x) == k {
      x := DropFromTarget(n, k, m, lr, lk, lc, x);
    }
  }

  /** Where dropping is free, a selection of the target size is not the only minimiser. */
  lemma DropFromTarget(n: nat, k: nat, m: real, lr: real, lk: real, lc: real, x: Selection) returns (y: Selection)
    requires 1 <= k <= n && m >= 0.0
    requires Ratio(m) * (lr + (2.0 * (k as real - 1.0) + 1.0) * lk) >= lc
    requires IsMinimiser(Adversary(n, k, m, lr, lk, lc), x) && Count(x) == k
    ensures IsMinimiser(Adversary(n, k, m, lr, lk, lc), y) && Count(y) != k
  {
    hide Energy, Entry, Ratio, UniformEnergy;
    var p := Adversary(n, k, m, lr, lk, lc);
    var i := FindBit(x, true);
    y := x[i := false];
    CountDrop(x, i);
    AdversaryEnergy(n, k, m, lr, lk, lc, x);
    AdversaryEnergy(n, k, m, lr, lk, lc, y);
    DroppingOne(k, Ratio(m), lr, lk, lc);
    assert Energy(Entry(p), y) <= Energy(Entry(p), x);
  }

  /** The scale m at which dropping an asset does not cost energy. */
  lemma TightRatio(a: real, lc: real, m: real)
    requires a >= 0.0 && lc >= 0.0 && (lc == 0.0 || a > lc)
    requires m == if a <= lc then 0.0 else (lc * SCALE_FLOOR + 1.0) / (a - lc)
    ensures m >= 0.0 && Ratio(m) * a >= lc
  {
    if a > lc {
      var d, e := a - lc, lc * SCALE_FLOOR + 1.0;
      assert m * d == e;
      DivMonotone(0.0, e, d);
      assert m * a - lc * (m + SCALE_FLOOR) == 1.0;
      assert (m * a) / (m + SCALE_FLOOR) == Ratio(m) * a;
      DivMonotone(lc * (m + SCALE_FLOOR), m * a, m + SCALE_FLOOR);
    } else {
      assert Ratio(0.0) == 0.0;
    }
  }

  lemma MinimiserOf(p: Problem) returns (x: Selection)
    ensures IsMinimiser(p, x)
  {
    hide Energy, Entry;
    var energy: Selection -> real := y => Energy(Entry(p), y);
    x := MinimiserExists(|p.mu|, energy);
    forall y: Selection | |y| == |p.mu| ensures Energy(Entry(p), x) <= Energy(Entry(p), y) {
      assert energy(x) <= energy(y);
    }
  }

  // ---- Sufficiency for a given target ----

  /** What removing asset i from x does to the objective, with the sign turned. */
  function Burden(p: Problem, x: Selection): Vec {
    i => -p.lambdaReturn * MuNorm(p)(i)
         + p.lambdaRisk * (2.0 * Apply(|x|, SigmaNorm(p), B(x))(i) - SigmaNorm(p)(i, i))
  }

  lemma RemovalChange(p: Problem, x: Selection, i: nat)
    requires p.SquareCovariance() && Symmetric(|p.mu|, M(p.sigma))
    requires i < |x| == |p.mu| && x[i]
    ensures Objective(p, x) == Objective(p, x[i := false]) + Burden(p, x)(i)
  {
    hide Quad, MuNorm, SigmaNorm, Dot, Bilinear;
    var n, y, mu, s := |x|, x[i := false], MuNorm(p), SigmaNorm(p);
    assert y[i := true] == x;
    SigmaNormSymmetric(p);
    DotChange(mu, y, i);
    DotChange(Row(s, i), y, i);
    JoinChange(n, s, y, i);
    var v, v' := Quad(n, s, B(x)), Quad(n, s, B(y));
    assert v - v' == 2.0 * Dot(n, Row(s, i), B(x)) - s(i, i);
    CombineChanges(p.lambdaReturn, p.lambdaRisk, Dot(n, mu, B(y)), Dot(n, mu, B(x)), mu(i), v', v);
  }

  /** The normalised covariance stays positive semi-definite. */
  lemma SigmaNormSemidefinite(p: Problem, w: Vec)
    requires PositiveSemidefinite(|p.mu|, M(p.sigma))
    ensures Quad(|p.mu|, SigmaNorm(p), w) >= 0.0
  {
    hide Quad, Bilinear, CovarianceScale;
    var n, t := |p.mu|, 1.0 / CovarianceScale(p);
    forall i, j | 0 <= i < n && 0 <= j < n
      ensures SigmaNorm(p)(i, j) == ConstMat(0.0)(i, j) + t * M(p.sigma)(i, j)
    {
      OverScale(M(p.sigma)(i, j), CovarianceScale(p));
    }
    BilinearLinearMatrix(n, SigmaNorm(p), ConstMat(0.0), t, M(p.sigma), w, w);
    BilinearLinearMatrix(n, ConstMat(0.0), ConstMat(0.0), 1.0, ConstMat(0.0), w, w);
    QuadIsBilinear(n, SigmaNorm(p), w);
    QuadIsBilinear(n, M(p.sigma), w);
    assert Quad(n, M(p.sigma), w) >= 0.0 && t >= 0.0;
    ScaleMonotone(t, 0.0, Quad(n, M(p.sigma), w));
  }

  lemma OverScale(x: real, d: real)
    requires d > 0.0
    ensures x / d == 0.0 + (1.0 / d) * x
  {
  }

  /** The most that removing the right asset can cost. */
  ghost function RemovalCap(p: Problem): real {
    p.lambdaReturn * Ratio(MaxAbs(p.mu)) + p.lambdaRisk * Ratio(MaxAbsRows(p.sigma))
  }

  /** The burdens of the selected assets sum to at least -c·cap: the covariance is positive semi-definite. */
  lemma BurdensSum(p: Problem, x: Selection)
    requires Documented(p) && |x| == |p.mu| && p.lambdaReturn >= 0.0 && p.lambdaRisk >= 0.0
    ensures Dot(|x|, B(x), Burden(p, x)) >= -(Count(x) as real * RemovalCap(p))
  {
    hide Quad, MuNorm, SigmaNorm, Ratio, MaxAbs, MaxAbsRows, Bilinear, Dot, Documented, Count;
    var n, w, c := |x|, B(x), Count(x) as real;
    var a, r := Ratio(MaxAbs(p.mu)), Ratio(MaxAbsRows(p.sigma));
    DocumentedParts(p);
    NormalisedBounds(p);
    SigmaNormSemidefinite(p, w);
    DotBound(x, MuNorm(p), a);
    DotBound(x, DiagonalVec(SigmaNorm(p)), r);
    BurdensSplit(p, x);
    CombineBurdens(p.lambdaReturn, p.lambdaRisk, Dot(n, MuNorm(p), w), Quad(n, SigmaNorm(p), w),
                   Dot(n, DiagonalVec(SigmaNorm(p)), w), c, a, r);
  }

  lemma DocumentedParts(p: Problem)
    requires Documented(p)
    ensures p.WellFormed() && Symmetric(|p.mu|, M(p.sigma)) && PositiveSemidefinite(|p.mu|, M(p.sigma))
  {
  }

  function DiagonalVec(m: Mat): Vec {
    i => m(i, i)
  }

  lemma BurdensSplit(p: Problem, x: Selection)
    ensures Dot(|x|, B(x), Burden(p, x))
         == -p.lambdaReturn * Dot(|x|, MuNorm(p), B(x))
            + p.lambdaRisk * (2.0 * Quad(|x|, SigmaNorm(p), B(x)) - Dot(|x|, DiagonalVec(SigmaNorm(p)), B(x)))
  {
    hide MuNorm, SigmaNorm, Apply, Burden, Times, DiagonalVec, Dot, Quad;
    var n, w, mu, s := |x|, B(x), MuNorm(p), SigmaNorm(p);
    var f, g, h := Times(mu, w), Times(w, Apply(n, s, w)), Times(DiagonalVec(s), w);
    DotAsSum(n, w, Burden(p, x));
    DotAsSum(n, mu, w);
    DotAsSum(n, DiagonalVec(s), w);
    QuadAsSum(n, s, w);
    forall i: int ensures Times(w, Burden(p, x))(i) == -p.lambdaReturn * f(i) + p.lambdaRisk * (2.0 * g(i) - h(i)) {
      BurdenAt(p, x, i);
    }
    SumOfBurdens(n, Times(w, Burden(p, x)), p.lambdaReturn, f, p.lambdaRisk, g, h);
  }

  lemma BurdenAt(p: Problem, x: Selection, i: int)
    ensures var w, s := B(x), SigmaNorm(p);
      Times(w, Burden(p, x))(i)
        == -p.lambdaReturn * Times(MuNorm(p), w)(i)
           + p.lambdaRisk * (2.0 * Times(w, Apply(|x|, s, w))(i) - Times(DiagonalVec(s), w)(i))
  {
    hide MuNorm, SigmaNorm, Apply;
    BurdenTerm(p.lambdaReturn, p.lambdaRisk, B(x)(i), MuNorm(p)(i), Apply(|x|, SigmaNorm(p), B(x))(i), SigmaNorm(p)(i, i));
  }

  lemma {:induction false} SumOfBurdens(n: nat, b: Vec, lr: real, f: Vec, lk: real, g: Vec, h: Vec)
    requires forall i :: 0 <= i < n ==> b(i) == -lr * f(i) + lk * (2.0 * g(i) - h(i))
    ensures Sum(n, b) == -lr * Sum(n, f) + lk * (2.0 * Sum(n, g) - Sum(n, h))
  {
    if n > 0 {
      SumOfBurdens(n - 1, b, lr, f, lk, g, h);
      AddBurden(lr, lk, Sum(n - 1, f), f(n - 1), 2.0 * Sum(n - 1, g) - Sum(n - 1, h), 2.0 * g(n - 1) - h(n - 1));
    }
  }

  lemma AddBurden(lr: real, lk: real, f: real, f': real, d: real, d': real)
    ensures (-lr * f + lk * d) + (-lr * f' + lk * d') == -lr * (f + f') + lk * (d + d')
  {
  }

  function Scaled(t: real, v: Vec): Vec {
    i => t * v(i)
  }

  lemma BurdenTerm(lr: real, lk: real, w: real, mu: real, a: real, d: real)
    ensures w * (-lr * mu + lk * (2.0 * a - d)) == -lr * (mu * w) + lk * (2.0 * (w * a) - d * w)
  {
    var e := 2.0 * a - d;
    assert w * (lk * e) == lk * (w * e);
  }

  lemma CombineBurdens(lr: real, lk: real, r: real, q: real, d: real, c: real, a: real, s: real)
    requires lr >= 0.0 && lk >= 0.0 && q >= 0.0
    requires r <= c * a && d <= c * s
    ensures -lr * r + lk * (2.0 * q - d) >= -(c * (lr * a + lk * s))
  {
    ScaleMonotone(lr, r, c * a);
    ScaleMonotone(lk, -(c * s), 2.0 * q - d);
    assert c * (lr * a + lk * s) == lr * (c * a) + lk * (c * s);
  }

  /** Some selected asset can go at a cost of at most the cap. */
  lemma CheapRemoval(p: Problem, x: Selection) returns (i: nat)
    requires Documented(p) && |x| == |p.mu| && p.lambdaReturn >= 0.0 && p.lambdaRisk >= 0.0
    requires Count(x) > 0
    ensures i < |x| && x[i] && Objective(p, x[i := false]) <= Objective(p, x) + RemovalCap(p)
  {
    hide Objective, Burden, RemovalCap, Documented;
    var n, w, cap, g := |x|, B(x), RemovalCap(p), Burden(p, x);
    CountIsSum(x);
    BurdensSum(p, x);
    DocumentedParts(p);
    i := HeavyTerm(n, w, g, cap, x);
    RemovalChange(p, x, i);
  }

  /** Selected terms that sum to at least -c·cap include one of at least -cap. */
  lemma HeavyTerm(n: nat, w: Vec, g: Vec, cap: real, x: Selection) returns (i: nat)
    requires n == |x| && w == B(x) && Count(x) > 0
    requires Dot(n, w, g) >= -(Count(x) as real * cap)
    ensures i < n && x[i] && g(i) >= -cap
  {
    hide Count;
    i := FindBit(x, true);
    if j: nat :| j < n && x[j] && g(j) >= -cap {
      i := j;
    } else {
      forall j: nat | j < n ensures Slack(w, g, cap)(j) >= 0.0 {
        if x[j] { assert g(j) < -cap; }
      }
      assert Slack(w, g, cap)(i) == -cap - g(i) > 0.0;
      SlackSum(n, w, g, cap, Count(x) as real, x);
      SumOneTermAtMostAll(n, Slack(w, g, cap), i);
      assert false;
    }
  }

  function Slack(w: Vec, g: Vec, cap: real): Vec {
    j => w(j) * (-cap - g(j))
  }

  lemma SlackSum(n: nat, w: Vec, g: Vec, cap: real, c: real, x: Selection)
    requires n == |x| && w == B(x) && c == Count(x) as real && Dot(n, w, g) >= -(c * cap)
    ensures Sum(n, Slack(w, g, cap)) <= 0.0
  {
    hide Slack, Scaled, Times, Count, Dot;
    CountIsSum(x);
    SlackSplits(n, w, g, cap);
    Negation(cap, c);
  }

  lemma SlackSplits(n: nat, w: Vec, g: Vec, cap: real)
    ensures Sum(n, Slack(w, g, cap)) == -cap * Sum(n, w) - Dot(n, w, g)
  {
    hide Slack, Scaled, Times, Dot;
    DotAsSum(n, w, g);
    forall j: int ensures Scaled(-cap, w)(j) == -cap * w(j) && Slack(w, g, cap)(j) == Scaled(-cap, w)(j) + -1.0 * Times(w, g)(j) {
      SlackAt(w, g, cap, j);
    }
    SumScale(n, Scaled(-cap, w), -cap, w);
    SumLinear(n, Slack(w, g, cap), Scaled(-cap, w), -1.0, Times(w, g));
  }

  lemma SlackAt(w: Vec, g: Vec, cap: real, j: int)
    ensures Scaled(-cap, w)(j) == -cap * w(j) && Slack(w, g, cap)(j) == Scaled(-cap, w)(j) + -1.0 * Times(w, g)(j)
  {
    SlackTerm(w(j), g(j), cap);
  }

  lemma SlackTerm(w: real, g: real, cap: real)
    ensures w * (-cap - g) == -cap * w + -1.0 * (w * g)
  {
  }

  /** One step towards k lowers the energy when the penalty is large enough for k. */
  lemma StepTowardsTarget(p: Problem, x: Selection) returns (y: Selection)
    requires Enforced(p) && |x| == |p.mu| && Count(x) != p.k
    ensures |y| == |x| && Energy(Entry(p), y) < Energy(Entry(p), x)
  {
    hide Energy, Objective, CardinalityTerm, Entry, Cap, RemovalCap, Documented, PenaltyCondition;
    DocumentedParts(p);
    CapsBelowPenalty(p);
    if Count(x) < p.k {
      CountIsSum(x);
      var i := FindBit(x, false);
      y := x[i := true];
      ObjectiveChange(p, x, i);
      CountSelect(x, i);
      CapMonotone(p, Count(x), p.k);
      CardinalityStep(p, Count(x));
    } else {
      var i := CheapRemoval(p, x);
      y := x[i := false];
      CountDrop(x, i);
      CardinalityStep(p, Count(y));
    }
    EnergyIsObjectivePlusPenalty(p, x);
    EnergyIsObjectivePlusPenalty(p, y);
  }

  /** A documented problem whose penalty is large enough for its own target. */
  ghost predicate Enforced(p: Problem) {
    && Documented(p) && p.lambdaReturn >= 0.0 && p.lambdaRisk >= 0.0
    && PenaltyCondition(p.k, p.lambdaReturn, p.lambdaRisk, p.lambdaCardinality)
  }

  lemma CapsBelowPenalty(p: Problem)
    requires Enforced(p)
    ensures p.lambdaCardinality > 0.0
    ensures RemovalCap(p) < p.lambdaCardinality && Cap(p, p.k as real - 1.0) < p.lambdaCardinality
  {
    hide Documented, Cap, RemovalCap;
    DocumentedParts(p);
    GainIsPositive(p, p.k);
    RemovalCapIsSmall(p);
  }

  lemma RemovalCapIsSmall(p: Problem)
    requires p.k >= 1 && p.lambdaReturn >= 0.0 && p.lambdaRisk >= 0.0
    requires PenaltyCondition(p.k, p.lambdaReturn, p.lambdaRisk, p.lambdaCardinality)
    ensures RemovalCap(p) < p.lambdaCardinality
  {
    hide Ratio;
    RatioBelowOne(MaxAbs(p.mu), 0.0);
    RatioBelowOne(MaxAbsRows(p.sigma), 0.0);
    SmallerTargetIsEasier(1, p.k, p.lambdaReturn, p.lambdaRisk, p.lambdaCardinality);
    StrictCap(p.lambdaReturn, p.lambdaRisk, Ratio(MaxAbs(p.mu)), Ratio(MaxAbsRows(p.sigma)), 1.0, p.lambdaCardinality);
  }

  /** With a penalty large enough for its target, the minimisers of a documented problem are exactly its
      best k-subsets. */
  lemma EnforcedMinimisersAreBestSubsets(p: Problem)
    requires Enforced(p)
    ensures forall x: Selection :: IsMinimiser(p, x) <==> IsBestSubset(p, x)
  {
    hide Enforced, Energy, Objective, Entry;
    var z := MinimiserOf(p);
    forall x: Selection | IsMinimiser(p, x) ensures IsBestSubset(p, x) {
      EnforcedMinimiser(p, x);
    }
    forall x: Selection | IsBestSubset(p, x) ensures IsMinimiser(p, x) {
      EqualEnergies(p, x, z);
    }
  }

  lemma EnforcedMinimiser(p: Problem, x: Selection)
    requires Enforced(p) && IsMinimiser(p, x)
    ensures IsBestSubset(p, x)
  {
    hide Energy, Entry, Objective, CardinalityTerm, PenaltyCondition, Documented;
    DocumentedParts(p);
    if Count(x) != p.k {
      var y := StepTowardsTarget(p, x);
      assert false;
    }
    forall y: Selection | |y| == |p.mu| && Count(y) == p.k
      ensures Objective(p, x) <= Objective(p, y)
    {
      EnergyIsObjectivePlusPenalty(p, x);
      EnergyIsObjectivePlusPenalty(p, y);
    }
  }

  lemma EqualEnergies(p: Problem, x: Selection, z: Selection)
    requires Enforced(p) && IsBestSubset(p, x) && IsBestSubset(p, z)
    ensures Energy(Entry(p), x) <= Energy(Entry(p), z)
  {
    hide Energy, Objective, CardinalityTerm, Entry, PenaltyCondition;
    EnergyIsObjectivePlusPenalty(p, x);
    EnergyIsObjectivePlusPenalty(p, z);
  }

  // ---- The exact conditions ----

  /** Every documented problem on n assets with target k and these weights has only k-asset minimisers. */
  ghost predicate PenaltyWorksFor(n: nat, k: nat, lr: real, lk: real, lc: real) {
    forall p: Problem, x: Selection :: UsesWeights(p, n, lr, lk, lc) && p.k == k && IsMinimiser(p, x) ==> Count(x) == k
  }

  /** For a given target, whatever the number of assets: the penalty enforces k on every documented problem
      iff it is positive and at least λ_ret + (2k-1)·λ_risk. */
  lemma TargetIsEnforcedExactlyWhen(n: nat, k: nat, lr: real, lk: real, lc: real)
    requires 1 <= k <= n && lr >= 0.0 && lk >= 0.0 && lc >= 0.0
    ensures PenaltyWorksFor(n, k, lr, lk, lc) <==> PenaltyCondition(k, lr, lk, lc)
  {
    hide Documented, PenaltyCondition, IsMinimiser;
    if PenaltyCondition(k, lr, lk, lc) {
      forall p: Problem, x: Selection | UsesWeights(p, n, lr, lk, lc) && p.k == k && IsMinimiser(p, x)
        ensures Count(x) == k
      {
        EnforcedMinimiser(p, x);
      }
    } else {
      var p, x := PenaltyCanFail(n, k, lr, lk, lc);
    }
  }

  /** For all targets at once, with nonnegative weights: iff it is positive and at least λ_ret + (2n-1)·λ_risk,
      since selecting everything is the hardest target. */
  lemma PenaltyWorksExactlyWhen(n: nat, lr: real, lk: real, lc: real)
    requires n >= 1 && lr >= 0.0 && lk >= 0.0 && lc >= 0.0
    ensures PenaltyAlwaysWorks(n, lr, lk, lc) <==> PenaltyCondition(n, lr, lk, lc)
  {
    hide Documented, PenaltyCondition, IsMinimiser;
    if PenaltyCondition(n, lr, lk, lc) {
      forall p: Problem, x: Selection | UsesWeights(p, n, lr, lk, lc) && IsMinimiser(p, x)
        ensures Count(x) == p.k
      {
        DocumentedParts(p);
        SmallerTargetIsEasier(p.k, n, lr, lk, lc);
        TargetIsEnforcedExactlyWhen(n, p.k, lr, lk, lc);
      }
    } else {
      var p, x := PenaltyCanFail(n, n, lr, lk, lc);
    }
  }

  lemma SmallerTargetIsEasier(k: nat, n: nat, lr: real, lk: real, lc: real)
    requires 1 <= k <= n && lk >= 0.0 && PenaltyCondition(n, lr, lk, lc)
    ensures PenaltyCondition(k, lr, lk, lc)
  {
    ScaleMonotone(lk, 2.0 * (k as real - 1.0) + 1.0, 2.0 * (n as real - 1.0) + 1.0);
  }

  /** The default weights 1, 1, 5 enforce a target of one or two assets and no other, so all targets only
      for one or two assets. */
  lemma DefaultWeightsEnforceUpToTwoAssets(n: nat, k: nat)
    requires 1 <= k <= n
    ensures PenaltyWorksFor(n, k, 1.0, 1.0, 5.0) <==> k <= 2
    ensures PenaltyAlwaysWorks(n, 1.0, 1.0, 5.0) <==> n <= 2
  {
    TargetIsEnforcedExactlyWhen(n, k, 1.0, 1.0, 5.0);
    PenaltyWorksExactlyWhen(n, 1.0, 1.0, 5.0);
  }
}
