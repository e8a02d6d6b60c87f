/** The documented rule of thumb for the cardinality penalty, a multiple of the largest entry of the matrix:
    exactly which multiples make every minimum-energy selection have k assets. */
module PenaltyHeuristic {
  import opened Reals
  import opened Sums
  import opened Selections
  import opened Qubo
  import opened Penalty

  /** The matrix before the penalty is added to it. */
  function Part(p: Problem): Mat {
    ObjectivePart(MuNorm(p), SigmaNorm(p), p.lambdaReturn, p.lambdaRisk)
  }

  ghost predicate PartWithin(p: Problem, e: real) {
    forall i, j :: 0 <= i < |p.mu| && 0 <= j < |p.mu| ==> -e <= Part(p)(i, j) <= e
  }

  /** The penalty is positive and at least `factor` times the largest return/risk entry. */
  ghost predicate AtLeastTimes(p: Problem, factor: real) {
    p.lambdaCardinality > 0.0 &&
    forall i, j :: 0 <= i < |p.mu| && 0 <= j < |p.mu| ==> factor * Abs(Part(p)(i, j)) <= p.lambdaCardinality
  }

  ghost predicate Applies(p: Problem, n: nat, k: nat, factor: real) {
    && Documented(p) && |p.mu| == n && p.k == k && p.lambdaReturn >= 0.0 && p.lambdaRisk >= 0.0
    && AtLeastTimes(p, factor)
  }

  /** Every documented problem on n assets with target k, nonnegative weights and a penalty chosen by the rule
      has only k-asset minimisers. */
  ghost predicate RuleEnforces(n: nat, k: nat, factor: real) {
    forall p: Problem, x: Selection :: Applies(p, n, k, factor) && IsMinimiser(p, x) ==> Count(x) == k
  }

  /** The factors that are large enough for k of n assets. */
  predicate FactorSuffices(n: nat, k: nat, factor: real) {
    factor > k as real && (k == n || factor > k as real + 1.0)
  }

  // ---- One asset joining ----

  /** What asset i adds to the matrix energy for each partner it joins. */
  function Partners(p: Problem, i: int): Vec {
    j => if j == i then 0.0 else 2.0 * p.lambdaRisk * SigmaNorm(p)(i, j)
  }

  lemma JoinEntries(p: Problem, x: Selection, i: nat)
    requires p.SquareCovariance() && Symmetric(|p.mu|, M(p.sigma))
    requires i < |x| == |p.mu| && !x[i]
    ensures Objective(p, x[i := true]) == Objective(p, x) + Part(p)(i, i) + Dot(|x|, Partners(p, i), B(x))
  {
    hide Quad, MuNorm, SigmaNorm, Dot, Partners;
    var n, y, mu, s := |x|, x[i := true], MuNorm(p), SigmaNorm(p);
    SigmaNormSymmetric(p);
    DotChange(mu, x, i);
    JoinChange(n, s, x, i);
    PartnersDot(p, x, i);
    JoinTerms(p.lambdaReturn, p.lambdaRisk, Dot(n, mu, B(x)), mu(i), Quad(n, s, B(x)), Dot(n, Row(s, i), B(x)), s(i, i));
  }

  lemma JoinTerms(lr: real, lk: real, r: real, m: real, q: real, d: real, s: real)
    ensures -lr * (r + m) + lk * (q + 2.0 * d + s) == (-lr * r + lk * q) + (-lr * m + lk * s) + 2.0 * lk * d
  {
  }

  lemma PartnersDot(p: Problem, x: Selection, i: nat)
    requires i < |x| && !x[i]
    ensures Dot(|x|, Partners(p, i), B(x)) == 2.0 * p.lambdaRisk * Dot(|x|, Row(SigmaNorm(p), i), B(x))
  {
    hide SigmaNorm;
    var t := 2.0 * p.lambdaRisk;
    forall j | 0 <= j < |x|
      ensures Times(Partners(p, i), B(x))(j) == t * Times(Row(SigmaNorm(p), i), B(x))(j)
    {
      Associate(t, SigmaNorm(p)(i, j), B(x)(j));
    }
    SumScale(|x|, Times(Partners(p, i), B(x)), t, Times(Row(SigmaNorm(p), i), B(x)));
  }

  lemma Associate(t: real, s: real, b: real)
    ensures (t * s) * b == t * (s * b)
  {
  }

  lemma PartnerEntry(p: Problem, i: nat, j: nat)
    requires p.SquareCovariance() && Symmetric(|p.mu|, M(p.sigma))
    requires i < |p.mu| && j < |p.mu| && i != j
    ensures Partners(p, i)(j) == if i < j then Part(p)(i, j) else Part(p)(j, i)
  {
    SigmaNormSymmetric(p);
    hide MuNorm, SigmaNorm;
    assert SigmaNorm(p)(i, j) == SigmaNorm(p)(j, i);
  }

  lemma PartnerWithin(p: Problem, i: nat, j: int, e: real)
    requires p.SquareCovariance() && Symmetric(|p.mu|, M(p.sigma))
    requires PartWithin(p, e) && e >= 0.0 && i < |p.mu|
    ensures -e <= Partners(p, i)(j) <= e
  {
    if 0 <= j < |p.mu| && j != i {
      PartnerEntry(p, i, j);
      hide Partners, Part;
    } else {
      assert j != i ==> M(p.sigma)(i, j) == 0.0;
      assert j != i ==> SigmaNorm(p)(i, j) == 0.0;
    }
  }

  /** An asset that joins c others changes the objective by at most (c+1) times the largest entry. */
  lemma JoinWithin(p: Problem, x: Selection, i: nat, e: real)
    requires p.SquareCovariance() && Symmetric(|p.mu|, M(p.sigma))
    requires PartWithin(p, e) && e >= 0.0 && i < |x| == |p.mu| && !x[i]
    ensures var c := Count(x) as real;
      -((c + 1.0) * e) <= Objective(p, x[i := true]) - Objective(p, x) <= (c + 1.0) * e
  {
    hide Objective, Part, Partners, Dot, Symmetric;
    forall j ensures -e <= Partners(p, i)(j) <= e {
      PartnerWithin(p, i, j, e);
    }
    DotBound(x, Partners(p, i), e);
    JoinEntries(p, x, i);
  }

  // ---- Sufficiency ----

  /** The change of the penalty from c assets to one more. */
  function PenaltyStep(p: Problem, c: nat): real {
    p.lambdaCardinality * Excursion(c, p.k)
  }

  /** (c + 1 - k)² - (c - k)² */
  function Excursion(c: int, k: int): real {
    2.0 * (c as real - k as real) + 1.0
  }

  lemma CardinalityChange(p: Problem, c: nat)
    ensures CardinalityTerm(p, c + 1) == CardinalityTerm(p, c) + PenaltyStep(p, c)
  {
    ExcessChange(c as real, p.k as real);
    ScaleSum(p.lambdaCardinality, Excess(c as real, p.k as real), Excursion(c, p.k));
  }

  lemma ExcessChange(c: real, k: real)
    ensures Excess(c + 1.0, k) == Excess(c, k) + (2.0 * (c - k) + 1.0)
  {
  }

  lemma ScaleSum(t: real, a: real, b: real)
    ensures t * (a + b) == t * a + t * b
  {
  }

  /** The largest entry the rule allows. */
  lemma LargestEntry(p: Problem, factor: real) returns (e: real)
    requires AtLeastTimes(p, factor) && factor > 0.0
    ensures e > 0.0 && factor * e == p.lambdaCardinality && PartWithin(p, e)
  {
    hide Part;
    e := p.lambdaCardinality / factor;
    Quotient(p.lambdaCardinality, factor);
    forall i, j | 0 <= i < |p.mu| && 0 <= j < |p.mu| ensures -e <= Part(p)(i, j) <= e {
      AtMostQuotient(Abs(Part(p)(i, j)), e, factor);
    }
  }

  lemma Quotient(lc: real, f: real)
    requires lc > 0.0 && f > 0.0
    ensures lc / f > 0.0 && f * (lc / f) == lc
  {
  }

  lemma AtMostQuotient(a: real, e: real, f: real)
    requires f > 0.0 && f * a <= f * e
    ensures a <= e
  {
    if a > e { StrictScale(f, e, a); }
  }

  /** Joining while too few, and leaving while too many, gains more penalty than it costs. */
  lemma AddingPays(p: Problem, c: nat, f: real, e: real)
    requires c < p.k && p.k as real < f && e > 0.0 && f * e == p.lambdaCardinality
    ensures (c as real + 1.0) * e + PenaltyStep(p, c) < 0.0
  {
    StrictScale(e, c as real + 1.0, f);
    ScaleMonotone(p.lambdaCardinality, Excursion(c, p.k), -1.0);
  }

  lemma DroppingPays(p: Problem, c: nat, f: real, e: real)
    requires 1 <= p.k <= c && p.k as real + 1.0 < f && e > 0.0 && f * e == p.lambdaCardinality
    ensures (c as real + 1.0) * e < PenaltyStep(p, c)
  {
    FactorGrows(c as real, p.k as real, f, Excursion(c, p.k));
    hide Excursion;
    StrictScale(e, c as real + 1.0, f * Excursion(c, p.k));
    Regroup(e, f, Excursion(c, p.k), p.lambdaCardinality);
  }

  lemma FactorGrows(c: real, k: real, f: real, d: real)
    requires 1.0 <= k <= c && k + 1.0 < f && d == 2.0 * (c - k) + 1.0
    ensures c + 1.0 < f * d
  {
    ScaleMonotone(c - k, 1.0, f);
    assert f * d == 2.0 * ((c - k) * f) + f;
  }

  lemma Regroup(e: real, f: real, d: real, lc: real)
    requires f * e == lc
    ensures e * (f * d) == lc * d
  {
  }

  lemma AddByRule(p: Problem, x: Selection, factor: real) returns (y: Selection)
    requires Documented(p) && AtLeastTimes(p, factor) && factor > p.k as real
    requires |x| == |p.mu| && Count(x) < p.k
    ensures |y| == |x| && Energy(Entry(p), y) < Energy(Entry(p), x)
  {
    hide Energy, Objective, CardinalityTerm, PenaltyStep, Entry, Documented, PartWithin, AtLeastTimes, Count;
    DocumentedParts(p);
    var e := LargestEntry(p, factor);
    var i := FindBit(x, false);
    y := x[i := true];
    CountSelect(x, i);
    JoinWithin(p, x, i, e);
    CardinalityChange(p, Count(x));
    AddingPays(p, Count(x), factor, e);
    EnergyIsObjectivePlusPenalty(p, x);
    EnergyIsObjectivePlusPenalty(p, y);
  }

  lemma DropByRule(p: Problem, x: Selection, factor: real) returns (y: Selection)
    requires Documented(p) && AtLeastTimes(p, factor) && factor > p.k as real + 1.0
    requires |x| == |p.mu| && Count(x) > p.k
    ensures |y| == |x| && Energy(Entry(p), y) < Energy(Entry(p), x)
  {
    hide Energy, Objective, CardinalityTerm, PenaltyStep, Entry, Documented, PartWithin, AtLeastTimes, Count;
    DocumentedParts(p);
    var e := LargestEntry(p, factor);
    var i := FindBit(x, true);
    y := x[i := false];
    CountDrop(x, i);
    assert y[i := true] == x;
    JoinWithin(p, y, i, e);
    CardinalityChange(p, Count(y));
    DroppingPays(p, Count(y), factor, e);
    EnergyIsObjectivePlusPenalty(p, x);
    EnergyIsObjectivePlusPenalty(p, y);
  }

  /** With a large enough factor every minimiser has k assets, whatever the signs of the other two weights. */
  lemma RuleMinimiser(p: Problem, x: Selection, factor: real)
    requires Documented(p) && AtLeastTimes(p, factor) && FactorSuffices(|p.mu|, p.k, factor)
    requires IsMinimiser(p, x)
    ensures Count(x) == p.k
  {
    hide Energy, Entry, Documented, AtLeastTimes;
    CountIsSum(x);
    if Count(x) < p.k {
      var y := AddByRule(p, x, factor);
      assert false;
    } else if Count(x) > p.k {
      var y := DropByRule(p, x, factor);
      assert false;
    }
  }

  // ---- Counterexamples ----

  /** A factor of at most k: perfectly correlated assets, where dropping one of k is free. */
  lemma FactorTooSmallToKeep(n: nat, k: nat, factor: real) returns (p: Problem, x: Selection)
    requires 1 <= k <= n && 0.0 < factor <= k as real
    ensures Applies(p, n, k, factor) && IsMinimiser(p, x) && Count(x) != k
  {
    hide Documented, IsMinimiser, Ratio, AtLeastTimes;
    var t := Ratio(1.0);
    var lc := factor * (2.0 * t);
    p := Adversary(n, k, 1.0, 1.0, 1.0, lc);
    AdversaryIsDocumented(n, k, 1.0, 1.0, 1.0, lc);
    AdversaryFollowsRule(n, k, factor, lc);
    x := MinimiserOf(p);
    if Count(x) == k {
      ScaleMonotone(2.0 * t, factor, k as real);
      x := DropFromTarget(n, k, 1.0, 1.0, 1.0, lc, x);
    }
  }

  lemma UnitRatio()
    ensures Ratio(1.0) > 0.0
  {
  }

  lemma AdversaryFollowsRule(n: nat, k: nat, factor: real, lc: real)
    requires 1 <= n && factor > 0.0 && lc == factor * (2.0 * Ratio(1.0))
    ensures lc > 0.0 && AtLeastTimes(Adversary(n, k, 1.0, 1.0, 1.0, lc), factor)
  {
    hide Ratio, Part;
    UnitRatio();
    var p := Adversary(n, k, 1.0, 1.0, 1.0, lc);
    StrictScale(factor, 0.0, 2.0 * Ratio(1.0));
    forall i, j | 0 <= i < n && 0 <= j < n ensures factor * Abs(Part(p)(i, j)) <= lc {
      AdversaryPart(n, k, lc, i, j);
      ScaleMonotone(factor, Abs(Part(p)(i, j)), 2.0 * Ratio(1.0));
    }
  }

  lemma AdversaryPart(n: nat, k: nat, lc: real, i: nat, j: nat)
    requires i < n && j < n
    ensures Abs(Part(Adversary(n, k, 1.0, 1.0, 1.0, lc))(i, j)) <= 2.0 * Ratio(1.0)
  {
    hide MuNorm, SigmaNorm, Ratio;
    UnitRatio();
    AdversaryNormalised(n, k, 1.0, 1.0, 1.0, lc);
  }

  /** n assets of equal risk whose covariances are as negative as they can be: selecting one more lowers
      the risk of each that is selected already. */
  function Hedged(n: nat, k: nat, factor: real): Problem
    requires n >= 2
  {
    var b := SCALE_FLOOR / (n as real - 1.0);
    Problem(seq(n, _ => SCALE_FLOOR), seq(n, i => seq(n, j => if i == j then SCALE_FLOOR else -b)), k,
            n as real + 1.0, n as real - 1.0, factor)
  }

  lemma HedgedData(n: nat, k: nat, factor: real)
    requires n >= 2
    ensures var p, b := Hedged(n, k, factor), SCALE_FLOOR / (n as real - 1.0);
      && 0.0 < b <= SCALE_FLOOR && b * (n as real - 1.0) == SCALE_FLOOR && p.SquareCovariance()
      && (forall i :: 0 <= i < n ==> V(p.mu)(i) == SCALE_FLOOR)
      && (forall i, j :: 0 <= i < n && 0 <= j < n ==> M(p.sigma)(i, j) == if i == j then SCALE_FLOOR else -b)
  {
    Share(SCALE_FLOOR, n as real - 1.0);
  }

  lemma Share(a: real, d: real)
    requires a > 0.0 && d >= 1.0
    ensures 0.0 < a / d <= a && a / d * d == a
  {
    if a / d > a { StrictScale(d, a, a / d); }
    ScaleMonotone(a, 1.0, d);
  }

  lemma {:induction false} MaxAbsRowsAtMost(rows: seq<seq<real>>, m: real)
    requires m >= 0.0 && forall i, j :: 0 <= i < |rows| && 0 <= j < |rows[i]| ==> Abs(rows[i][j]) <= m
    ensures MaxAbsRows(rows) <= m
  {
    if rows != [] { MaxAbsRowsAtMost(rows[..|rows| - 1], m); }
  }

  /** The largest return and the largest covariance are both the scale floor. */
  lemma HedgedScales(n: nat, k: nat, factor: real)
    requires n >= 2
    ensures var p := Hedged(n, k, factor); MaxAbs(p.mu) == SCALE_FLOOR && MaxAbsRows(p.sigma) == SCALE_FLOOR
  {
    hide MaxAbs, MaxAbsRows;
    var p := Hedged(n, k, factor);
    HedgedData(n, k, factor);
    MaxAbsUniform(p.mu, SCALE_FLOOR);
    MaxAbsRowsAtMost(p.sigma, SCALE_FLOOR);
    assert Abs(p.sigma[0][0]) == SCALE_FLOOR;
  }

  /** Every entry on or above the diagonal is -1. */
  lemma HedgedPart(n: nat, k: nat, factor: real, i: nat, j: nat)
    requires n >= 2 && i < n && j < n
    ensures Part(Hedged(n, k, factor))(i, j) == if i <= j then -1.0 else 0.0
  {
    hide MaxAbs, MaxAbsRows;
    var p, b := Hedged(n, k, factor), SCALE_FLOOR / (n as real - 1.0);
    HedgedData(n, k, factor);
    HedgedScales(n, k, factor);
    assert MuNorm(p)(i) == 0.5;
    assert SigmaNorm(p)(i, i) == 0.5;
    assert i != j ==> SigmaNorm(p)(i, j) == -b / (SCALE_FLOOR + SCALE_FLOOR);
    HedgedEntries(n as real - 1.0, b);
  }

  lemma HedgedEntries(d: real, b: real)
    requires b * d == SCALE_FLOOR
    ensures d * 2.0 * (-b / (SCALE_FLOOR + SCALE_FLOOR)) == -1.0
    ensures -(d + 2.0) * 0.5 + d * 0.5 == -1.0
  {
    assert -b / (SCALE_FLOOR + SCALE_FLOOR) == -b * 50000000.0;
  }

  lemma HedgedIsDocumented(n: nat, k: nat, factor: real)
    requires n >= 2 && 1 <= k <= n
    ensures Documented(Hedged(n, k, factor))
  {
    hide Quad;
    var p := Hedged(n, k, factor);
    HedgedData(n, k, factor);
    forall w: Vec ensures Quad(n, M(p.sigma), w) >= 0.0 {
      HedgedQuad(n, M(p.sigma), SCALE_FLOOR / (n as real - 1.0), w);
    }
  }

  /** b·(n·Σwᵢ² - (Σwᵢ)²) is never negative. */
  lemma HedgedQuad(n: nat, m: Mat, b: real, w: Vec)
    requires n >= 1 && b >= 0.0
    requires forall i, j :: 0 <= i < n && 0 <= j < n ==> m(i, j) == if i == j then b * (n as real - 1.0) else -b
    ensures Quad(n, m, w) >= 0.0
  {
    hide Bilinear, Dot;
    var d := Diagonal(Const(b * n as real));
    assert b * (n as real - 1.0) == b * n as real - b;
    BilinearLinearMatrix(n, m, d, -b, ConstMat(1.0), w, w);
    QuadOnes(n, w);
    ScaledSquares(n, b * n as real, w);
    SquareOfSum(n, w);
    ScaleMonotone(b, Sum(n, w) * Sum(n, w), n as real * Dot(n, w, w));
    Associate(b, n as real, Dot(n, w, w));
  }

  lemma ScaledSquares(n: nat, t: real, w: Vec)
    ensures Bilinear(n, Diagonal(Const(t)), w, w) == t * Dot(n, w, w)
  {
    hide Bilinear;
    BilinearDiagonal(n, Const(t), w, w);
    forall i ensures Times(Times(Const(t), w), w)(i) == t * Times(w, w)(i) {
      Associate(t, w(i), w(i));
    }
    SumScale(n, Times(Times(Const(t), w), w), t, Times(w, w));
  }

  lemma HedgedFollowsRule(n: nat, k: nat, factor: real)
    requires n >= 2 && factor > 0.0
    ensures AtLeastTimes(Hedged(n, k, factor), factor)
  {
    hide Part;
    var p := Hedged(n, k, factor);
    forall i, j | 0 <= i < n && 0 <= j < n ensures factor * Abs(Part(p)(i, j)) <= p.lambdaCardinality {
      HedgedPart(n, k, factor, i, j);
      ScaleMonotone(factor, Abs(Part(p)(i, j)), 1.0);
    }
  }

  lemma HedgedJoin(n: nat, k: nat, factor: real, x: Selection, i: nat)
    requires 2 <= n == |x| && i < n && !x[i]
    ensures Objective(Hedged(n, k, factor), x[i := true]) == Objective(Hedged(n, k, factor), x) - 1.0 - Count(x) as real
  {
    hide Objective, Part, Partners, Dot;
    var p := Hedged(n, k, factor);
    HedgedData(n, k, factor);
    JoinEntries(p, x, i);
    HedgedPart(n, k, factor, i, i);
    forall j: nat | j < n && j != i ensures Partners(p, i)(j) == -1.0 {
      PartnerEntry(p, i, j);
      HedgedPart(n, k, factor, i, j);
      HedgedPart(n, k, factor, j, i);
    }
    MinusCount(x, Partners(p, i), i);
  }

  lemma MinusCount(x: Selection, v: Vec, i: nat)
    requires i < |x| && !x[i] && forall j :: 0 <= j < |x| && j != i ==> v(j) == -1.0
    ensures Dot(|x|, v, B(x)) == -(Count(x) as real)
  {
    SumScale(|x|, Times(v, B(x)), -1.0, B(x));
    CountIsSum(x);
  }

  /** A factor of at most k + 1: hedged assets, where one asset more than k is free. */
  lemma FactorTooSmallToStop(n: nat, k: nat, factor: real) returns (p: Problem, x: Selection)
    requires 1 <= k < n && 0.0 < factor <= k as real + 1.0
    ensures Applies(p, n, k, factor) && IsMinimiser(p, x) && Count(x) != k
  {
    hide Documented, AtLeastTimes, IsMinimiser;
    p := Hedged(n, k, factor);
    HedgedIsDocumented(n, k, factor);
    HedgedFollowsRule(n, k, factor);
    x := MinimiserOf(p);
    if Count(x) == k {
      x := JoinToTarget(n, k, factor, x);
    }
  }

  lemma JoinToTarget(n: nat, k: nat, factor: real, x: Selection) returns (y: Selection)
    requires 1 <= k < n && 0.0 < factor <= k as real + 1.0
    requires IsMinimiser(Hedged(n, k, factor), x) && Count(x) == k
    ensures IsMinimiser(Hedged(n, k, factor), y) && Count(y) != k
  {
    hide Energy, Entry, Objective, CardinalityTerm, Documented;
    var p := Hedged(n, k, factor);
    HedgedIsDocumented(n, k, factor);
    DocumentedParts(p);
    var i := FindBit(x, false);
    y := x[i := true];
    CountSelect(x, i);
    HedgedJoin(n, k, factor, x, i);
    CardinalityChange(p, k);
    assert PenaltyStep(p, k) == factor;
    EnergyIsObjectivePlusPenalty(p, x);
    EnergyIsObjectivePlusPenalty(p, y);
    assert Energy(Entry(p), y) <= Energy(Entry(p), x);
  }

  // ---- The exact factors ----

  /** A penalty chosen as a multiple of the largest return/risk entry enforces k of n assets on every documented
      problem iff the factor exceeds k and, unless all assets are to be selected, k + 1. */
  lemma FactorEnforcesExactlyWhen(n: nat, k: nat, factor: real)
    requires 1 <= k <= n && factor > 0.0
    ensures RuleEnforces(n, k, factor) <==> FactorSuffices(n, k, factor)
  {
    hide Documented, AtLeastTimes, IsMinimiser;
    if FactorSuffices(n, k, factor) {
      forall p: Problem, x: Selection | Applies(p, n, k, factor) && IsMinimiser(p, x) ensures Count(x) == k {
        RuleMinimiser(p, x, factor);
      }
    } else if factor <= k as real {
      var p, x := FactorTooSmallToKeep(n, k, factor);
    } else {
      var p, x := FactorTooSmallToStop(n, k, factor);
    }
  }

  /** The documented factor of five enforces targets of up to three assets, four only of four, and no more. */
  lemma FiveTimesTheLargestEntry(n: nat, k: nat)
    requires 1 <= k <= n
    ensures RuleEnforces(n, k, 5.0) <==> k <= 3 || (k == 4 && n == 4)
  {
    hide RuleEnforces;
    FactorEnforcesExactlyWhen(n, k, 5.0);
  }

  /** One factor for every target: iff it exceeds the number of assets. */
  lemma FactorForEveryTarget(n: nat, factor: real)
    requires n >= 1 && factor > 0.0
    ensures (forall k :: 1 <= k <= n ==> RuleEnforces(n, k, factor)) <==> factor > n as real
  {
    hide RuleEnforces;
    FactorEnforcesExactlyWhen(n, n, factor);
    forall k | 1 <= k <= n ensures factor > n as real ==> RuleEnforces(n, k, factor) {
      FactorEnforcesExactlyWhen(n, k, factor);
    }
  }
}
