/** The QUBO matrix of the asset selection problem and the energy it encodes. */
module Qubo {
  import opened Reals
  import opened Sums
  import opened Selections

  /** A selection problem: returns, covariances, target size and penalty weights. */
  datatype Problem = Problem(mu: seq<real>, sigma: seq<seq<real>>, k: int,
                             lambdaReturn: real, lambdaRisk: real, lambdaCardinality: real)
  {
    predicate SquareCovariance() {
      |sigma| == |mu| && forall i :: 0 <= i < |sigma| ==> |sigma[i]| == |mu|
    }

    /** The inputs the builder accepts. */
    predicate WellFormed() {
      SquareCovariance() && 1 <= k <= |mu|
    }
  }

  const SCALE_FLOOR := 0.00000001

  function MaxAbs(s: seq<real>): (m: real)
    ensures m >= 0.0
    ensures forall i :: 0 <= i < |s| ==> Abs(s[i]) <= m
    ensures s != [] ==> exists i :: 0 <= i < |s| && m == Abs(s[i])
  {
    if s == [] then 0.0
    else
      var rest := MaxAbs(s[..|s| - 1]);
      Max(rest, Abs(s[|s| - 1]))
  }

  function MaxAbsRows(rows: seq<seq<real>>): (m: real)
    ensures m >= 0.0
    ensures forall i, j :: 0 <= i < |rows| && 0 <= j < |rows[i]| ==> Abs(rows[i][j]) <= m
  {
    if rows == [] then 0.0
    else Max(MaxAbsRows(rows[..|rows| - 1]), MaxAbs(rows[|rows| - 1]))
  }

  function ReturnScale(p: Problem): (r: real)
    ensures r > 0.0
  {
    MaxAbs(p.mu) + SCALE_FLOOR
  }

  function CovarianceScale(p: Problem): (r: real)
    ensures r > 0.0
  {
    MaxAbsRows(p.sigma) + SCALE_FLOOR
  }

  /** Normalised returns and covariances. */
  function MuNorm(p: Problem): Vec {
    i => V(p.mu)(i) / ReturnScale(p)
  }

  function SigmaNorm(p: Problem): Mat {
    (i, j) => M(p.sigma)(i, j) / CovarianceScale(p)
  }

  function Normalised(p: Problem): (s: seq<real>)
    ensures |s| == |p.mu| && forall i :: 0 <= i < |s| ==> s[i] == MuNorm(p)(i)
  {
    seq(|p.mu|, i requires 0 <= i < |p.mu| => MuNorm(p)(i))
  }

  /** The upper-triangular matrix for given returns, risks, target size and weights. */
  function UpperTriangle(mu: Vec, sigma: Mat, k: real, lr: real, lk: real, lc: real): Mat {
    (i, j) =>
      if i == j then -lr * mu(i) + lk * sigma(i, i) + lc * (1.0 - 2.0 * k)
      else if i < j then lk * 2.0 * sigma(i, j) + lc * 2.0
      else 0.0
  }

  /** The entries of the matrix after the three passes. */
  function Entry(p: Problem): Mat {
    UpperTriangle(MuNorm(p), SigmaNorm(p), p.k as real, p.lambdaReturn, p.lambdaRisk, p.lambdaCardinality)
  }

  datatype BuildOutcome = Built(matrix: array2<real>) | WrongShape | CardinalityOutOfRange

  /** First pass: -λ_ret·μ̂ᵢ on the diagonal. */
  method AddReturnPass(q: array2<real>, mu: seq<real>, lambda: real)
    requires q.Length0 == q.Length1 == |mu|
    modifies q
    ensures forall i, j :: 0 <= i < |mu| && 0 <= j < |mu| ==>
      q[i, j] == old(q[i, j]) + if i == j then -lambda * mu[i] else 0.0
  {
    for a := 0 to |mu|
      invariant forall i, j :: 0 <= i < |mu| && 0 <= j < |mu| ==>
        q[i, j] == old(q[i, j]) + if i == j && i < a then -lambda * mu[i] else 0.0
    {
      q[a, a] := q[a, a] - lambda * mu[a];
    }
  }

  /** Second and third pass: `diagonal(i)` on the diagonal, `pair(i, j)` above it. */
  method AddUpperPass(q: array2<real>, n: nat, diagonal: Vec, pair: Mat)
    requires q.Length0 == q.Length1 == n
    modifies q
    ensures forall i, j :: 0 <= i < n && 0 <= j < n ==>
      q[i, j] == old(q[i, j]) + if i == j then diagonal(i) else if i < j then pair(i, j) else 0.0
  {
    for a := 0 to n
      invariant forall i, j :: 0 <= i < n && 0 <= j < n ==>
        q[i, j] == old(q[i, j]) +
          if i == j && i < a then diagonal(i) else if i < j && i < a then pair(i, j) else 0.0
    {
      q[a, a] := q[a, a] + diagonal(a);
      for b := a + 1 to n
        invariant forall i, j :: 0 <= i < n && 0 <= j < n ==>
          q[i, j] == old(q[i, j]) +
            if i == j && i <= a then diagonal(i)
            else if i < j && (i < a || (i == a && j < b)) then pair(i, j) else 0.0
      {
        q[a, b] := q[a, b] + pair(a, b);
      }
    }
  }

  /** Fills an n×n buffer in three passes: return, risk, cardinality penalty. */
  method BuildMatrix(p: Problem) returns (outcome: BuildOutcome)
    ensures outcome.WrongShape? <==> !p.SquareCovariance()
    ensures outcome.CardinalityOutOfRange? <==> p.SquareCovariance() && !(1 <= p.k <= |p.mu|)
    ensures outcome.Built? ==>
      outcome.matrix.Length0 == outcome.matrix.Length1 == |p.mu| &&
      forall i, j :: 0 <= i < |p.mu| && 0 <= j < |p.mu| ==> outcome.matrix[i, j] == Entry(p)(i, j)
  {
    var n := |p.mu|;
    if !p.SquareCovariance() { return WrongShape; }
    if !(1 <= p.k <= n) { return CardinalityOutOfRange; }
    var mu := Normalised(p);
    var sigma, lk, lc, k := SigmaNorm(p), p.lambdaRisk, p.lambdaCardinality, p.k as real;
    var q := new real[n, n]((i, j) => 0.0);
    AddReturnPass(q, mu, p.lambdaReturn);
    AddUpperPass(q, n, i => lk * sigma(i, i), (i, j) => lk * 2.0 * sigma(i, j));
    AddUpperPass(q, n, i => lc * (1.0 - 2.0 * k), (i, j) => lc * 2.0);
    return Built(q);
  }

  /** xᵀQx for a binary vector x. */
  function Energy(q: Mat, x: Selection): real {
    Quad(|x|, q, B(x))
  }

  /** The return/risk trade-off on the normalised data: -λ_ret·Σμ̂ᵢxᵢ + λ_risk·Σᵢⱼσ̂ᵢⱼxᵢxⱼ. */
  function Objective(p: Problem, x: Selection): real {
    -p.lambdaReturn * Dot(|x|, MuNorm(p), B(x)) + p.lambdaRisk * Quad(|x|, SigmaNorm(p), B(x))
  }

  /** (Σxᵢ - k)² - k² */
  function Excess(c: real, k: real): real {
    (c - k) * (c - k) - k * k
  }

  /** λ_card·((c - k)² - k²) for a selection of c assets. */
  function CardinalityTerm(p: Problem, c: int): real {
    p.lambdaCardinality * Excess(c as real, p.k as real)
  }

  lemma SigmaNormSymmetric(p: Problem)
    requires Symmetric(|p.mu|, M(p.sigma))
    ensures Symmetric(|p.mu|, SigmaNorm(p))
  {
    forall i, j | 0 <= i < |p.mu| && 0 <= j < |p.mu|
      ensures SigmaNorm(p)(i, j) == SigmaNorm(p)(j, i)
    {
      assert M(p.sigma)(i, j) == M(p.sigma)(j, i);
    }
  }

  /** Folding a symmetric matrix into its upper triangle: the diagonal once, each pair twice. */
  function Fold(s: Mat): Mat {
    (i, j) => if i == j then s(i, i) else if i < j then 2.0 * s(i, j) else 0.0
  }

  lemma FoldKeepsForm(n: nat, s: Mat, w: Vec)
    requires Symmetric(n, s)
    ensures Quad(n, Fold(s), w) == Quad(n, s, w)
  {
    var d: Mat := (i, j) => Fold(s)(i, j) - s(i, j);
    QuadAntisymmetric(n, d, w);
    BilinearLinearMatrix(n, Fold(s), s, 1.0, d, w, w);
  }

  /** For binary w the diagonal is linear. */
  lemma DiagonalIsLinear(n: nat, d: Vec, w: Vec)
    requires forall i :: 0 <= i < n ==> w(i) == 0.0 || w(i) == 1.0
    ensures Quad(n, Diagonal(d), w) == Dot(n, d, w)
  {
    BilinearDiagonal(n, d, w, w);
    SumEqual(n, Times(Times(d, w), w), Times(d, w));
  }

  /** The cardinality part of the matrix, for weight one. */
  function PenaltyPart(k: real): Mat {
    (i, j) => if i == j then 1.0 - 2.0 * k else if i < j then 2.0 else 0.0
  }

  lemma PenaltyForm(n: nat, k: real, w: Vec)
    requires forall i :: 0 <= i < n ==> w(i) == 0.0 || w(i) == 1.0
    ensures Quad(n, PenaltyPart(k), w) == Excess(Sum(n, w), k)
  {
    var a, d := Fold(ConstMat(1.0)), Diagonal(Const(1.0));
    assert forall i, j :: a(i, j) == if i == j then 1.0 else if i < j then 2.0 else 0.0;
    assert forall i, j :: d(i, j) == if i == j then 1.0 else 0.0;
    BilinearLinearMatrix(n, PenaltyPart(k), a, -2.0 * k, d, w, w);
    hide Quad;
    FoldKeepsForm(n, ConstMat(1.0), w);
    QuadOnes(n, w);
    DiagonalIsLinear(n, Const(1.0), w);
    SumEqual(n, Times(Const(1.0), w), w);
  }

  /** The return and risk part of the matrix. */
  function ObjectivePart(mu: Vec, sigma: Mat, lr: real, lk: real): Mat {
    (i, j) => if i == j then -lr * mu(i) + lk * sigma(i, i) else if i < j then lk * 2.0 * sigma(i, j) else 0.0
  }

  function Negated(t: real, v: Vec): Vec {
    i => -t * v(i)
  }

  lemma ObjectiveForm(n: nat, mu: Vec, sigma: Mat, lr: real, lk: real, w: Vec)
    requires Symmetric(n, sigma)
    requires forall i :: 0 <= i < n ==> w(i) == 0.0 || w(i) == 1.0
    ensures Quad(n, ObjectivePart(mu, sigma, lr, lk), w) == -lr * Dot(n, mu, w) + lk * Quad(n, sigma, w)
  {
    hide Quad, Dot, Bilinear, Fold, ObjectivePart, Diagonal, Symmetric, Times, Negated;
    var h, a, b := ObjectivePart(mu, sigma, lr, lk), Diagonal(Negated(lr, mu)), Fold(sigma);
    forall i, j | 0 <= i < n && 0 <= j < n ensures h(i, j) == a(i, j) + lk * b(i, j) {
      ObjectiveEntry(mu, sigma, lr, lk, i, j);
    }
    BilinearLinearMatrix(n, h, a, lk, b, w, w);
    QuadIsBilinear(n, h, w);
    QuadIsBilinear(n, a, w);
    QuadIsBilinear(n, b, w);
    FoldKeepsForm(n, sigma, w);
    DiagonalIsLinear(n, Negated(lr, mu), w);
    DotAsSum(n, Negated(lr, mu), w);
    DotAsSum(n, mu, w);
    forall i: int ensures Times(Negated(lr, mu), w)(i) == -lr * Times(mu, w)(i) {
      NegatedTerm(lr, mu, w, i);
    }
    SumScale(n, Times(Negated(lr, mu), w), -lr, Times(mu, w));
  }

  lemma ObjectiveEntry(mu: Vec, sigma: Mat, lr: real, lk: real, i: int, j: int)
    ensures ObjectivePart(mu, sigma, lr, lk)(i, j) == Diagonal(Negated(lr, mu))(i, j) + lk * Fold(sigma)(i, j)
  {
  }

  lemma NegatedTerm(t: real, mu: Vec, w: Vec, i: int)
    ensures Times(Negated(t, mu), w)(i) == -t * Times(mu, w)(i)
  {
  }

  /** The upper triangle is the sum of the two parts. */
  lemma UpperTriangleForm(n: nat, mu: Vec, sigma: Mat, k: real, lr: real, lk: real, lc: real, w: Vec)
    requires Symmetric(n, sigma)
    requires forall i :: 0 <= i < n ==> w(i) == 0.0 || w(i) == 1.0
    ensures Quad(n, UpperTriangle(mu, sigma, k, lr, lk, lc), w)
         == -lr * Dot(n, mu, w) + lk * Quad(n, sigma, w) + lc * Excess(Sum(n, w), k)
  {
    hide Quad, Dot, Excess, UpperTriangle, ObjectivePart, PenaltyPart;
    ObjectiveForm(n, mu, sigma, lr, lk, w);
    PenaltyForm(n, k, w);
    UpperTriangleSplits(n, mu, sigma, k, lr, lk, lc);
    BilinearLinearMatrix(n, UpperTriangle(mu, sigma, k, lr, lk, lc), ObjectivePart(mu, sigma, lr, lk),
                         lc, PenaltyPart(k), w, w);
    QuadIsBilinear(n, UpperTriangle(mu, sigma, k, lr, lk, lc), w);
    QuadIsBilinear(n, ObjectivePart(mu, sigma, lr, lk), w);
    QuadIsBilinear(n, PenaltyPart(k), w);
  }

  lemma UpperTriangleSplits(n: nat, mu: Vec, sigma: Mat, k: real, lr: real, lk: real, lc: real)
    ensures forall i, j :: 0 <= i < n && 0 <= j < n ==>
      UpperTriangle(mu, sigma, k, lr, lk, lc)(i, j) == ObjectivePart(mu, sigma, lr, lk)(i, j) + lc * PenaltyPart(k)(i, j)
  {
    var q, a, b := UpperTriangle(mu, sigma, k, lr, lk, lc), ObjectivePart(mu, sigma, lr, lk), PenaltyPart(k);
    forall i, j | 0 <= i < n && 0 <= j < n
      ensures q(i, j) == a(i, j) + lc * b(i, j)
    {
      if i < j {
        assert q(i, j) == a(i, j) + lc * 2.0;
      }
    }
  }

  /** xᵀQx is the documented objective, up to the constant λ_card·k² that the matrix cannot hold. */
  lemma EnergyIsObjectivePlusPenalty(p: Problem, x: Selection)
    requires |x| == |p.mu|
    requires Symmetric(|p.mu|, M(p.sigma))
    ensures Energy(Entry(p), x) == Objective(p, x) + CardinalityTerm(p, Count(x))
  {
    hide MuNorm, SigmaNorm, Excess, Quad, Dot, UpperTriangle;
    SigmaNormSymmetric(p);
    UpperTriangleForm(|x|, MuNorm(p), SigmaNorm(p), p.k as real,
                      p.lambdaReturn, p.lambdaRisk, p.lambdaCardinality, B(x));
    CountIsSum(x);
    assert Excess(Sum(|x|, B(x)), p.k as real) == Excess(Count(x) as real, p.k as real);
  }
}
