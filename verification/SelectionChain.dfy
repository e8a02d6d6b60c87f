/** The whole translation: selection problem, QUBO matrix, Ising model, and back to a selection. */
module SelectionChain {
  import opened Reals
  import opened Sums
  import opened Selections
  import opened Qubo
  import opened Penalty
  import opened Ising

  /** `rows` is the matrix the builder fills for p. */
  ghost predicate MatrixOf(p: Problem, rows: seq<seq<real>>) {
    |rows| == |p.mu| && Square(rows) &&
    forall i, j :: 0 <= i < |rows| && 0 <= j < |rows| ==> rows[i][j] == Entry(p)(i, j)
  }

  lemma SameEnergy(p: Problem, rows: seq<seq<real>>, x: Selection)
    requires MatrixOf(p, rows) && |x| == |rows|
    ensures Energy(M(rows), x) == Energy(Entry(p), x)
  {
    QuadEqualMatrix(|x|, M(rows), Entry(p), B(x));
  }

  /** Under the penalty condition every off-diagonal entry is at least λ_card, so nothing is dropped. */
  lemma PenaltyKeepsEveryPair(p: Problem, rows: seq<seq<real>>)
    requires Dominated(p) && p.lambdaCardinality >= SKIP
    requires MatrixOf(p, rows)
    ensures UpperTriangular(|rows|, M(rows)) && NothingDropped(|rows|, M(rows))
  {
    forall i, j | 0 <= i < j < |rows| ensures M(rows)(i, j) >= SKIP {
      OffDiagonalEntry(p, i, j);
    }
    forall i, j | 0 <= j < i < |rows| ensures M(rows)(i, j) == 0.0 {
      assert M(rows)(i, j) == Entry(p)(i, j);
    }
  }

  lemma OffDiagonalEntry(p: Problem, i: nat, j: nat)
    requires Dominated(p) && i < j < |p.mu|
    ensures Entry(p)(i, j) >= p.lambdaCardinality
  {
    hide SigmaNorm, MuNorm, Ratio, PenaltyCondition;
    NormalisedBounds(p);
    OffDiagonal(|p.mu|, p.lambdaReturn, p.lambdaRisk, p.lambdaCardinality, SigmaNorm(p)(i, j));
  }

  lemma OffDiagonal(n: nat, lr: real, lk: real, lc: real, sigma: real)
    requires n >= 2 && lr >= 0.0 && lk >= 0.0 && PenaltyCondition(n, lr, lk, lc)
    requires -1.0 <= sigma <= 1.0
    ensures lk * 2.0 * sigma + lc * 2.0 >= lc
  {
    var m := 2.0 * (n as real - 1.0) + 1.0;
    ScaleMonotone(lk, 3.0, m);
    ScaleMonotone(lk, -1.0, sigma);
    assert lc >= lr + m * lk >= 3.0 * lk;
    assert lk * 2.0 * sigma == 2.0 * (lk * sigma) >= -2.0 * lk;
  }

  /** When no pair is dropped, ground states and energy minimisers are the same. */
  lemma GroundStatesAreMinimisers(p: Problem, rows: seq<seq<real>>, m: Model, z: seq<int>)
    requires MatrixOf(p, rows) && Converted(m, rows)
    requires UpperTriangular(|rows|, M(rows)) && NothingDropped(|rows|, M(rows))
    requires IsSpin(z) && |z| == |rows|
    ensures IsGroundState(m, z) <==> IsMinimiser(p, Decode(z))
  {
    hide Energy, Entry, IsingEnergy, Offset, PairCount, UpperTriangular, NothingDropped;
    if IsGroundState(m, z) {
      forall y: Selection | |y| == |p.mu| ensures Energy(Entry(p), Decode(z)) <= Energy(Entry(p), y) {
        GroundStateDecodes(m, rows, z, y);
        SameEnergy(p, rows, y);
        SameEnergy(p, rows, Decode(z));
      }
      assert IsMinimiser(p, Decode(z));
    }
    if IsMinimiser(p, Decode(z)) {
      forall y: seq<int> | IsSpin(y) && |y| == |z| ensures IsingEnergy(m, Z(z)) <= IsingEnergy(m, Z(y)) {
        IsingMatchesQubo(m, rows, z);
        IsingMatchesQubo(m, rows, y);
        SameEnergy(p, rows, Decode(y));
        SameEnergy(p, rows, Decode(z));
      }
    }
  }

  /** End to end: with a large enough penalty the ground states of the Ising model decode to
      exactly the best k-subsets of the original problem. */
  lemma GroundStatesAreBestSubsets(p: Problem, rows: seq<seq<real>>, m: Model, z: seq<int>)
    requires Dominated(p) && p.lambdaCardinality >= SKIP
    requires MatrixOf(p, rows) && Converted(m, rows)
    requires IsSpin(z) && |z| == |rows|
    ensures IsGroundState(m, z) <==> IsBestSubset(p, Decode(z))
  {
    hide Dominated, IsGroundState, IsMinimiser, IsBestSubset, UpperTriangular, NothingDropped;
    PenaltyKeepsEveryPair(p, rows);
    MinimisersAreBestSubsets(p);
    GroundStatesAreMinimisers(p, rows, m, z);
  }

  /** The same for a documented problem whose penalty is large enough for its own target only. */
  lemma EnforcedGroundStatesAreBestSubsets(p: Problem, rows: seq<seq<real>>, m: Model, z: seq<int>)
    requires Enforced(p) && p.lambdaCardinality >= p.lambdaRisk + SKIP
    requires MatrixOf(p, rows) && Converted(m, rows)
    requires IsSpin(z) && |z| == |rows|
    ensures IsGroundState(m, z) <==> IsBestSubset(p, Decode(z))
  {
    hide Enforced, IsGroundState, IsMinimiser, IsBestSubset, UpperTriangular, NothingDropped;
    MarginKeepsEveryPair(p, rows);
    EnforcedMinimisersAreBestSubsets(p);
    GroundStatesAreMinimisers(p, rows, m, z);
  }

  lemma MarginKeepsEveryPair(p: Problem, rows: seq<seq<real>>)
    requires Enforced(p) && p.lambdaCardinality >= p.lambdaRisk + SKIP && MatrixOf(p, rows)
    ensures UpperTriangular(|rows|, M(rows)) && NothingDropped(|rows|, M(rows))
  {
    hide Enforced;
    forall i, j | 0 <= i < j < |rows| ensures M(rows)(i, j) >= SKIP {
      MarginOffDiagonal(p, i, j);
    }
    forall i, j | 0 <= j < i < |rows| ensures M(rows)(i, j) == 0.0 {
      assert M(rows)(i, j) == Entry(p)(i, j);
    }
  }

  lemma MarginOffDiagonal(p: Problem, i: nat, j: nat)
    requires Enforced(p) && p.lambdaCardinality >= p.lambdaRisk + SKIP && i < j < |p.mu|
    ensures Entry(p)(i, j) >= SKIP
  {
    hide SigmaNorm, MuNorm, Ratio, PenaltyCondition, Documented;
    DocumentedParts(p);
    NormalisedBounds(p);
    MarginEntry(p.lambdaRisk, p.lambdaCardinality, SigmaNorm(p)(i, j));
  }

  lemma MarginEntry(lk: real, lc: real, sigma: real)
    requires lk >= 0.0 && lc >= lk + SKIP && sigma >= -1.0
    ensures lk * 2.0 * sigma + lc * 2.0 >= SKIP
  {
    ScaleMonotone(lk, -1.0, sigma);
    assert lk * 2.0 * sigma == 2.0 * (lk * sigma);
  }
}
