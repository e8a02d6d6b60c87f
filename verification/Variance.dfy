/** The least variance of a fully invested portfolio, by the inverse covariance. */
module Variance {
  import opened Reals
  import opened Sums

  /** B is the exact inverse of the n×n matrix S (on the side the bound needs). */
  ghost predicate IsInverse(n: nat, s: Mat, b: Mat) {
    forall i, k :: 0 <= i < n && 0 <= k < n ==> Sum(n, Product(s, b, i, k)) == if i == k then 1.0 else 0.0
  }

  /** The terms of entry (i, k) of the matrix product. */
  function Product(s: Mat, b: Mat, i: int, k: int): Vec {
    j => s(i, j) * b(j, k)
  }

  /** v = B·1 solves S·v = 1. */
  lemma InverseTimesOnes(n: nat, s: Mat, b: Mat, i: nat)
    requires IsInverse(n, s, b) && i < n
    ensures Apply(n, s, RowSum(n, b))(i) == 1.0
  {
    var cells: Mat := (j, k) => s(i, j) * b(j, k);
    forall j | 0 <= j < n ensures Times(Row(s, i), RowSum(n, b))(j) == RowSum(n, cells)(j) {
      SumScale(n, Row(cells, j), s(i, j), Row(b, j));
    }
    SumEqual(n, Times(Row(s, i), RowSum(n, b)), RowSum(n, cells));
    SumSwapRect(n, n, cells);
    forall k | 0 <= k < n ensures RowSum(n, Transpose(cells))(k) == Unit(i)(k) {
      SumEqual(n, Row(Transpose(cells), k), Product(s, b, i, k));
    }
    SumEqual(n, RowSum(n, Transpose(cells)), Unit(i));
    SumSingle(n, Unit(i), i);
  }

  /** (w - t·v)ᵀS(w - t·v) with S·v = 1 and Σw = 1. */
  lemma ShiftedVariance(n: nat, s: Mat, v: Vec, w: Vec, t: real)
    requires Symmetric(n, s) && Sum(n, w) == 1.0
    requires forall i :: 0 <= i < n ==> Apply(n, s, v)(i) == 1.0
    ensures Quad(n, s, Axpy(w, -t, v)) == Quad(n, s, w) - 2.0 * t + t * t * Sum(n, v)
  {
    hide Quad, Bilinear, Apply;
    QuadExpand(n, s, w, -t, v);
    BilinearSymmetric(n, s, v, w);
    FormAgainstSolution(n, s, v, w);
    FormAgainstSolution(n, s, v, v);
    QuadIsBilinear(n, s, v);
  }

  lemma FormAgainstSolution(n: nat, s: Mat, v: Vec, w: Vec)
    requires forall i :: 0 <= i < n ==> Apply(n, s, v)(i) == 1.0
    ensures Bilinear(n, s, w, v) == Sum(n, w)
  {
    SumEqual(n, Times(w, Apply(n, s, v)), w);
  }

  /** Every w with Σw = 1 has variance at least 1/(1ᵀS⁻¹1), and some such w attains it. */
  lemma MinimumVariance(n: nat, s: Mat, b: Mat, w: Vec)
    requires n > 0 && Symmetric(n, s) && PositiveSemidefinite(n, s) && IsInverse(n, s, b)
    requires Sum(n, w) == 1.0
    ensures var d := Sum(n, RowSum(n, b)); d > 0.0 && Quad(n, s, w) >= 1.0 / d
  {
    hide Quad;
    var v := RowSum(n, b);
    var d, q := Sum(n, v), Quad(n, s, w);
    forall i: nat | i < n ensures Apply(n, s, v)(i) == 1.0 {
      InverseTimesOnes(n, s, b, i);
    }
    forall t: real ensures Parabola(q, d, t) >= 0.0 {
      ShiftedVariance(n, s, v, w, t);
    }
    ParabolaMinimum(q, d);
  }

  function Parabola(q: real, d: real, t: real): real {
    q - 2.0 * t + t * t * d
  }

  lemma ParabolaMinimum(q: real, d: real)
    requires q >= 0.0 && forall t: real :: Parabola(q, d, t) >= 0.0
    ensures d > 0.0 && q >= 1.0 / d
  {
    if d <= 0.0 {
      assert Parabola(q, d, q + 1.0) >= 0.0;
      ParabolaNegative(q, d);
      assert false;
    }
    var t := 1.0 / d;
    assert Parabola(q, d, t) >= 0.0;
    assert t * d == 1.0;
    assert t * t * d == t;
  }

  lemma ParabolaNegative(q: real, d: real)
    requires q >= 0.0 && d <= 0.0
    ensures Parabola(q, d, q + 1.0) < 0.0
  {
    var t := q + 1.0;
    assert t * t >= 0.0;
    ScaleMonotone(t * t, d, 0.0);
  }

  lemma MinimumVarianceAttained(n: nat, s: Mat, b: Mat) returns (w: Vec)
    requires n > 0 && Symmetric(n, s) && PositiveSemidefinite(n, s) && IsInverse(n, s, b)
    ensures Sum(n, RowSum(n, b)) > 0.0
    ensures Sum(n, w) == 1.0 && Quad(n, s, w) == 1.0 / Sum(n, RowSum(n, b))
    ensures forall i :: w(i) == (1.0 / Sum(n, RowSum(n, b))) * RowSum(n, b)(i)
  {
    var v := RowSum(n, b);
    SumSingle(n, Unit(0), 0);
    MinimumVariance(n, s, b, Unit(0));
    var t := 1.0 / Sum(n, v);
    forall i: nat | i < n ensures Apply(n, s, v)(i) == 1.0 {
      InverseTimesOnes(n, s, b, i);
    }
    w := i => t * v(i);
    SumScale(n, w, t, v);
    ScaledSolution(n, s, v, t, w);
  }

  lemma ScaledSolution(n: nat, s: Mat, v: Vec, t: real, w: Vec)
    requires forall i :: 0 <= i < n ==> w(i) == t * v(i) && Apply(n, s, v)(i) == 1.0
    ensures Quad(n, s, w) == t * Sum(n, w)
  {
    forall i: nat | i < n ensures Times(w, Apply(n, s, w))(i) == t * w(i) {
      ScaledRow(n, Row(s, i), v, t, w);
    }
    SumScale(n, Times(w, Apply(n, s, w)), t, w);
  }

  lemma ScaledRow(n: nat, row: Vec, v: Vec, t: real, w: Vec)
    requires forall i :: 0 <= i < n ==> w(i) == t * v(i)
    ensures Dot(n, row, w) == t * Dot(n, row, v)
  {
    SumScale(n, Times(row, w), t, Times(row, v));
  }

  // ---- The minimum has one portfolio only ----

  /** In a PSD matrix a vector of form zero is orthogonal to everything. */
  lemma FlatDirection(n: nat, s: Mat, u: Vec, z: Vec)
    requires Symmetric(n, s) && PositiveSemidefinite(n, s) && Quad(n, s, u) == 0.0
    ensures Bilinear(n, s, z, u) == 0.0
  {
    hide Quad, Bilinear;
    forall t: real ensures FlatLine(Bilinear(n, s, z, u), Quad(n, s, z), t) >= 0.0 {
      QuadExpand(n, s, u, t, z);
      assert Quad(n, s, Axpy(u, t, z)) >= 0.0;
    }
    FlatLineIsZero(Bilinear(n, s, z, u), Quad(n, s, z));
  }

  /** 2t·b + t²·q */
  function FlatLine(b: real, q: real, t: real): real {
    2.0 * t * b + t * t * q
  }

  lemma FlatLineIsZero(b: real, q: real)
    requires q >= 0.0 && forall t: real :: FlatLine(b, q, t) >= 0.0
    ensures b == 0.0
  {
    if b != 0.0 {
      var t := -b / (q + 1.0);
      assert FlatLine(b, q, t) >= 0.0;
      assert t * (q + 1.0) == -b;
      FlatLineDips(b, q, t);
      assert false;
    }
  }

  lemma FlatLineDips(b: real, q: real, t: real)
    requires q >= 0.0 && b != 0.0 && t * (q + 1.0) == -b
    ensures FlatLine(b, q, t) < 0.0
  {
    assert t != 0.0;
    var r := t * t;
    assert r > 0.0;
    assert t * b == -(r * (q + 1.0)) by { assert t * (t * (q + 1.0)) == r * (q + 1.0); }
    assert FlatLine(b, q, t) == -(r * q) - 2.0 * r;
    ScaleMonotone(r, 0.0, q);
  }

  function Column(b: Mat, k: int): Vec {
    j => b(j, k)
  }

  /** An invertible matrix has no other such vector than zero. */
  lemma KernelIsTrivial(n: nat, s: Mat, b: Mat, u: Vec, k: nat)
    requires Symmetric(n, s) && PositiveSemidefinite(n, s) && IsInverse(n, s, b)
    requires Quad(n, s, u) == 0.0 && k < n
    ensures u(k) == 0.0
  {
    var z := Column(b, k);
    FlatDirection(n, s, u, z);
    BilinearSymmetric(n, s, z, u);
    forall i: nat | i < n ensures Times(u, Apply(n, s, z))(i) == Times(u, Unit(k))(i) {
      SumEqual(n, Times(Row(s, i), z), Product(s, b, i, k));
    }
    SumEqual(n, Times(u, Apply(n, s, z)), Times(u, Unit(k)));
    DotUnit(n, k, u);
  }

  /** A fully invested portfolio of minimum variance is S⁻¹1 rescaled. */
  lemma MinimumIsUnique(n: nat, s: Mat, b: Mat, w: Vec, k: nat)
    requires n > 0 && Symmetric(n, s) && PositiveSemidefinite(n, s) && IsInverse(n, s, b)
    requires Sum(n, w) == 1.0 && k < n
    requires Sum(n, RowSum(n, b)) > 0.0 && Quad(n, s, w) <= 1.0 / Sum(n, RowSum(n, b))
    ensures w(k) == (1.0 / Sum(n, RowSum(n, b))) * RowSum(n, b)(k)
  {
    hide Quad, Bilinear, Symmetric, IsInverse, RowSum;
    var v, d := RowSum(n, b), Sum(n, RowSum(n, b));
    var t := 1.0 / d;
    forall i: nat | i < n ensures Apply(n, s, v)(i) == 1.0 {
      InverseTimesOnes(n, s, b, i);
    }
    ShiftedVariance(n, s, v, w, t);
    assert t * t * d == t by { assert t * d == 1.0; }
    assert Quad(n, s, Axpy(w, -t, v)) >= 0.0;
    KernelIsTrivial(n, s, b, Axpy(w, -t, v), k);
  }
}
