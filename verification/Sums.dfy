/** Finite sums of reals and the quadratic forms built from them.
    Vectors are functions `int -> real` and matrices functions `(int, int) -> real`,
    of which only the first n indices matter. */
module Sums {
  import opened Reals

  type Vec = int -> real
  type Mat = (int, int) -> real

  function Sum(n: nat, f: Vec): real {
    if n == 0 then 0.0 else Sum(n - 1, f) + f(n - 1)
  }

  /** The coefficients of a sequence, zero outside it. */
  function V(s: seq<real>): Vec {
    i => if 0 <= i < |s| then s[i] else 0.0
  }

  /** The entries of a matrix given by rows, zero outside it. */
  function M(rows: seq<seq<real>>): Mat {
    (i, j) => if 0 <= i < |rows| && 0 <= j < |rows[i]| then rows[i][j] else 0.0
  }

  function Times(u: Vec, v: Vec): Vec {
    i => u(i) * v(i)
  }

  function Dot(n: nat, u: Vec, v: Vec): real {
    Sum(n, Times(u, v))
  }

  function Row(m: Mat, i: int): Vec {
    j => m(i, j)
  }

  /** The matrix-vector product. */
  function Apply(n: nat, m: Mat, v: Vec): Vec {
    i => Dot(n, Row(m, i), v)
  }

  function Bilinear(n: nat, m: Mat, u: Vec, v: Vec): real {
    Dot(n, u, Apply(n, m, v))
  }

  /** wᵀ M w */
  function Quad(n: nat, m: Mat, w: Vec): real {
    Bilinear(n, m, w, w)
  }

  /** w + t·v */
  function Axpy(w: Vec, t: real, v: Vec): Vec {
    i => w(i) + t * v(i)
  }

  function Unit(k: int): Vec {
    i => if i == k then 1.0 else 0.0
  }

  function Const(c: real): Vec {
    i => c
  }

  ghost predicate Symmetric(n: nat, m: Mat) {
    forall i, j :: 0 <= i < n && 0 <= j < n ==> m(i, j) == m(j, i)
  }

  ghost predicate PositiveSemidefinite(n: nat, m: Mat) {
    forall w: Vec :: Quad(n, m, w) >= 0.0
  }

  lemma {:induction false} SumEqual(n: nat, f: Vec, g: Vec)
    requires forall i :: 0 <= i < n ==> f(i) == g(i)
    ensures Sum(n, f) == Sum(n, g)
  {
    if n > 0 { SumEqual(n - 1, f, g); }
  }

  lemma {:induction false} SumMonotone(n: nat, f: Vec, g: Vec)
    requires forall i :: 0 <= i < n ==> f(i) <= g(i)
    ensures Sum(n, f) <= Sum(n, g)
  {
    if n > 0 { SumMonotone(n - 1, f, g); }
  }

  lemma {:induction false} SumStrict(n: nat, f: Vec, g: Vec, k: nat)
    requires k < n && forall i :: 0 <= i < n ==> f(i) <= g(i)
    requires f(k) < g(k)
    ensures Sum(n, f) < Sum(n, g)
  {
    if k == n - 1 {
      SumMonotone(n - 1, f, g);
    } else {
      SumStrict(n - 1, f, g, k);
    }
  }

  /** h = f + t·g, summed. */
  lemma {:induction false} SumLinear(n: nat, h: Vec, f: Vec, t: real, g: Vec)
    requires forall i :: 0 <= i < n ==> h(i) == f(i) + t * g(i)
    ensures Sum(n, h) == Sum(n, f) + t * Sum(n, g)
  {
    if n > 0 {
      SumLinear(n - 1, h, f, t, g);
      assert t * Sum(n, g) == t * Sum(n - 1, g) + t * g(n - 1);
    }
  }

  lemma {:induction false} SumAdds(n: nat, h: Vec, f: Vec, g: Vec)
    requires forall i :: 0 <= i < n ==> h(i) == f(i) + g(i)
    ensures Sum(n, h) == Sum(n, f) + Sum(n, g)
  {
    if n > 0 { SumAdds(n - 1, h, f, g); }
  }

  lemma {:induction false} SumScale(n: nat, h: Vec, t: real, g: Vec)
    requires forall i :: 0 <= i < n ==> h(i) == t * g(i)
    ensures Sum(n, h) == t * Sum(n, g)
  {
    if n > 0 {
      SumScale(n - 1, h, t, g);
      assert t * Sum(n, g) == t * Sum(n - 1, g) + t * g(n - 1);
    }
  }

  lemma {:induction false} SumConst(n: nat, f: Vec, c: real)
    requires forall i :: 0 <= i < n ==> f(i) == c
    ensures Sum(n, f) == n as real * c
  {
    if n > 0 {
      SumConst(n - 1, f, c);
      assert n as real * c == (n - 1) as real * c + c;
    }
  }

  lemma SumZero(n: nat, f: Vec)
    requires forall i :: 0 <= i < n ==> f(i) == 0.0
    ensures Sum(n, f) == 0.0
  {
    SumConst(n, f, 0.0);
  }

  /** Two vectors that differ in one place. */
  lemma {:induction false} SumDiffersAt(n: nat, f: Vec, g: Vec, k: nat)
    requires k < n
    requires forall i :: 0 <= i < n && i != k ==> f(i) == g(i)
    ensures Sum(n, f) == Sum(n, g) + f(k) - g(k)
  {
    if k == n - 1 {
      SumEqual(n - 1, f, g);
    } else {
      SumDiffersAt(n - 1, f, g, k);
    }
  }

  /** A vector that is zero except in one place. */
  lemma SumSingle(n: nat, f: Vec, k: nat)
    requires k < n
    requires forall i :: 0 <= i < n && i != k ==> f(i) == 0.0
    ensures Sum(n, f) == f(k)
  {
    SumDiffersAt(n, f, Const(0.0), k);
    SumZero(n, Const(0.0));
  }

  lemma {:induction false} SumOneTermAtMostAll(n: nat, f: Vec, k: nat)
    requires k < n
    requires forall i :: 0 <= i < n ==> f(i) >= 0.0
    ensures f(k) <= Sum(n, f)
  {
    SumMonotone(n, i => if i == k then f(k) else 0.0, f);
    SumSingle(n, i => if i == k then f(k) else 0.0, k);
  }

  /** Row sums and column sums. */
  function RowSum(n: nat, m: Mat): Vec {
    i => Sum(n, Row(m, i))
  }

  function Transpose(m: Mat): Mat {
    (i, j) => m(j, i)
  }

  lemma {:induction false} SumSwapRect(a: nat, b: nat, m: Mat)
    ensures Sum(a, RowSum(b, m)) == Sum(b, RowSum(a, Transpose(m)))
  {
    if a == 0 {
      SumZero(b, RowSum(a, Transpose(m)));
    } else {
      SumSwapRect(a - 1, b, m);
      forall j: int ensures RowSum(a, Transpose(m))(j) == RowSum(a - 1, Transpose(m))(j) + Row(m, a - 1)(j) {
        LastOfColumn(a, m, j);
      }
      hide RowSum, Row, Transpose;
      SumAdds(b, RowSum(a, Transpose(m)), RowSum(a - 1, Transpose(m)), Row(m, a - 1));
      LastRow(a, b, m);
    }
  }

  lemma LastOfColumn(a: nat, m: Mat, j: int)
    requires a > 0
    ensures RowSum(a, Transpose(m))(j) == RowSum(a - 1, Transpose(m))(j) + Row(m, a - 1)(j)
  {
  }

  lemma LastRow(a: nat, b: nat, m: Mat)
    requires a > 0
    ensures Sum(a, RowSum(b, m)) == Sum(a - 1, RowSum(b, m)) + Sum(b, Row(m, a - 1))
  {
  }

  lemma SumTimesConst(n: nat, c: real, w: Vec)
    ensures Sum(n, Times(Const(c), w)) == c * Sum(n, w)
  {
    SumScale(n, Times(Const(c), w), c, w);
  }

  lemma DotAsSum(n: nat, u: Vec, v: Vec)
    ensures Dot(n, u, v) == Sum(n, Times(u, v))
  {
  }

  lemma QuadAsSum(n: nat, m: Mat, w: Vec)
    ensures Quad(n, m, w) == Sum(n, Times(w, Apply(n, m, w)))
  {
  }

  lemma QuadIsBilinear(n: nat, m: Mat, w: Vec)
    ensures Quad(n, m, w) == Bilinear(n, m, w, w)
  {
  }

  /** The sum of all entries of m(i, j)·u(i)·v(j). */
  function Weighted(m: Mat, u: Vec, v: Vec): Mat {
    (i, j) => u(i) * m(i, j) * v(j)
  }

  lemma BilinearIsDoubleSum(n: nat, m: Mat, u: Vec, v: Vec)
    ensures Bilinear(n, m, u, v) == Sum(n, RowSum(n, Weighted(m, u, v)))
  {
    forall i | 0 <= i < n
      ensures Times(u, Apply(n, m, v))(i) == RowSum(n, Weighted(m, u, v))(i)
    {
      SumScale(n, Row(Weighted(m, u, v), i), u(i), Times(Row(m, i), v));
    }
    SumEqual(n, Times(u, Apply(n, m, v)), RowSum(n, Weighted(m, u, v)));
  }

  lemma BilinearTranspose(n: nat, m: Mat, u: Vec, v: Vec)
    ensures Bilinear(n, m, u, v) == Bilinear(n, Transpose(m), v, u)
  {
    BilinearIsDoubleSum(n, m, u, v);
    BilinearIsDoubleSum(n, Transpose(m), v, u);
    SumSwapRect(n, n, Weighted(m, u, v));
    forall i | 0 <= i < n
      ensures RowSum(n, Transpose(Weighted(m, u, v)))(i) == RowSum(n, Weighted(Transpose(m), v, u))(i)
    {
      SumEqual(n, Row(Transpose(Weighted(m, u, v)), i), Row(Weighted(Transpose(m), v, u), i));
    }
    SumEqual(n, RowSum(n, Transpose(Weighted(m, u, v))), RowSum(n, Weighted(Transpose(m), v, u)));
  }

  /** Dot products are linear: x = y + t·z. */
  lemma DotLinear(n: nat, u: Vec, x: Vec, y: Vec, t: real, z: Vec)
    requires forall i :: 0 <= i < n ==> x(i) == y(i) + t * z(i)
    ensures Dot(n, u, x) == Dot(n, u, y) + t * Dot(n, u, z)
  {
    forall i | 0 <= i < n ensures Times(u, x)(i) == Times(u, y)(i) + t * Times(u, z)(i) {
      Distribute(u(i), y(i), t, z(i));
    }
    SumLinear(n, Times(u, x), Times(u, y), t, Times(u, z));
  }

  lemma DotCommutes(n: nat, u: Vec, v: Vec)
    ensures Dot(n, u, v) == Dot(n, v, u)
  {
    SumEqual(n, Times(u, v), Times(v, u));
  }

  lemma ApplyLinearMatrix(n: nat, h: Mat, a: Mat, t: real, b: Mat, v: Vec, i: int)
    requires forall j :: 0 <= j < n ==> h(i, j) == a(i, j) + t * b(i, j)
    ensures Apply(n, h, v)(i) == Apply(n, a, v)(i) + t * Apply(n, b, v)(i)
  {
    DotCommutes(n, Row(h, i), v);
    DotCommutes(n, Row(a, i), v);
    DotCommutes(n, Row(b, i), v);
    DotLinear(n, v, Row(h, i), Row(a, i), t, Row(b, i));
  }

  /** Bilinear forms are linear in the matrix: h = a + t·b. */
  lemma BilinearLinearMatrix(n: nat, h: Mat, a: Mat, t: real, b: Mat, u: Vec, v: Vec)
    requires forall i, j :: 0 <= i < n && 0 <= j < n ==> h(i, j) == a(i, j) + t * b(i, j)
    ensures Bilinear(n, h, u, v) == Bilinear(n, a, u, v) + t * Bilinear(n, b, u, v)
  {
    hide Apply, Dot;
    forall i | 0 <= i < n ensures Apply(n, h, v)(i) == Apply(n, a, v)(i) + t * Apply(n, b, v)(i) {
      ApplyLinearMatrix(n, h, a, t, b, v, i);
    }
    DotLinear(n, u, Apply(n, h, v), Apply(n, a, v), t, Apply(n, b, v));
  }

  lemma BilinearSymmetric(n: nat, m: Mat, u: Vec, v: Vec)
    requires Symmetric(n, m)
    ensures Bilinear(n, m, u, v) == Bilinear(n, m, v, u)
  {
    BilinearTranspose(n, m, u, v);
    BilinearLinearMatrix(n, Transpose(m), m, 0.0, m, v, u);
  }

  /** A matrix with Mᵀ = -M gives the zero form. */
  lemma QuadAntisymmetric(n: nat, m: Mat, w: Vec)
    requires forall i, j :: 0 <= i < n && 0 <= j < n ==> m(i, j) == -m(j, i)
    ensures Quad(n, m, w) == 0.0
  {
    BilinearTranspose(n, m, w, w);
    BilinearLinearMatrix(n, Transpose(m), m, -2.0, m, w, w);
  }

  function Diagonal(d: Vec): Mat {
    (i, j) => if i == j then d(i) else 0.0
  }

  lemma BilinearDiagonal(n: nat, d: Vec, u: Vec, v: Vec)
    ensures Bilinear(n, Diagonal(d), u, v) == Sum(n, Times(Times(d, u), v))
  {
    forall i | 0 <= i < n
      ensures Times(u, Apply(n, Diagonal(d), v))(i) == Times(Times(d, u), v)(i)
    {
      SumSingle(n, Times(Row(Diagonal(d), i), v), i);
    }
    SumEqual(n, Times(u, Apply(n, Diagonal(d), v)), Times(Times(d, u), v));
  }

  function ConstMat(c: real): Mat {
    (i, j) => c
  }

  /** The matrix of ones gives the square of the sum. */
  lemma QuadOnes(n: nat, w: Vec)
    ensures Quad(n, ConstMat(1.0), w) == Sum(n, w) * Sum(n, w)
  {
    var s := Sum(n, w);
    forall i ensures Apply(n, ConstMat(1.0), w)(i) == s {
      SumEqual(n, Times(Row(ConstMat(1.0), i), w), w);
    }
    hide Apply;
    SumScale(n, Times(w, Apply(n, ConstMat(1.0), w)), s, w);
  }

  lemma BilinearLinearRight(n: nat, m: Mat, u: Vec, w: Vec, t: real, v: Vec)
    ensures Bilinear(n, m, u, Axpy(w, t, v)) == Bilinear(n, m, u, w) + t * Bilinear(n, m, u, v)
  {
    hide Dot;
    var x, y, z := Apply(n, m, Axpy(w, t, v)), Apply(n, m, w), Apply(n, m, v);
    forall i ensures x(i) == y(i) + t * z(i) {
      DotLinear(n, Row(m, i), Axpy(w, t, v), w, t, v);
    }
    DotLinear(n, u, x, y, t, z);
  }

  /** (w + t·v)ᵀM(w + t·v) = wᵀMw + 2t·vᵀMw + t²·vᵀMv for symmetric M. */
  lemma QuadExpand(n: nat, m: Mat, w: Vec, t: real, v: Vec)
    requires Symmetric(n, m)
    ensures Quad(n, m, Axpy(w, t, v))
         == Quad(n, m, w) + 2.0 * t * Bilinear(n, m, v, w) + t * t * Quad(n, m, v)
  {
    var z := Axpy(w, t, v);
    BilinearLinearRight(n, m, z, w, t, v);
    BilinearSymmetric(n, m, z, w);
    BilinearSymmetric(n, m, z, v);
    BilinearLinearRight(n, m, w, w, t, v);
    BilinearLinearRight(n, m, v, w, t, v);
    BilinearSymmetric(n, m, v, w);
    var a, b, c := Quad(n, m, w), Bilinear(n, m, v, w), Quad(n, m, v);
    assert Quad(n, m, z) == (a + t * b) + t * (b + t * c);
  }

  lemma DotUnit(n: nat, k: nat, v: Vec)
    requires k < n
    ensures Dot(n, Unit(k), v) == v(k)
    ensures Dot(n, v, Unit(k)) == v(k)
  {
    SumSingle(n, Times(Unit(k), v), k);
    SumSingle(n, Times(v, Unit(k)), k);
  }

  /** Unit vectors read off rows and entries. */
  lemma BilinearUnit(n: nat, m: Mat, k: nat, w: Vec)
    requires k < n
    ensures Bilinear(n, m, Unit(k), w) == Dot(n, Row(m, k), w)
    ensures Quad(n, m, Unit(k)) == m(k, k)
  {
    DotUnit(n, k, Apply(n, m, w));
    DotUnit(n, k, Apply(n, m, Unit(k)));
    DotUnit(n, k, Row(m, k));
  }

  /** Forms of equal vectors are equal. */
  lemma QuadEqual(n: nat, m: Mat, w: Vec, v: Vec)
    requires forall i :: 0 <= i < n ==> w(i) == v(i)
    ensures Quad(n, m, w) == Quad(n, m, v)
  {
    forall i | 0 <= i < n
      ensures Times(w, Apply(n, m, w))(i) == Times(v, Apply(n, m, v))(i)
    {
      SumEqual(n, Times(Row(m, i), w), Times(Row(m, i), v));
    }
    SumEqual(n, Times(w, Apply(n, m, w)), Times(v, Apply(n, m, v)));
  }

  // ---- Sums of squares ----

  /** c + t·w */
  function Affine(c: real, t: real, w: Vec): Vec {
    i => c + t * w(i)
  }

  lemma SumAffine(n: nat, c: real, t: real, w: Vec)
    ensures Sum(n, Affine(c, t, w)) == n as real * c + t * Sum(n, w)
  {
    SumLinear(n, Affine(c, t, w), Const(c), t, w);
    SumConst(n, Const(c), c);
  }

  /** The tangent of x² at u lies below it. */
  lemma TangentBelow(u: real, w: Vec, i: int)
    ensures Affine(-(u * u), 2.0 * u, w)(i) <= Times(w, w)(i)
  {
    BelowSquare(w(i), u);
  }

  lemma BelowSquare(x: real, u: real)
    ensures -(u * u) + (2.0 * u) * x <= x * x
  {
    var d := x - u;
    assert d * d >= 0.0;
  }

  lemma SquaresAboveTangent(n: nat, u: real, w: Vec)
    ensures Dot(n, w, w) >= n as real * -(u * u) + (2.0 * u) * Sum(n, w)
  {
    hide Times, Affine;
    forall i ensures Affine(-(u * u), 2.0 * u, w)(i) <= Times(w, w)(i) {
      TangentBelow(u, w, i);
    }
    SumMonotone(n, Affine(-(u * u), 2.0 * u, w), Times(w, w));
    SumAffine(n, -(u * u), 2.0 * u, w);
  }

  /** (Σwᵢ)² ≤ n·Σwᵢ² */
  lemma SquareOfSum(n: nat, w: Vec)
    requires n > 0
    ensures n as real * Dot(n, w, w) >= Sum(n, w) * Sum(n, w)
  {
    hide Dot, Sum;
    var u := Sum(n, w) / n as real;
    SquaresAboveTangent(n, u, w);
    SquareOfMean(n as real, u, Sum(n, w), Dot(n, w, w));
  }

  lemma SquareOfMean(n: real, u: real, s: real, q: real)
    requires n > 0.0 && n * u == s && q >= n * -(u * u) + (2.0 * u) * s
    ensures n * q >= s * s
  {
    assert n * (u * u) == u * s;
    ScaleMonotone(n, u * s, q);
    assert n * (u * s) == s * s;
  }
}
