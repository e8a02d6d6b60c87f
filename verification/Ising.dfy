/** From the QUBO matrix to Ising coefficients by xᵢ = (1 - zᵢ)/2, and back. */
module Ising {
  import opened Reals
  import opened Sums
  import opened Selections
  import opened Qubo

  /** Couplings smaller than this are dropped. */
  const SKIP := 0.000000000001

  predicate Square(rows: seq<seq<real>>) {
    forall i :: 0 <= i < |rows| ==> |rows[i]| == |rows|
  }

  ghost predicate UpperTriangular(n: nat, q: Mat) {
    forall i, j :: 0 <= j < i < n ==> q(i, j) == 0.0
  }

  /** The pairs that survive the threshold. */
  function Kept(q: Mat): Mat {
    (i, j) => Coupling(q, i, j)
  }

  function Coupling(q: Mat, i: int, j: int): real {
    if i < j && Abs(q(i, j)) >= SKIP then q(i, j) else 0.0
  }

  function Dropped(q: Mat): Mat {
    (i, j) => if i < j && Abs(q(i, j)) < SKIP then q(i, j) else 0.0
  }

  function DiagonalOf(q: Mat): Vec {
    i => q(i, i)
  }

  /** The field on spin i: -Qᵢᵢ/2 minus a quarter of every kept coupling that touches i. */
  function Field(n: nat, q: Mat): Vec {
    i => -q(i, i) / 2.0 - (RowSum(n, Kept(q))(i) + RowSum(n, Transpose(Kept(q)))(i)) / 4.0
  }

  type Pair = (nat, nat)

  datatype Model = Model(fields: seq<real>, pairs: seq<Pair>, couplings: seq<real>)

  function PairEnergy(pairs: seq<Pair>, couplings: seq<real>, z: Vec): real
    requires |pairs| == |couplings|
  {
    if pairs == [] then 0.0
    else
      var last := |pairs| - 1;
      PairEnergy(pairs[..last], couplings[..last], z) + couplings[last] * (z(pairs[last].0) * z(pairs[last].1))
  }

  /** Σ hᵢzᵢ + Σ Jᵢⱼzᵢzⱼ */
  function IsingEnergy(m: Model, z: Vec): real
    requires |m.pairs| == |m.couplings|
  {
    Dot(|m.fields|, V(m.fields), z) + PairEnergy(m.pairs, m.couplings, z)
  }

  // ---- The conversion loop ----

  /** Where the scan of row a begins. */
  function RowStart(n: nat, a: nat): nat {
    if a < n then a + 1 else 0
  }

  /** The kept couplings visited before position (a, b) of the row-by-row scan. */
  function KeptBefore(q: Mat, a: int, b: int): Mat {
    (i, j) => if i < a || (i == a && j < b) then Coupling(q, i, j) else 0.0
  }

  function FieldBefore(n: nat, q: Mat, diagonals: int, a: int, b: int): Vec {
    i => (if i < diagonals then -q(i, i) / 2.0 else 0.0)
         - (RowSum(n, KeptBefore(q, a, b))(i) + RowSum(n, Transpose(KeptBefore(q, a, b)))(i)) / 4.0
  }

  /** The kept pairs in scan order, up to (a, b) with a < b ≤ n. */
  function PairsBefore(n: nat, q: Mat, a: nat, b: nat): (s: seq<Pair>)
    requires a < n ==> a < b <= n
    requires a >= n ==> a == n && b == 0
    decreases a, b
  {
    if a < n && b > a + 1 then
      PairsBefore(n, q, a, b - 1) + if Abs(q(a, b - 1)) < SKIP then [] else [(a, b - 1)]
    else if a == 0 then []
    else PairsBefore(n, q, a - 1, n)
  }

  /** What the loop has produced before position (a, b). */
  ghost predicate Scanned(n: nat, q: Mat, a: nat, b: nat, pairs: seq<Pair>, couplings: seq<real>)
    requires a < n ==> a < b <= n
    requires a >= n ==> a == n && b == 0
  {
    && pairs == PairsBefore(n, q, a, b)
    && |couplings| == |pairs|
    && (forall k :: 0 <= k < |pairs| ==> couplings[k] == q(pairs[k].0, pairs[k].1) / 4.0)
    && (forall z: Vec :: PairEnergy(pairs, couplings, z) == Quad(n, KeptBefore(q, a, b), z) / 4.0)
  }

  ghost predicate FieldsScanned(h: seq<real>, n: nat, q: Mat, diagonals: int, a: int, b: int) {
    |h| == n && forall i :: 0 <= i < n ==> h[i] == FieldBefore(n, q, diagonals, a, b)(i)
  }

  function Entry1(a: int, b: int): Mat {
    (i, j) => if i == a && j == b then 1.0 else 0.0
  }

  lemma QuadEntry1(n: nat, a: nat, b: nat, z: Vec)
    requires a < n && b < n
    ensures Quad(n, Entry1(a, b), z) == z(a) * z(b)
  {
    hide Apply;
    forall i | 0 <= i < n ensures Apply(n, Entry1(a, b), z)(i) == if i == a then z(b) else 0.0 {
      ApplyEntry1(n, a, b, z, i);
    }
    SumSingle(n, Times(z, Apply(n, Entry1(a, b), z)), a);
  }

  lemma ApplyEntry1(n: nat, a: nat, b: nat, z: Vec, i: int)
    requires a < n && b < n && 0 <= i < n
    ensures Apply(n, Entry1(a, b), z)(i) == if i == a then z(b) else 0.0
  {
    if i == a {
      SumSingle(n, Times(Row(Entry1(a, b), i), z), b);
    } else {
      SumZero(n, Times(Row(Entry1(a, b), i), z));
    }
  }

  lemma KeptStep(q: Mat, a: nat, b: nat, i: int, j: int)
    requires a < b && Abs(q(a, b)) >= SKIP
    ensures KeptBefore(q, a, b + 1)(i, j) == KeptBefore(q, a, b)(i, j) + if i == a && j == b then q(a, b) else 0.0
  {
  }

  /** Visiting a kept pair takes a quarter of its coupling from two fields. */
  lemma VisitKeptField(n: nat, q: Mat, a: nat, b: nat, i: nat)
    requires a < b < n && i < n && Abs(q(a, b)) >= SKIP
    ensures FieldBefore(n, q, a + 1, a, b + 1)(i)
         == FieldBefore(n, q, a + 1, a, b)(i) - if i == a || i == b then q(a, b) / 4.0 else 0.0
  {
    var k, k' := KeptBefore(q, a, b), KeptBefore(q, a, b + 1);
    forall j ensures Row(k', i)(j) == Row(k, i)(j) + if i == a && j == b then q(a, b) else 0.0 {
      KeptStep(q, a, b, i, j);
    }
    SumDiffersAt(n, Row(k', i), Row(k, i), b);
    forall j ensures Row(Transpose(k'), i)(j) == Row(Transpose(k), i)(j) + if j == a && i == b then q(a, b) else 0.0 {
      KeptStep(q, a, b, j, i);
    }
    SumDiffersAt(n, Row(Transpose(k'), i), Row(Transpose(k), i), a);
    assert RowSum(n, k')(i) == RowSum(n, k)(i) + if i == a then q(a, b) else 0.0;
    assert RowSum(n, Transpose(k'))(i) == RowSum(n, Transpose(k))(i) + if i == b then q(a, b) else 0.0;
  }

  /** ... and adds the whole coupling to the pair form. */
  lemma VisitKeptPair(n: nat, q: Mat, a: nat, b: nat, z: Vec)
    requires a < b < n && Abs(q(a, b)) >= SKIP
    ensures Quad(n, KeptBefore(q, a, b + 1), z) == Quad(n, KeptBefore(q, a, b), z) + q(a, b) * (z(a) * z(b))
  {
    var k, k' := KeptBefore(q, a, b), KeptBefore(q, a, b + 1);
    forall i, j | 0 <= i < n && 0 <= j < n
      ensures k'(i, j) == k(i, j) + q(a, b) * Entry1(a, b)(i, j)
    {
      KeptStep(q, a, b, i, j);
    }
    BilinearLinearMatrix(n, k', k, q(a, b), Entry1(a, b), z, z);
    QuadEntry1(n, a, b, z);
  }

  /** Positions that hold no kept coupling change nothing. */
  lemma SameScan(n: nat, q: Mat, a: int, b: int, a': int, b': int)
    requires forall i, j :: 0 <= i < n && 0 <= j < n ==> KeptBefore(q, a, b)(i, j) == KeptBefore(q, a', b')(i, j)
    ensures forall d, i {:trigger FieldBefore(n, q, d, a', b')(i)} :: 0 <= i < n ==>
      FieldBefore(n, q, d, a, b)(i) == FieldBefore(n, q, d, a', b')(i)
    ensures forall z: Vec :: Quad(n, KeptBefore(q, a, b), z) == Quad(n, KeptBefore(q, a', b'), z)
  {
    var k, k' := KeptBefore(q, a, b), KeptBefore(q, a', b');
    forall i | 0 <= i < n
      ensures RowSum(n, k)(i) == RowSum(n, k')(i) && RowSum(n, Transpose(k))(i) == RowSum(n, Transpose(k'))(i)
    {
      SumEqual(n, Row(k, i), Row(k', i));
      SumEqual(n, Row(Transpose(k), i), Row(Transpose(k'), i));
    }
    forall z: Vec ensures Quad(n, k, z) == Quad(n, k', z) {
      QuadEqualMatrix(n, k, k', z);
    }
  }

  /** The row-by-row conversion: h is updated in place, the kept pairs are appended. */
  method QuboToIsing(rows: seq<seq<real>>) returns (m: Model)
    requires Square(rows)
    ensures |m.fields| == |rows| && |m.couplings| == |m.pairs|
    ensures forall i :: 0 <= i < |rows| ==> m.fields[i] == Field(|rows|, M(rows))(i)
    ensures m.pairs == PairsBefore(|rows|, M(rows), |rows|, 0)
    ensures forall k :: 0 <= k < |m.pairs| ==> m.couplings[k] == M(rows)(m.pairs[k].0, m.pairs[k].1) / 4.0
    ensures forall z: Vec :: PairEnergy(m.pairs, m.couplings, z) == Quad(|rows|, Kept(M(rows)), z) / 4.0
  {
    hide Quad, PairEnergy, FieldsScanned, Scanned, PairsBefore;
    var n := |rows|;
    ghost var q := M(rows);
    var h := new real[n](i => 0.0);
    var pairs: seq<Pair>, couplings: seq<real> := [], [];
    StartScan(n, q);
    StartFields(n, q, h[..]);
    for a := 0 to n
      invariant FieldsScanned(h[..], n, q, a, a, RowStart(n, a))
      invariant Scanned(n, q, a, RowStart(n, a), pairs, couplings)
    {
      assert q(a, a) == rows[a][a];
      AddDiagonal(h[..], n, q, a);
      h[a] := h[a] - rows[a][a] / 2.0;
      for b := a + 1 to n
        invariant FieldsScanned(h[..], n, q, a + 1, a, b)
        invariant Scanned(n, q, a, b, pairs, couplings)
      {
        assert q(a, b) == rows[a][b];
        if Abs(rows[a][b]) < SKIP {
          SkipPair(n, q, a, b, pairs, couplings);
          SkipFields(h[..], n, q, a + 1, a, b, a, b + 1);
        } else {
          KeepPair(n, q, a, b, pairs, couplings);
          KeepFields(h[..], n, q, a, b);
          h[a] := h[a] - rows[a][b] / 4.0;
          h[b] := h[b] - rows[a][b] / 4.0;
          pairs := pairs + [(a, b)];
          couplings := couplings + [rows[a][b] / 4.0];
        }
      }
      NextRow(n, q, a, pairs, couplings);
      SkipFields(h[..], n, q, a + 1, a, n, a + 1, RowStart(n, a + 1));
    }
    EndScan(n, q, h[..], pairs, couplings);
    m := Model(h[..], pairs, couplings);
  }

  lemma StartFields(n: nat, q: Mat, h: seq<real>)
    requires |h| == n && forall i :: 0 <= i < n ==> h[i] == 0.0
    ensures FieldsScanned(h, n, q, 0, 0, RowStart(n, 0))
  {
    var k := KeptBefore(q, 0, RowStart(n, 0));
    forall i | 0 <= i < n ensures h[i] == FieldBefore(n, q, 0, 0, RowStart(n, 0))(i) {
      SumZero(n, Row(k, i));
      SumZero(n, Row(Transpose(k), i));
      assert RowSum(n, k)(i) == 0.0 && RowSum(n, Transpose(k))(i) == 0.0;
    }
  }

  lemma AddDiagonal(h: seq<real>, n: nat, q: Mat, a: nat)
    requires a < n && FieldsScanned(h, n, q, a, a, a + 1)
    ensures FieldsScanned(h[a := h[a] - q(a, a) / 2.0], n, q, a + 1, a, a + 1)
  {
  }

  lemma KeepFields(h: seq<real>, n: nat, q: Mat, a: nat, b: nat)
    requires a < b < n && Abs(q(a, b)) >= SKIP
    requires FieldsScanned(h, n, q, a + 1, a, b)
    ensures var c := q(a, b) / 4.0; FieldsScanned(h[a := h[a] - c][b := h[b] - c], n, q, a + 1, a, b + 1)
  {
    hide FieldBefore;
    forall i: nat | i < n
      ensures FieldBefore(n, q, a + 1, a, b + 1)(i) == h[i] - if i == a || i == b then q(a, b) / 4.0 else 0.0
    {
      VisitKeptField(n, q, a, b, i);
    }
  }

  lemma SkipFields(h: seq<real>, n: nat, q: Mat, d: nat, a: nat, b: nat, a': nat, b': nat)
    requires forall i, j :: 0 <= i < n && 0 <= j < n ==> KeptBefore(q, a', b')(i, j) == KeptBefore(q, a, b)(i, j)
    requires FieldsScanned(h, n, q, d, a, b)
    ensures FieldsScanned(h, n, q, d, a', b')
  {
    hide FieldBefore;
    SameScan(n, q, a', b', a, b);
    forall i | 0 <= i < n ensures h[i] == FieldBefore(n, q, d, a', b')(i) {
      assert h[i] == FieldBefore(n, q, d, a, b)(i);
    }
  }

  lemma StartScan(n: nat, q: Mat)
    ensures Scanned(n, q, 0, RowStart(n, 0), [], [])
  {
    var k := KeptBefore(q, 0, RowStart(n, 0));
    forall z: Vec ensures Quad(n, k, z) == 0.0 {
      BilinearLinearMatrix(n, k, k, 1.0, k, z, z);
    }
  }

  lemma SkipPair(n: nat, q: Mat, a: nat, b: nat, pairs: seq<Pair>, couplings: seq<real>)
    requires a < b < n && Abs(q(a, b)) < SKIP
    requires Scanned(n, q, a, b, pairs, couplings)
    ensures Scanned(n, q, a, b + 1, pairs, couplings)
  {
    hide Quad, PairEnergy;
    SameScan(n, q, a, b + 1, a, b);
  }

  lemma KeepPair(n: nat, q: Mat, a: nat, b: nat, pairs: seq<Pair>, couplings: seq<real>)
    requires a < b < n && Abs(q(a, b)) >= SKIP
    requires Scanned(n, q, a, b, pairs, couplings)
    ensures Scanned(n, q, a, b + 1, pairs + [(a, b)], couplings + [q(a, b) / 4.0])
  {
    hide Quad;
    var ps, cs := pairs + [(a, b)], couplings + [q(a, b) / 4.0];
    forall z: Vec ensures PairEnergy(ps, cs, z) == Quad(n, KeptBefore(q, a, b + 1), z) / 4.0 {
      VisitKeptPair(n, q, a, b, z);
      assert ps[..|pairs|] == pairs && cs[..|pairs|] == couplings;
      assert PairEnergy(pairs, couplings, z) == Quad(n, KeptBefore(q, a, b), z) / 4.0;
    }
  }

  lemma NextRow(n: nat, q: Mat, a: nat, pairs: seq<Pair>, couplings: seq<real>)
    requires a < n
    requires Scanned(n, q, a, n, pairs, couplings)
    ensures Scanned(n, q, a + 1, RowStart(n, a + 1), pairs, couplings)
  {
    hide Quad, PairEnergy;
    SameScan(n, q, a, n, a + 1, RowStart(n, a + 1));
  }

  lemma EndScan(n: nat, q: Mat, h: seq<real>, pairs: seq<Pair>, couplings: seq<real>)
    requires FieldsScanned(h, n, q, n, n, 0)
    requires Scanned(n, q, n, 0, pairs, couplings)
    ensures |h| == n && forall i :: 0 <= i < n ==> h[i] == Field(n, q)(i)
    ensures pairs == PairsBefore(n, q, n, 0) && |couplings| == |pairs|
    ensures forall k :: 0 <= k < |pairs| ==> couplings[k] == q(pairs[k].0, pairs[k].1) / 4.0
    ensures forall z: Vec :: PairEnergy(pairs, couplings, z) == Quad(n, Kept(q), z) / 4.0
  {
    hide Quad, PairEnergy;
    var k, k' := KeptBefore(q, n, 0), Kept(q);
    forall i | 0 <= i < n
      ensures h[i] == Field(n, q)(i)
    {
      SumEqual(n, Row(k, i), Row(k', i));
      SumEqual(n, Row(Transpose(k), i), Row(Transpose(k'), i));
      assert RowSum(n, k)(i) == RowSum(n, k')(i) && RowSum(n, Transpose(k))(i) == RowSum(n, Transpose(k'))(i);
      assert h[i] == FieldBefore(n, q, n, n, 0)(i);
    }
    forall z: Vec ensures PairEnergy(pairs, couplings, z) == Quad(n, k', z) / 4.0 {
      QuadEqualMatrix(n, k, k', z);
      assert PairEnergy(pairs, couplings, z) == Quad(n, k, z) / 4.0;
    }
  }

  lemma QuadEqualMatrix(n: nat, m: Mat, m': Mat, z: Vec)
    requires forall i, j :: 0 <= i < n && 0 <= j < n ==> m(i, j) == m'(i, j)
    ensures Quad(n, m, z) == Quad(n, m', z)
  {
    BilinearLinearMatrix(n, m, m', 0.0, m', z, z);
  }

  // ---- Which pairs are kept ----

  /** The scan has passed (i, j) before it reaches (a, b). */
  predicate Before(i: nat, j: nat, a: nat, b: nat) {
    i < a || (i == a && j < b)
  }

  lemma {:induction false} PairsScanned(n: nat, q: Mat, a: nat, b: nat, i: nat, j: nat)
    requires (a < n ==> a < b <= n) && (a >= n ==> a == n && b == 0)
    ensures (i, j) in PairsBefore(n, q, a, b) <==> i < j < n && Before(i, j, a, b) && Abs(q(i, j)) >= SKIP
    decreases a, b
  {
    if a < n && b > a + 1 {
      PairsScanned(n, q, a, b - 1, i, j);
    } else if a > 0 {
      PairsScanned(n, q, a - 1, n, i, j);
    }
  }

  /** The conversion keeps exactly the pairs of the upper triangle of at least 1e-12 in size. */
  lemma PairsExactlyWhen(n: nat, q: Mat, i: nat, j: nat)
    ensures (i, j) in PairsBefore(n, q, n, 0) <==> i < j < n && Abs(q(i, j)) >= 0.000000000001
  {
    PairsScanned(n, q, n, 0, i, j);
  }

  ghost predicate InScanOrder(s: seq<Pair>) {
    forall k, l :: 0 <= k < l < |s| ==> Before(s[k].0, s[k].1, s[l].0, s[l].1)
  }

  /** They come row by row, each once. */
  lemma {:induction false} PairsInScanOrder(n: nat, q: Mat, a: nat, b: nat)
    requires (a < n ==> a < b <= n) && (a >= n ==> a == n && b == 0)
    ensures InScanOrder(PairsBefore(n, q, a, b))
    decreases a, b
  {
    if a < n && b > a + 1 {
      var s := PairsBefore(n, q, a, b - 1);
      PairsInScanOrder(n, q, a, b - 1);
      forall k | 0 <= k < |s| ensures Before(s[k].0, s[k].1, a, b - 1) {
        assert (s[k].0, s[k].1) == s[k];
        PairsScanned(n, q, a, b - 1, s[k].0, s[k].1);
      }
      ScanAppend(s, a, b - 1);
      assert s + [] == s;
    } else if a > 0 {
      PairsInScanOrder(n, q, a - 1, n);
    } else {
      assert PairsBefore(n, q, a, b) == [];
    }
  }

  lemma ScanAppend(s: seq<Pair>, a: nat, b: nat)
    requires InScanOrder(s) && forall k :: 0 <= k < |s| ==> Before(s[k].0, s[k].1, a, b)
    ensures InScanOrder(s + [(a, b)])
  {
  }

  // ---- What the coefficients mean ----

  /** Spins are ±1; x = (1 - z)/2 turns them into bits. */
  ghost predicate IsSpin(z: seq<int>) {
    forall i :: 0 <= i < |z| ==> z[i] == 1 || z[i] == -1
  }

  function Decode(z: seq<int>): (x: Selection)
    ensures |x| == |z|
  {
    seq(|z|, i requires 0 <= i < |z| => z[i] == -1)
  }

  function Spin(x: Selection): (z: seq<int>)
    ensures |z| == |x| && IsSpin(z) && Decode(z) == x
  {
    seq(|x|, i requires 0 <= i < |x| => if x[i] then -1 else 1)
  }

  function Z(z: seq<int>): Vec {
    i => if 0 <= i < |z| then z[i] as real else 0.0
  }

  /** The constant the conversion drops: Σ Qᵢᵢ/2 + Σ kept Qᵢⱼ/4. */
  function Offset(n: nat, q: Mat): real {
    Sum(n, DiagonalOf(q)) / 2.0 + Bilinear(n, Kept(q), Const(1.0), Const(1.0)) / 4.0
  }

  /** The Ising energy as a form in the spins. */
  function SpinForm(n: nat, q: Mat, z: Vec): real {
    Dot(n, Field(n, q), z) + Quad(n, Kept(q), z) / 4.0
  }

  lemma BilinearLinearLeft(n: nat, m: Mat, w: Vec, t: real, v: Vec, u: Vec)
    ensures Bilinear(n, m, Axpy(w, t, v), u) == Bilinear(n, m, w, u) + t * Bilinear(n, m, v, u)
  {
    BilinearTranspose(n, m, Axpy(w, t, v), u);
    BilinearTranspose(n, m, w, u);
    BilinearTranspose(n, m, v, u);
    BilinearLinearRight(n, Transpose(m), u, w, t, v);
  }

  lemma BilinearOnes(n: nat, m: Mat, z: Vec)
    ensures Bilinear(n, m, z, Const(1.0)) == Dot(n, RowSum(n, m), z)
    ensures Bilinear(n, m, Const(1.0), z) == Dot(n, RowSum(n, Transpose(m)), z)
  {
    BilinearOnesRight(n, m, z);
    BilinearTranspose(n, m, Const(1.0), z);
    BilinearOnesRight(n, Transpose(m), z);
  }

  lemma BilinearOnesRight(n: nat, m: Mat, z: Vec)
    ensures Bilinear(n, m, z, Const(1.0)) == Dot(n, RowSum(n, m), z)
  {
    forall i | 0 <= i < n
      ensures Times(z, Apply(n, m, Const(1.0)))(i) == Times(RowSum(n, m), z)(i)
    {
      SumEqual(n, Times(Row(m, i), Const(1.0)), Row(m, i));
    }
    SumEqual(n, Times(z, Apply(n, m, Const(1.0))), Times(RowSum(n, m), z));
  }

  /** w = (1 - z)/2 in a quadratic form. */
  lemma QuadOfBits(n: nat, m: Mat, z: Vec, w: Vec)
    requires forall i :: 0 <= i < n ==> w(i) == 0.5 - z(i) / 2.0
    ensures Quad(n, m, w)
         == (Bilinear(n, m, Const(1.0), Const(1.0)) - Dot(n, RowSum(n, m), z) - Dot(n, RowSum(n, Transpose(m)), z)
             + Quad(n, m, z)) / 4.0
  {
    hide Bilinear, Dot;
    var one := Const(1.0);
    var d := Axpy(one, -1.0, z);
    BilinearLinearRight(n, m, d, one, -1.0, z);
    BilinearLinearLeft(n, m, one, -1.0, z, one);
    BilinearLinearLeft(n, m, one, -1.0, z, z);
    BilinearOnes(n, m, z);
    HalfVector(n, m, d, w);
  }

  lemma HalfVector(n: nat, m: Mat, d: Vec, w: Vec)
    requires forall i :: 0 <= i < n ==> w(i) == d(i) / 2.0
    ensures Quad(n, m, w) == Quad(n, m, d) / 4.0
  {
    hide Apply, Quad, Times;
    forall i | 0 <= i < n ensures Times(w, Apply(n, m, w))(i) == 0.25 * Times(d, Apply(n, m, d))(i) {
      HalfRow(n, m, d, w, i);
    }
    SumScale(n, Times(w, Apply(n, m, w)), 0.25, Times(d, Apply(n, m, d)));
    QuadAsSum(n, m, w);
    QuadAsSum(n, m, d);
  }

  lemma HalfRow(n: nat, m: Mat, d: Vec, w: Vec, i: int)
    requires 0 <= i < n && forall j :: 0 <= j < n ==> w(j) == d(j) / 2.0
    ensures Times(w, Apply(n, m, w))(i) == 0.25 * Times(d, Apply(n, m, d))(i)
  {
    SumScale(n, Times(Row(m, i), w), 0.5, Times(Row(m, i), d));
    hide Dot;
    HalfTerm(d(i), Apply(n, m, d)(i));
  }

  lemma HalfTerm(x: real, y: real)
    ensures (x / 2.0) * (0.5 * y) == 0.25 * (x * y)
  {
  }

  lemma DiagonalOfBits(n: nat, d: Vec, z: Vec, w: Vec)
    requires forall i :: 0 <= i < n ==> w(i) == 0.0 || w(i) == 1.0
    requires forall i :: 0 <= i < n ==> w(i) == 0.5 - z(i) / 2.0
    ensures Quad(n, Diagonal(d), w) == Sum(n, d) / 2.0 - Dot(n, d, z) / 2.0
  {
    hide Quad;
    DiagonalIsLinear(n, d, w);
    DotLinear(n, d, w, Const(0.5), -0.5, z);
    SumScale(n, Times(d, Const(0.5)), 0.5, d);
  }

  lemma FieldForm(n: nat, f: Vec, d: Vec, r: Vec, c: Vec, z: Vec)
    requires forall i :: 0 <= i < n ==> f(i) == -d(i) / 2.0 - (r(i) + c(i)) / 4.0
    ensures Dot(n, f, z) == -(Dot(n, d, z) / 2.0) - (Dot(n, r, z) + Dot(n, c, z)) / 4.0
  {
    forall i | 0 <= i < n
      ensures Times(f, z)(i) == -0.5 * Times(d, z)(i) + -0.25 * Times(r, z)(i) + -0.25 * Times(c, z)(i)
    {
      FieldTerm(d(i), r(i), c(i), z(i));
    }
    SumCombination(n, Times(f, z), Times(d, z), Times(r, z), Times(c, z));
  }

  lemma {:induction false} SumCombination(n: nat, f: Vec, d: Vec, r: Vec, c: Vec)
    requires forall i :: 0 <= i < n ==> f(i) == -0.5 * d(i) + -0.25 * r(i) + -0.25 * c(i)
    ensures Sum(n, f) == -0.5 * Sum(n, d) + -0.25 * Sum(n, r) + -0.25 * Sum(n, c)
  {
    if n > 0 { SumCombination(n - 1, f, d, r, c); }
  }

  lemma FieldIsCombination(n: nat, q: Mat)
    ensures forall i ::
      Field(n, q)(i) == -DiagonalOf(q)(i) / 2.0 - (RowSum(n, Kept(q))(i) + RowSum(n, Transpose(Kept(q)))(i)) / 4.0
  {
  }

  lemma FieldTerm(d: real, r: real, c: real, z: real)
    ensures (-d / 2.0 - (r + c) / 4.0) * z == -0.5 * (d * z) + -0.25 * (r * z) + -0.25 * (c * z)
  {
  }

  /** An upper-triangular matrix is its diagonal, the kept pairs and the dropped pairs. */
  lemma SplitTriangle(n: nat, q: Mat, w: Vec)
    requires UpperTriangular(n, q)
    ensures Quad(n, q, w) == Quad(n, Diagonal(DiagonalOf(q)), w) + Quad(n, Kept(q), w) + Quad(n, Dropped(q), w)
  {
    var d := Diagonal(DiagonalOf(q));
    var dk: Mat := (i, j) => d(i, j) + Kept(q)(i, j);
    assert forall i, j :: Kept(q)(i, j) == Coupling(q, i, j);
    BilinearLinearMatrix(n, dk, d, 1.0, Kept(q), w, w);
    BilinearLinearMatrix(n, q, dk, 1.0, Dropped(q), w, w);
  }

  /** xᵀQx is the Ising energy of z plus the dropped constant plus the dropped pairs, exactly. */
  lemma IsingIdentity(n: nat, q: Mat, z: Vec, w: Vec)
    requires UpperTriangular(n, q)
    requires forall i :: 0 <= i < n ==> w(i) == 0.0 || w(i) == 1.0
    requires forall i :: 0 <= i < n ==> w(i) == 0.5 - z(i) / 2.0
    ensures Quad(n, q, w) == Offset(n, q) + SpinForm(n, q, z) + Quad(n, Dropped(q), w)
  {
    hide Quad, Bilinear, Dot, Field;
    SplitTriangle(n, q, w);
    DiagonalOfBits(n, DiagonalOf(q), z, w);
    QuadOfBits(n, Kept(q), z, w);
    FieldIsCombination(n, q);
    FieldForm(n, Field(n, q), DiagonalOf(q), RowSum(n, Kept(q)), RowSum(n, Transpose(Kept(q))), z);
  }

  /** Row i of an n×n matrix has n-1-i places to the right of the diagonal. */
  function RightOf(n: nat): Vec {
    i => (n - 1 - i) as real
  }

  function PairCount(n: nat): real {
    n as real * (n as real - 1.0) / 2.0
  }

  lemma {:induction false} TriangleNumber(n: nat, m: nat)
    requires m <= n
    ensures Sum(m, RightOf(n)) == m as real * (n as real - 1.0) - PairCount(m)
  {
    if m > 0 {
      TriangleNumber(n, m - 1);
      var a, b := m as real, n as real - 1.0;
      assert (a - 1.0) * b == a * b - b;
      assert (a - 1.0) * (a - 2.0) == a * (a - 1.0) - 2.0 * (a - 1.0);
    }
  }

  /** The dropped pairs of row i contribute at most (n-1-i)·SKIP. */
  lemma DroppedRow(n: nat, q: Mat, w: Vec, i: nat)
    requires i < n
    requires forall j :: 0 <= j < n ==> w(j) == 0.0 || w(j) == 1.0
    ensures ScaledRight(n, -SKIP)(i) <= Times(w, Apply(n, Dropped(q), w))(i) <= ScaledRight(n, SKIP)(i)
  {
    var row := Times(Row(Dropped(q), i), w);
    forall j | 0 <= j < n ensures StepVec(i, -SKIP)(j) <= row(j) <= StepVec(i, SKIP)(j) {
      assert Row(Dropped(q), i)(j) == if i < j && Abs(q(i, j)) < SKIP then q(i, j) else 0.0;
    }
    SumMonotone(n, row, StepVec(i, SKIP));
    SumMonotone(n, StepVec(i, -SKIP), row);
    StepSum(n, i, SKIP);
    StepSum(n, i, -SKIP);
    var r := (n - 1 - i) as real;
    assert RightOf(n)(i) == r;
    assert Times(w, Apply(n, Dropped(q), w))(i) == w(i) * Sum(n, row);
  }

  function StepVec(i: int, c: real): Vec {
    j => if i < j then c else 0.0
  }

  lemma {:induction false} StepSum(n: nat, i: nat, c: real)
    ensures Sum(n, StepVec(i, c)) == if i < n then c * (n - 1 - i) as real else 0.0
  {
    if n > 0 {
      StepSum(n - 1, i, c);
      if i < n - 1 { assert c * (n - 1 - i) as real == c * (n - 2 - i) as real + c; }
    }
  }

  lemma DroppedBound(n: nat, q: Mat, w: Vec)
    requires forall j :: 0 <= j < n ==> w(j) == 0.0 || w(j) == 1.0
    ensures -(PairCount(n) * SKIP) <= Quad(n, Dropped(q), w) <= PairCount(n) * SKIP
  {
    var terms := Times(w, Apply(n, Dropped(q), w));
    hide Apply, RightOf, PairCount, ScaledRight, Times;
    forall i: nat | i < n ensures ScaledRight(n, -SKIP)(i) <= terms(i) <= ScaledRight(n, SKIP)(i) {
      DroppedRow(n, q, w, i);
    }
    SumMonotone(n, terms, ScaledRight(n, SKIP));
    SumMonotone(n, ScaledRight(n, -SKIP), terms);
    ScaledRightSum(n, SKIP);
    ScaledRightSum(n, -SKIP);
  }

  lemma ScaledRightSum(n: nat, c: real)
    ensures Sum(n, ScaledRight(n, c)) == PairCount(n) * c
  {
    SumScale(n, ScaledRight(n, c), c, RightOf(n));
    TriangleNumber(n, n);
  }

  function ScaledRight(n: nat, c: real): Vec {
    i => c * RightOf(n)(i)
  }

  /** Nothing dropped: every pair is zero or at least SKIP in size. */
  ghost predicate NothingDropped(n: nat, q: Mat) {
    forall i, j :: 0 <= i < j < n ==> q(i, j) == 0.0 || Abs(q(i, j)) >= SKIP
  }

  lemma DroppedZero(n: nat, q: Mat, w: Vec)
    requires NothingDropped(n, q)
    ensures Quad(n, Dropped(q), w) == 0.0
  {
    QuadEqualMatrix(n, Dropped(q), ConstMat(0.0), w);
    BilinearLinearMatrix(n, ConstMat(0.0), ConstMat(0.0), 1.0, ConstMat(0.0), w, w);
  }

  /** A model as the conversion returns it for the matrix `rows`. */
  ghost predicate Converted(m: Model, rows: seq<seq<real>>) {
    && |m.fields| == |rows| && |m.couplings| == |m.pairs|
    && (forall i :: 0 <= i < |rows| ==> m.fields[i] == Field(|rows|, M(rows))(i))
    && (forall z: Vec :: PairEnergy(m.pairs, m.couplings, z) == Quad(|rows|, Kept(M(rows)), z) / 4.0)
  }

  lemma ModelEnergy(m: Model, rows: seq<seq<real>>, z: Vec)
    requires Converted(m, rows)
    ensures IsingEnergy(m, z) == SpinForm(|rows|, M(rows), z)
  {
    hide Quad, PairEnergy, Field;
    var n := |rows|;
    SumEqual(n, Times(V(m.fields), z), Times(Field(n, M(rows)), z));
  }

  /** For every spin vector the Ising energy plus a fixed constant is within n(n-1)/2·1e-12 of
      the QUBO energy of the decoded bits, and equal to it when no pair was dropped. */
  lemma IsingMatchesQubo(m: Model, rows: seq<seq<real>>, z: seq<int>)
    requires Converted(m, rows) && UpperTriangular(|rows|, M(rows))
    requires IsSpin(z) && |z| == |rows|
    ensures var error := Energy(M(rows), Decode(z)) - (IsingEnergy(m, Z(z)) + Offset(|rows|, M(rows)));
            -(PairCount(|rows|) * SKIP) <= error <= PairCount(|rows|) * SKIP &&
            (NothingDropped(|rows|, M(rows)) ==> error == 0.0)
  {
    hide Quad, SpinForm, Offset, PairCount, IsingEnergy, NothingDropped;
    var n, q, w := |rows|, M(rows), B(Decode(z));
    IsingIdentity(n, q, Z(z), w);
    ModelEnergy(m, rows, Z(z));
    DroppedBound(n, q, w);
    if NothingDropped(n, q) { DroppedZero(n, q, w); }
  }

  ghost predicate IsGroundState(m: Model, z: seq<int>)
    requires |m.pairs| == |m.couplings|
  {
    IsSpin(z) && |z| == |m.fields| &&
    forall y: seq<int> :: IsSpin(y) && |y| == |z| ==> IsingEnergy(m, Z(z)) <= IsingEnergy(m, Z(y))
  }

  /** A ground state decodes to within n(n-1)·1e-12 of the QUBO minimum, and to a minimum
      when no pair was dropped. */
  lemma GroundStateDecodes(m: Model, rows: seq<seq<real>>, z: seq<int>, x: Selection)
    requires Converted(m, rows) && UpperTriangular(|rows|, M(rows))
    requires IsGroundState(m, z) && |x| == |rows|
    ensures Energy(M(rows), Decode(z)) <= Energy(M(rows), x) + 2.0 * (PairCount(|rows|) * SKIP)
    ensures NothingDropped(|rows|, M(rows)) ==> Energy(M(rows), Decode(z)) <= Energy(M(rows), x)
  {
    hide Energy, Offset, PairCount, IsingEnergy, NothingDropped;
    IsingMatchesQubo(m, rows, z);
    IsingMatchesQubo(m, rows, Spin(x));
  }
}
