/** Selections of assets: binary vectors x in {0,1}ⁿ. */
module Selections {
  import opened Sums

  type Selection = seq<bool>

  function Bit(b: bool): real {
    if b then 1.0 else 0.0
  }

  /** The 0/1 coefficients of a selection. */
  function B(x: Selection): Vec {
    i => if 0 <= i < |x| then Bit(x[i]) else 0.0
  }

  function Count(x: Selection): nat {
    if x == [] then 0 else Count(x[..|x| - 1]) + if x[|x| - 1] then 1 else 0
  }

  lemma {:induction false} CountIsSum(x: Selection)
    ensures Sum(|x|, B(x)) == Count(x) as real
    ensures Count(x) <= |x|
  {
    if x != [] {
      var y := x[..|x| - 1];
      CountIsSum(y);
      SumEqual(|y|, B(x), B(y));
    }
  }

  /** Flipping one bit on changes the coefficients by a unit vector and the count by one. */
  lemma CountSelect(x: Selection, i: nat)
    requires i < |x| && !x[i]
    ensures Count(x[i := true]) == Count(x) + 1
  {
    CountIsSum(x);
    CountIsSum(x[i := true]);
    SumDiffersAt(|x|, B(x[i := true]), B(x), i);
  }

  lemma CountDrop(x: Selection, i: nat)
    requires i < |x| && x[i]
    ensures Count(x[i := false]) == Count(x) - 1
  {
    CountSelect(x[i := false], i);
    assert x[i := false][i := true] == x;
  }

  lemma {:induction false} FindBit(x: Selection, b: bool) returns (i: nat)
    requires if b then Count(x) > 0 else Count(x) < |x|
    ensures i < |x| && x[i] == b
  {
    if x[|x| - 1] == b {
      i := |x| - 1;
    } else {
      CountIsSum(x[..|x| - 1]);
      i := FindBit(x[..|x| - 1], b);
    }
  }

  /** Every real function on {0,1}ⁿ has a minimiser. */
  lemma {:induction false} MinimiserExists(n: nat, f: Selection -> real) returns (x: Selection)
    ensures |x| == n
    ensures forall y: Selection :: |y| == n ==> f(x) <= f(y)
  {
    if n == 0 {
      x := [];
    } else {
      var withLast: Selection -> real, withoutLast: Selection -> real := y => f(y + [true]), y => f(y + [false]);
      var a := MinimiserExists(n - 1, withLast);
      var b := MinimiserExists(n - 1, withoutLast);
      x := if withLast(a) <= withoutLast(b) then a + [true] else b + [false];
      forall y: Selection | |y| == n
        ensures f(x) <= f(y)
      {
        var z := y[..n - 1];
        if y[n - 1] {
          assert y == z + [true];
          assert withLast(a) <= withLast(z);
        } else {
          assert y == z + [false];
          assert withoutLast(b) <= withoutLast(z);
        }
      }
    }
  }

  /** The indices of the bits equal to b, ascending. */
  function Where(x: Selection, b: bool): (s: seq<nat>)
    ensures forall a :: 0 <= a < |s| ==> s[a] < |x|
  {
    if x == [] then []
    else
      var n := |x| - 1;
      var rest := Where(x[..n], b);
      if x[n] == b then rest + [n] else rest
  }

  /** `pool` lists the bits of x equal to b, each once and in order. */
  ghost predicate Lists(pool: seq<nat>, x: Selection, b: bool) {
    && (forall a :: 0 <= a < |pool| ==> pool[a] < |x| && x[pool[a]] == b)
    && (forall a, c :: 0 <= a < c < |pool| ==> pool[a] < pool[c])
    && (forall i: nat :: i < |x| && x[i] == b ==> i in pool)
    && |pool| == if b then Count(x) else |x| - Count(x)
  }

  lemma {:induction false} WhereLists(x: Selection, b: bool)
    ensures Lists(Where(x, b), x, b)
  {
    if x != [] {
      WhereLists(x[..|x| - 1], b);
      ExtendList(Where(x[..|x| - 1], b), x, b);
    }
  }

  lemma ExtendList(pool: seq<nat>, x: Selection, b: bool)
    requires x != [] && Lists(pool, x[..|x| - 1], b)
    ensures Lists(if x[|x| - 1] == b then pool + [|x| - 1] else pool, x, b)
  {
    var n := |x| - 1;
    var longer := if x[n] == b then pool + [n] else pool;
    assert Count(x) == Count(x[..n]) + if x[n] then 1 else 0;
    hide Count;
    forall i: nat | i < |x| && x[i] == b ensures i in longer {
      ExtendMember(pool, x, b, i);
    }
    forall a: nat | a < |longer| ensures longer[a] < |x| && x[longer[a]] == b {
      ExtendRange(pool, x, b, a);
    }
  }

  lemma ExtendRange(pool: seq<nat>, x: Selection, b: bool, a: nat)
    requires x != [] && Lists(pool, x[..|x| - 1], b)
    requires a < if x[|x| - 1] == b then |pool| + 1 else |pool|
    ensures var i := if a < |pool| then pool[a] else |x| - 1; i < |x| && x[i] == b && (a < |pool| ==> i < |x| - 1)
  {
    if a < |pool| { assert x[..|x| - 1][pool[a]] == b; }
  }

  lemma ExtendMember(pool: seq<nat>, x: Selection, b: bool, i: nat)
    requires x != [] && Lists(pool, x[..|x| - 1], b)
    requires i < |x| && x[i] == b
    ensures i in if x[|x| - 1] == b then pool + [|x| - 1] else pool
  {
    if i < |x| - 1 {
      PoolMember(pool, x[..|x| - 1], b, i);
    } else {
      assert (pool + [i])[|pool|] == i;
    }
  }

  lemma PoolMember(pool: seq<nat>, x: Selection, b: bool, i: nat)
    requires Lists(pool, x, b) && i < |x| && x[i] == b
    ensures i in pool
  {
  }

  lemma PoolSize(pool: seq<nat>, x: Selection, b: bool)
    requires Lists(pool, x, b)
    ensures |pool| == if b then Count(x) else |x| - Count(x)
  {
  }

  lemma CountPositive(x: Selection, i: nat)
    requires i < |x| && x[i]
    ensures Count(x) > 0
  {
    CountDrop(x, i);
  }
}
