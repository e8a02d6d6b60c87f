/** Repairing a solver's answer to exactly k assets, the greedy fallback, and the
    equal-weight portfolio built from either. */
module Cardinality {
  import opened Sums
  import opened Selections

  // ---- argsort ----

  /** Some ascending order of the indices of v; ties may come in any order. */
  ghost predicate IsArgsort(order: seq<nat>, v: seq<real>) {
    && |order| == |v|
    && (forall i :: 0 <= i < |order| ==> order[i] < |v|)
    && (forall i :: 0 <= i < |v| ==> i in order)
    && (forall i, j :: 0 <= i < j < |order| ==> order[i] != order[j] && v[order[i]] <= v[order[j]])
  }

  method Argsort(v: seq<real>) returns (order: seq<nat>)
    ensures IsArgsort(order, v)
    ensures |order| == |v| && forall i :: 0 <= i < |v| ==> order[i] < |v|
  {
    order := [];
    for i := 0 to |v|
      invariant IsArgsort(order, v[..i])
    {
      var j := InsertionPoint(order, v[..i], v[i]);
      InsertionKeepsArgsort(order, v[..i], v[i], j);
      assert v[..i + 1] == v[..i] + [v[i]];
      order := order[..j] + [i] + order[j..];
    }
    assert v[..|v|] == v;
  }

  method InsertionPoint(order: seq<nat>, v: seq<real>, x: real) returns (j: nat)
    requires IsArgsort(order, v)
    ensures j <= |v|
    ensures forall a :: 0 <= a < j ==> v[order[a]] <= x
    ensures j < |v| ==> x < v[order[j]]
  {
    j := 0;
    while j < |v| && v[order[j]] <= x
      invariant 0 <= j <= |v|
      invariant forall a :: 0 <= a < j ==> v[order[a]] <= x
    {
      j := j + 1;
    }
  }

  lemma InsertionKeepsArgsort(order: seq<nat>, v: seq<real>, x: real, j: nat)
    requires IsArgsort(order, v) && j <= |v|
    requires forall a :: 0 <= a < j ==> v[order[a]] <= x
    requires j < |v| ==> x < v[order[j]]
    ensures IsArgsort(order[..j] + [|v|] + order[j..], v + [x])
  {
    var after, w := order[..j] + [|v|] + order[j..], v + [x];
    forall i: nat | i < |w| ensures i in after {
      InsertionIsOnto(order, |v|, j, i);
    }
    forall a, b | 0 <= a < b < |after|
      ensures after[a] != after[b] && w[after[a]] <= w[after[b]]
    {
      assert a != j ==> after[a] == order[if a < j then a else a - 1];
      assert b != j ==> after[b] == order[if b < j then b else b - 1];
    }
  }

  lemma InsertionIsOnto(order: seq<nat>, n: nat, j: nat, i: nat)
    requires j <= |order| && (i in order || i == n)
    ensures i in order[..j] + [n] + order[j..]
  {
  }

  // ---- What a repair may return ----

  function Clamp(k: int, n: nat): nat {
    if k < 0 then 0 else if k > n then n else k
  }

  ghost predicate Subset(x: Selection, y: Selection) {
    |x| == |y| && forall i :: 0 <= i < |x| && x[i] ==> y[i]
  }

  /** r keeps `c` assets of t (or adds to t up to `c`), and no asset left out beats one that was
      kept (or added). */
  ghost predicate Repairs(t: Selection, c: nat, mu: seq<real>, r: Selection)
    requires |t| == |mu|
  {
    && |r| == |t| && Count(r) == c
    && (c <= Count(t) ==> Subset(r, t))
    && (c >= Count(t) ==> Subset(t, r))
    && (forall i, j :: 0 <= i < |t| && 0 <= j < |t| && r[i] && !r[j] && t[i] == t[j] == (c < Count(t)) ==>
          mu[j] <= mu[i])
  }

  /** The selections a repair of t to c assets could have returned. */
  ghost predicate Candidate(t: Selection, c: nat, y: Selection) {
    |y| == |t| && Count(y) == c && (if c <= Count(t) then Subset(y, t) else Subset(t, y))
  }

  lemma {:induction false} LowestMissing(n: nat, mu: seq<real>, x: Selection, y: Selection) returns (found: bool, i: nat)
    requires n <= |x| == |y| == |mu|
    ensures found ==> i < n && x[i] && !y[i] && forall j :: 0 <= j < n && x[j] && !y[j] ==> mu[i] <= mu[j]
    ensures !found ==> forall j :: 0 <= j < n && x[j] ==> y[j]
  {
    if n == 0 {
      found, i := false, 0;
    } else {
      found, i := LowestMissing(n - 1, mu, x, y);
      if x[n - 1] && !y[n - 1] && (!found || mu[n - 1] < mu[i]) {
        found, i := true, n - 1;
      }
    }
  }

  lemma {:induction false} HighestMissing(n: nat, mu: seq<real>, x: Selection, y: Selection) returns (found: bool, i: nat)
    requires n <= |x| == |y| == |mu|
    ensures found ==> i < n && x[i] && !y[i] && forall j :: 0 <= j < n && x[j] && !y[j] ==> mu[j] <= mu[i]
    ensures !found ==> forall j :: 0 <= j < n && x[j] ==> y[j]
  {
    if n == 0 {
      found, i := false, 0;
    } else {
      found, i := HighestMissing(n - 1, mu, x, y);
      if x[n - 1] && !y[n - 1] && (!found || mu[i] < mu[n - 1]) {
        found, i := true, n - 1;
      }
    }
  }

  /** If every asset of r that y lacks earns at least c and every asset of y that r lacks at most c,
      r earns at least as much as an equally large y. */
  lemma ThresholdExchange(mu: seq<real>, r: Selection, y: Selection, c: real)
    requires |r| == |y| == |mu| && Count(r) == Count(y)
    requires forall i :: 0 <= i < |r| && r[i] && !y[i] ==> mu[i] >= c
    requires forall i :: 0 <= i < |r| && y[i] && !r[i] ==> mu[i] <= c
    ensures Dot(|r|, V(mu), B(y)) <= Dot(|r|, V(mu), B(r))
  {
    hide V, Times;
    var n, v, excess := |r|, V(mu), Above(mu, c);
    ExchangeTerms(mu, r, y, c);
    SumMonotone(n, Times(excess, B(y)), Times(excess, B(r)));
    CountIsSum(r);
    CountIsSum(y);
    ShiftedDot(n, v, c, excess, B(y));
    ShiftedDot(n, v, c, excess, B(r));
  }

  function Above(mu: seq<real>, c: real): Vec {
    i => V(mu)(i) - c
  }

  lemma ExchangeTerms(mu: seq<real>, r: Selection, y: Selection, c: real)
    requires |r| == |y| == |mu|
    requires forall i :: 0 <= i < |r| && r[i] && !y[i] ==> mu[i] >= c
    requires forall i :: 0 <= i < |r| && y[i] && !r[i] ==> mu[i] <= c
    ensures forall i :: 0 <= i < |r| ==> Times(Above(mu, c), B(y))(i) <= Times(Above(mu, c), B(r))(i)
  {
    forall i | 0 <= i < |r| ensures Times(Above(mu, c), B(y))(i) <= Times(Above(mu, c), B(r))(i) {
      assert V(mu)(i) == mu[i];
      ExchangeTerm(Above(mu, c)(i), y[i], r[i]);
    }
  }

  lemma ExchangeTerm(e: real, y: bool, r: bool)
    requires r && !y ==> e >= 0.0
    requires y && !r ==> e <= 0.0
    ensures e * Bit(y) <= e * Bit(r)
  {
  }

  lemma ShiftedDot(n: nat, v: Vec, c: real, excess: Vec, w: Vec)
    requires forall i :: 0 <= i < n ==> excess(i) == v(i) - c
    ensures Dot(n, excess, w) == Dot(n, v, w) - c * Sum(n, w)
  {
  }

  /** A repair earns at least as much as every other candidate. */
  lemma RepairIsOptimal(t: Selection, c: nat, mu: seq<real>, r: Selection, y: Selection)
    requires |t| == |mu|
    requires Repairs(t, c, mu, r) && Candidate(t, c, y)
    ensures Dot(|t|, V(mu), B(y)) <= Dot(|t|, V(mu), B(r))
  {
    var found, i := LowestMissing(|t|, mu, r, y);
    if found {
      ThresholdExchange(mu, r, y, mu[i]);
    } else {
      var found', j := HighestMissing(|t|, mu, y, r);
      if found' {
        ThresholdExchange(mu, r, y, mu[j]);
      } else {
        assert r == y;
      }
    }
  }

  /** Repairing a selection that already has the right size changes nothing. */
  lemma RepairIsIdempotent(t: Selection, k: int, mu: seq<real>, r: Selection, again: Selection)
    requires |t| == |mu|
    requires Repairs(t, Clamp(k, |t|), mu, r)
    requires Repairs(r, Clamp(k, |t|), mu, again)
    ensures again == r
  {
  }

  // ---- The repair of a raw answer ----

  lemma SubsetCounts(x: Selection, y: Selection)
    requires Subset(x, y)
    ensures Count(x) <= Count(y)
  {
    CountIsSum(x);
    CountIsSum(y);
    SumMonotone(|x|, B(x), B(y));
  }

  lemma ProperSubsetCounts(x: Selection, y: Selection, i: nat)
    requires Subset(x, y) && i < |x| && !x[i] && y[i]
    ensures Count(x) < Count(y)
  {
    CountSelect(x, i);
    SubsetCounts(x[i := true], y);
  }

  /** Asset i comes before asset j: its value lies above one half and that of j does not, or both lie on the same
      side and i has at least the return of j. */
  predicate Ahead(raw: seq<real>, mu: seq<real>, i: nat, j: nat)
    requires i < |raw| == |mu| && j < |raw|
  {
    if (raw[i] > 0.5) == (raw[j] > 0.5) then mu[i] >= mu[j] else raw[i] > 0.5
  }

  ghost predicate NoneBehind(raw: seq<real>, mu: seq<real>, r: Selection)
    requires |raw| == |mu| == |r|
  {
    forall i, j :: 0 <= i < |r| && 0 <= j < |r| && r[i] && !r[j] ==> Ahead(raw, mu, i, j)
  }

  /** What a repair may return is exactly c assets none of which stands behind an asset left out. */
  lemma RepairsExactlyWhen(raw: seq<real>, c: nat, mu: seq<real>, r: Selection)
    requires |raw| == |mu|
    ensures Repairs(Threshold(raw), c, mu, r) <==> |r| == |raw| && Count(r) == c && NoneBehind(raw, mu, r)
  {
    hide Count;
    var t := Threshold(raw);
    if Repairs(t, c, mu, r) {
      forall i: nat, j: nat | i < |r| && j < |r| && r[i] && !r[j] ensures Ahead(raw, mu, i, j) {
        if c == Count(t) && t[i] == t[j] {
          assert Subset(r, t) && Subset(t, r);
        }
      }
    } else if |r| == |raw| && Count(r) == c && NoneBehind(raw, mu, r) {
      OneSided(raw, mu, r);
      assert false;
    }
  }

  /** Such a selection only removes from the values above one half, or only adds to them, as its size demands. */
  lemma OneSided(raw: seq<real>, mu: seq<real>, r: Selection)
    requires |raw| == |mu| == |r| && NoneBehind(raw, mu, r)
    ensures Repairs(Threshold(raw), Count(r), mu, r)
  {
    hide Count;
    var t := Threshold(raw);
    if i: nat :| i < |r| && r[i] && !t[i] {
      assert Subset(t, r);
      ProperSubsetCounts(t, r, i);
    } else {
      assert Subset(r, t);
      SubsetCounts(r, t);
      if j: nat :| j < |r| && t[j] && !r[j] {
        ProperSubsetCounts(r, t, j);
      } else {
        assert r == t;
      }
    }
    forall i: nat, j: nat | i < |t| && j < |t| && r[i] && !r[j] && t[i] == t[j] ensures mu[j] <= mu[i] {
      assert Ahead(raw, mu, i, j);
    }
  }

  // ---- The repair itself ----

  /** Values above one half count as selected. */
  function Threshold(x: seq<real>): (t: Selection)
    ensures |t| == |x|
  {
    seq(|x|, i requires 0 <= i < |x| => x[i] > 0.5)
  }

  function Pick<T>(s: seq<T>, indices: seq<nat>): (r: seq<T>)
    requires forall a :: 0 <= a < |indices| ==> indices[a] < |s|
    ensures |r| == |indices| && forall a :: 0 <= a < |r| ==> r[a] == s[indices[a]]
  {
    seq(|indices|, a requires 0 <= a < |indices| => s[indices[a]])
  }

  ghost predicate Distinct(s: seq<nat>) {
    forall a, b :: 0 <= a < b < |s| ==> s[a] != s[b]
  }

  /** x with the listed bits set to b. */
  ghost predicate IsSetAt(x: Selection, indices: seq<nat>, b: bool, y: Selection) {
    |y| == |x| && forall i :: 0 <= i < |x| ==> y[i] == if i in indices then b else x[i]
  }

  lemma {:induction false} CountAfterSet(x: Selection, indices: seq<nat>, b: bool, y: Selection)
    requires IsSetAt(x, indices, b, y) && Distinct(indices)
    requires forall a :: 0 <= a < |indices| ==> indices[a] < |x| && x[indices[a]] != b
    ensures Count(y) == Count(x) + if b then |indices| else -|indices|
  {
    if indices == [] {
      assert y == x;
    } else {
      var last := |indices| - 1;
      var i, z := indices[last], y[indices[last] := !b];
      assert forall a :: a in indices[..last] <==> a in indices && a != i;
      CountAfterSet(x, indices[..last], b, z);
      if b { CountSelect(z, i); } else { CountDrop(z, i); }
      assert z[i := b] == y;
    }
  }

  method SetAll(x: array<bool>, indices: seq<nat>, b: bool)
    requires forall a :: 0 <= a < |indices| ==> indices[a] < x.Length
    modifies x
    ensures IsSetAt(old(x[..]), indices, b, x[..])
  {
    for a := 0 to |indices|
      invariant IsSetAt(old(x[..]), indices[..a], b, x[..])
    {
      x[indices[a]] := b;
      assert indices[..a + 1] == indices[..a] + [indices[a]];
    }
    assert indices[..|indices|] == indices;
  }

  /** Exactly k assets out of any solver answer: drop the worst of too many, add the best to too few. */
  method EnforceCardinality(x: seq<real>, k: int, mu: seq<real>) returns (binary: array<bool>)
    requires |x| == |mu|
    ensures Repairs(Threshold(x), Clamp(k, |x|), mu, binary[..])
  {
    hide Repairs, IsArgsort, IsSetAt, Count, Where, Lists;
    ghost var t := Threshold(x);
    binary := new bool[|x|](i requires 0 <= i < |x| => x[i] > 0.5);
    assert binary[..] == t;
    var selected := Count(binary[..]);
    CountIsSum(t);
    if selected == k {
      NoRepairNeeded(t, mu);
      return;
    }
    var pool := Where(binary[..], selected > k);
    var order := Argsort(Pick(mu, pool));
    WhereLists(t, selected > k);
    PoolSize(pool, t, selected > k);
    if selected > k {
      var count := if selected - k > |order| then |order| else selected - k;
      SetAll(binary, Pick(pool, order[..count]), false);
      RemovalRepairs(t, mu, pool, order, count, binary[..]);
    } else {
      var count := if k - selected > |order| then |order| else k - selected;
      SetAll(binary, Pick(pool, order[|order| - count..]), true);
      AdditionRepairs(t, mu, pool, order, count, binary[..]);
    }
  }

  lemma NoRepairNeeded(t: Selection, mu: seq<real>)
    requires |t| == |mu|
    ensures Repairs(t, Count(t), mu, t)
  {
  }

  /** Setting a part of the pool to b moves the count by the size of that part. */
  lemma CountAfterPick(t: Selection, b: bool, pool: seq<nat>, part: seq<nat>, r: Selection)
    requires Lists(pool, t, !b) && Distinct(part)
    requires forall a :: 0 <= a < |part| ==> part[a] < |pool|
    requires IsSetAt(t, Pick(pool, part), b, r)
    ensures Count(r) == Count(t) + if b then |part| else -|part|
    ensures if b then Subset(t, r) else Subset(r, t)
  {
    CountAfterSet(t, Pick(pool, part), b, r);
  }

  lemma RemovalRepairs(t: Selection, mu: seq<real>, pool: seq<nat>, order: seq<nat>, count: nat, r: Selection)
    requires |t| == |mu| && Lists(pool, t, true)
    requires (forall a :: 0 <= a < |pool| ==> pool[a] < |mu|) && IsArgsort(order, Pick(mu, pool)) && count <= |order|
    requires IsSetAt(t, Pick(pool, order[..count]), false, r)
    ensures Repairs(t, Count(t) - count, mu, r)
  {
    hide IsArgsort, Lists, IsSetAt;
    ArgsortShape(order, Pick(mu, pool));
    CountAfterPick(t, false, pool, order[..count], r);
    if count == 0 {
      SetNothing(t, Pick(pool, order[..count]), false, r);
    } else {
      forall i: nat, j: nat | i < |t| && j < |t| && r[i] && !r[j] && t[i] && t[j]
        ensures mu[j] <= mu[i]
      {
        PoolMember(pool, t, true, i);
        SetMembers(t, Pick(pool, order[..count]), false, r, i, j);
        HeadOrder(mu, pool, order, count, i, j);
      }
    }
  }

  lemma AdditionRepairs(t: Selection, mu: seq<real>, pool: seq<nat>, order: seq<nat>, count: nat, r: Selection)
    requires |t| == |mu| && Lists(pool, t, false)
    requires (forall a :: 0 <= a < |pool| ==> pool[a] < |mu|) && IsArgsort(order, Pick(mu, pool)) && count <= |order|
    requires IsSetAt(t, Pick(pool, order[|order| - count..]), true, r)
    ensures Repairs(t, Count(t) + count, mu, r)
  {
    hide IsArgsort, Lists, IsSetAt;
    ArgsortShape(order, Pick(mu, pool));
    var tail := order[|order| - count..];
    CountAfterPick(t, true, pool, tail, r);
    if count == 0 {
      SetNothing(t, Pick(pool, tail), true, r);
    } else {
      forall i: nat, j: nat | i < |t| && j < |t| && r[i] && !r[j] && !t[i] && !t[j]
        ensures mu[j] <= mu[i]
      {
        PoolMember(pool, t, false, j);
        SetMembers(t, Pick(pool, tail), true, r, j, i);
        TailOrder(mu, pool, order, |order| - count, i, j);
      }
    }
  }

  lemma SetNothing(t: Selection, part: seq<nat>, b: bool, r: Selection)
    requires IsSetAt(t, part, b, r) && part == []
    ensures r == t
  {
  }

  /** Of two bits that were !b, the one now b was in the set part and the other was not. */
  lemma SetMembers(t: Selection, part: seq<nat>, b: bool, r: Selection, out: nat, inside: nat)
    requires IsSetAt(t, part, b, r) && out < |t| && inside < |t|
    requires t[out] == t[inside] == r[out] == !b && r[inside] == b
    ensures out !in part && inside in part
  {
  }

  lemma ArgsortShape(order: seq<nat>, v: seq<real>)
    requires IsArgsort(order, v)
    ensures |order| == |v| && (forall i :: 0 <= i < |order| ==> order[i] < |v|)
    ensures forall a, b :: 0 <= a < b < |order| ==> order[a] != order[b]
  {
  }

  lemma OrderedReturns(mu: seq<real>, pool: seq<nat>, order: seq<nat>, a: nat, b: nat)
    requires forall c :: 0 <= c < |pool| ==> pool[c] < |mu|
    requires IsArgsort(order, Pick(mu, pool)) && a <= b < |order|
    ensures mu[pool[order[a]]] <= mu[pool[order[b]]]
  {
  }

  lemma InHead(pool: seq<nat>, order: seq<nat>, count: nat, a: nat)
    requires forall c :: 0 <= c < |order| ==> order[c] < |pool|
    requires a < count <= |order|
    ensures pool[order[a]] in Pick(pool, order[..count])
  {
  }

  lemma InTail(pool: seq<nat>, order: seq<nat>, first: nat, b: nat)
    requires forall c :: 0 <= c < |order| ==> order[c] < |pool|
    requires first <= b < |order|
    ensures pool[order[b]] in Pick(pool, order[first..])
  {
  }

  /** An index of the pool outside the head of the order earns at least what one inside it does. */
  lemma HeadOrder(mu: seq<real>, pool: seq<nat>, order: seq<nat>, count: nat, i: nat, j: nat)
    requires forall a :: 0 <= a < |pool| ==> pool[a] < |mu|
    requires IsArgsort(order, Pick(mu, pool)) && count <= |order|
    requires i in pool && i !in Pick(pool, order[..count])
    requires j in Pick(pool, order[..count])
    ensures i < |mu| && j < |mu| && mu[j] <= mu[i]
  {
    hide IsArgsort;
    ArgsortShape(order, Pick(mu, pool));
    var head := Pick(pool, order[..count]);
    var a := PlaceInOrder(mu, pool, order, i);
    var c :| 0 <= c < |head| && head[c] == j;
    assert head[c] == pool[order[c]];
    if a >= count {
      OrderedReturns(mu, pool, order, c, a);
    } else {
      InHead(pool, order, count, a);
      assert false;
    }
  }

  /** An index of the tail of the order earns at least what one outside it does. */
  lemma TailOrder(mu: seq<real>, pool: seq<nat>, order: seq<nat>, first: nat, i: nat, j: nat)
    requires forall a :: 0 <= a < |pool| ==> pool[a] < |mu|
    requires IsArgsort(order, Pick(mu, pool)) && first <= |order|
    requires i in Pick(pool, order[first..])
    requires j in pool && j !in Pick(pool, order[first..])
    ensures i < |mu| && j < |mu| && mu[j] <= mu[i]
  {
    hide IsArgsort;
    ArgsortShape(order, Pick(mu, pool));
    var tail := Pick(pool, order[first..]);
    var b := PlaceInOrder(mu, pool, order, j);
    var c :| 0 <= c < |tail| && tail[c] == i;
    assert tail[c] == pool[order[first + c]];
    if b < first {
      OrderedReturns(mu, pool, order, b, first + c);
    } else {
      InTail(pool, order, first, b);
      assert false;
    }
  }

  /** Where index i of a pool stands in the order of that pool. */
  lemma PlaceInOrder(mu: seq<real>, pool: seq<nat>, order: seq<nat>, i: nat) returns (a: nat)
    requires forall c :: 0 <= c < |pool| ==> pool[c] < |mu|
    requires i in pool && IsArgsort(order, Pick(mu, pool))
    ensures a < |order| && order[a] < |pool| && pool[order[a]] == i
  {
    var c :| 0 <= c < |pool| && pool[c] == i;
    assert c in order;
    a :| 0 <= a < |order| && order[a] == c;
  }

  // ---- The greedy fallback ----

  function NoneSelected(n: nat): (x: Selection)
    ensures |x| == n && forall i :: 0 <= i < n ==> !x[i]
  {
    seq(n, _ => false)
  }

  /** How many entries the slice [-k:] of n entries keeps after k := min(k, n): for k = 0 all of
      them, for negative k all but the first |k|. */
  function GreedyCount(k: int, n: nat): nat {
    var m := if k < n then k else n;
    if m > 0 then m else if n + m > 0 then n + m else 0
  }

  /** All indices, in order. */
  function All(n: nat): seq<nat> {
    seq(n, i => i)
  }

  lemma AllListsNone(n: nat)
    ensures Count(NoneSelected(n)) == 0
    ensures Lists(All(n), NoneSelected(n), false)
  {
    CountNone(n);
    forall i: nat | i < n ensures i in All(n) {
      assert All(n)[i] == i;
    }
  }

  lemma {:induction false} CountNone(n: nat)
    ensures Count(NoneSelected(n)) == 0
  {
    if n > 0 {
      CountNone(n - 1);
      assert NoneSelected(n)[..n - 1] == NoneSelected(n - 1);
    }
  }

  /** The assets with the highest returns. */
  method GreedySelection(mu: seq<real>, k: int) returns (x: array<bool>)
    ensures Repairs(NoneSelected(|mu|), GreedyCount(k, |mu|), mu, x[..])
  {
    hide Repairs, IsArgsort, Count, Where;
    var n := |mu|;
    var m := if k < n then k else n;
    x := new bool[n](_ => false);
    assert x[..] == NoneSelected(n);
    var order := Argsort(mu);
    var start := if m > 0 then n - m else if -m < n then -m else n;
    SetAll(x, order[start..], true);
    GreedyRepairs(mu, order, n - start, x[..]);
  }

  lemma GreedyRepairs(mu: seq<real>, order: seq<nat>, count: nat, r: Selection)
    requires IsArgsort(order, mu) && count <= |mu|
    requires IsSetAt(NoneSelected(|mu|), order[|mu| - count..], true, r)
    ensures Repairs(NoneSelected(|mu|), count, mu, r)
  {
    hide IsArgsort, IsSetAt, Repairs, Lists;
    ArgsortShape(order, mu);
    AllListsNone(|mu|);
    assert Pick(mu, All(|mu|)) == mu;
    assert Pick(All(|mu|), order[|mu| - count..]) == order[|mu| - count..];
    AdditionRepairs(NoneSelected(|mu|), mu, All(|mu|), order, count, r);
  }

  /** The fallback selects k assets (at least 0, at most n) exactly when k is positive, the
      universe is empty, or k ≤ -n. In particular k = 0 selects everything. */
  lemma GreedyCountExact(k: int, n: nat)
    ensures GreedyCount(k, n) == Clamp(k, n) <==> k >= 1 || n == 0 || n + k <= 0
  {
  }

  /** No k-subset earns more than the greedy one. */
  lemma GreedyIsOptimal(mu: seq<real>, k: nat, r: Selection, y: Selection)
    requires 1 <= k <= |mu|
    requires Repairs(NoneSelected(|mu|), GreedyCount(k, |mu|), mu, r)
    requires |y| == |mu| && Count(y) == k
    ensures Count(r) == k
    ensures Dot(|mu|, V(mu), B(y)) <= Dot(|mu|, V(mu), B(r))
  {
    CountNone(|mu|);
    RepairIsOptimal(NoneSelected(|mu|), k, mu, r, y);
  }

  // ---- The portfolio ----

  datatype Position = Position(asset: nat, weight: real, allocation: real)

  function TotalWeight(ps: seq<Position>): real {
    if ps == [] then 0.0 else TotalWeight(ps[..|ps| - 1]) + ps[|ps| - 1].weight
  }

  function TotalAllocation(ps: seq<Position>): real {
    if ps == [] then 0.0 else TotalAllocation(ps[..|ps| - 1]) + ps[|ps| - 1].allocation
  }

  lemma {:induction false} TotalsOfEqualWeights(ps: seq<Position>, w: real, a: real)
    requires forall i :: 0 <= i < |ps| ==> ps[i].weight == w && ps[i].allocation == a
    ensures TotalWeight(ps) == |ps| as real * w && TotalAllocation(ps) == |ps| as real * a
  {
    if ps != [] {
      TotalsOfEqualWeights(ps[..|ps| - 1], w, a);
      assert |ps| as real * w == (|ps| - 1) as real * w + w;
      assert |ps| as real * a == (|ps| - 1) as real * a + a;
    }
  }

  /** Each of n positions carries an n-th of the weight and of the budget. */
  ghost predicate EquallyShared(ps: seq<Position>, budget: real) {
    forall a :: 0 <= a < |ps| ==> ps[a].weight == 1.0 / |ps| as real && ps[a].allocation == budget / |ps| as real
  }

  /** Equal weights on the selected assets. */
  method EqualWeights(x: Selection, budget: real) returns (weights: array<real>, positions: seq<Position>)
    ensures weights.Length == |x|
    ensures forall i :: 0 <= i < |x| ==> weights[i] == if x[i] then Share(Count(x)) else 0.0
    ensures |positions| == Count(x)
    ensures forall a :: 0 <= a < |positions| ==> positions[a].asset < |x| && x[positions[a].asset]
    ensures forall a, b :: 0 <= a < b < |positions| ==> positions[a].asset < positions[b].asset
    ensures EquallyShared(positions, budget)
    ensures Count(x) > 0 ==> TotalWeight(positions) == 1.0 && TotalAllocation(positions) == budget
  {
    hide Count, Share, TotalWeight, TotalAllocation, EquallyShared, Where;
    var selected := Where(x, true);
    WhereLists(x, true);
    var share := Share(|selected|);
    weights := new real[|x|](_ => 0.0);
    if selected != [] {
      for a := 0 to |selected|
        invariant forall i :: 0 <= i < |x| ==> weights[i] == if i in selected[..a] then share else 0.0
      {
        weights[selected[a]] := share;
        assert selected[..a + 1] == selected[..a] + [selected[a]];
      }
      assert selected[..|selected|] == selected;
    }
    var w := weights[..];
    positions := seq(|selected|, a requires 0 <= a < |selected| =>
      Position(selected[a], w[selected[a]], w[selected[a]] * budget));
    EqualTotals(positions, budget);
  }

  lemma EqualTotals(ps: seq<Position>, budget: real)
    requires forall i :: 0 <= i < |ps| ==> ps[i].weight == Share(|ps|) && ps[i].allocation == Share(|ps|) * budget
    ensures EquallyShared(ps, budget)
    ensures ps != [] ==> TotalWeight(ps) == 1.0 && TotalAllocation(ps) == budget
  {
    hide Share;
    if ps != [] {
      TotalsOfEqualWeights(ps, Share(|ps|), Share(|ps|) * budget);
      ShareSums(|ps|, budget);
      ShareIs(|ps|, budget);
    }
  }

  function Share(count: nat): real {
    if count == 0 then 0.0 else 1.0 / count as real
  }

  lemma ShareIs(n: nat, budget: real)
    requires n > 0
    ensures Share(n) == 1.0 / n as real && Share(n) * budget == budget / n as real
  {
  }

  lemma ShareSums(n: nat, budget: real)
    requires n > 0
    ensures n as real * Share(n) == 1.0
    ensures n as real * (Share(n) * budget) == budget
  {
  }

  /** What follows every solve: repair to k assets, then weight them equally. */
  method AfterSolve(raw: seq<real>, k: int, mu: seq<real>, budget: real)
    returns (chosen: Selection, weights: array<real>, positions: seq<Position>)
    requires |raw| == |mu|
    ensures Repairs(Threshold(raw), Clamp(k, |mu|), mu, chosen)
    ensures |positions| == Clamp(k, |mu|)
    ensures forall a :: 0 <= a < |positions| ==> positions[a].asset < |mu| && chosen[positions[a].asset]
    ensures forall a, b :: 0 <= a < b < |positions| ==> positions[a].asset < positions[b].asset
    ensures EquallyShared(positions, budget)
    ensures 1 <= k && mu != [] ==> TotalWeight(positions) == 1.0 && TotalAllocation(positions) == budget
  {
    var binary := EnforceCardinality(raw, k, mu);
    chosen := binary[..];
    weights, positions := EqualWeights(chosen, budget);
  }
}
