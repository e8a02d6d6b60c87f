/** Exactly which sector limits leave a portfolio. */
module SectorLimits {
  import opened Reals
  import opened Sums
  import opened Constraints
  import opened Options

  /** The smallest limit on a sector; the same sector may be listed more than once. */
  function Smallest(sectors: seq<SectorLimit>, sector: string): real
    requires Limited(sectors, sector)
  {
    var rest, last := sectors[..|sectors| - 1], sectors[|sectors| - 1];
    CoveredSplit(sectors, sector);
    if !Limited(rest, sector) then last.maxWeight
    else if last.sector == sector && last.maxWeight < Smallest(rest, sector) then last.maxWeight
    else Smallest(rest, sector)
  }

  lemma {:induction false} SmallestIsLeast(sectors: seq<SectorLimit>, sector: string) returns (k: nat)
    requires Limited(sectors, sector)
    ensures k < |sectors| && sectors[k].sector == sector && sectors[k].maxWeight == Smallest(sectors, sector)
    ensures forall j :: 0 <= j < |sectors| && sectors[j].sector == sector ==>
              Smallest(sectors, sector) <= sectors[j].maxWeight
  {
    var n, rest := |sectors| - 1, sectors[..|sectors| - 1];
    CoveredSplit(sectors, sector);
    if Limited(rest, sector) {
      k := SmallestIsLeast(rest, sector);
      assert forall j :: 0 <= j < n ==> rest[j] == sectors[j];
      if sectors[n].sector == sector && sectors[n].maxWeight < Smallest(rest, sector) { k := n; }
    } else {
      k := n;
      forall j | 0 <= j < n ensures sectors[j].sector != sector { assert rest[j] == sectors[j]; }
    }
  }

  /** Asset i is not touched by any limit. */
  predicate Free(sectors: seq<SectorLimit>, sectorOf: seq<string>, i: nat)
    requires i < |sectorOf|
  {
    sectorOf[i] == "" || !Limited(sectors, sectorOf[i])
  }

  predicate First(sectorOf: seq<string>, i: nat)
    requires i < |sectorOf|
  {
    forall j :: 0 <= j < i ==> sectorOf[j] != sectorOf[i]
  }

  lemma {:induction false} FirstOf(sectorOf: seq<string>, i: nat) returns (f: nat)
    requires i < |sectorOf|
    ensures f <= i && sectorOf[f] == sectorOf[i] && First(sectorOf, f)
    decreases i
  {
    if First(sectorOf, i) {
      f := i;
    } else {
      var j: nat :| j < i && sectorOf[j] == sectorOf[i];
      f := FirstOf(sectorOf, j);
    }
  }

  /** The smallest limit of each limited sector that is present, at its first asset. */
  function Capacity(sectors: seq<SectorLimit>, sectorOf: seq<string>): Vec {
    i => if 0 <= i < |sectorOf| && !Free(sectors, sectorOf, i) && First(sectorOf, i)
         then Smallest(sectors, sectorOf[i]) else 0.0
  }

  ghost predicate Admits(sectors: seq<SectorLimit>, sectorOf: seq<string>, w: Vec) {
    OnSimplex(|sectorOf|, w) && forall k :: 0 <= k < |sectors| ==> MeetsSector(sectors[k], sectorOf, w)
  }

  /** Sector limits alone leave a portfolio exactly when some asset is free of them, or the smallest limits of
      the sectors present sum to at least one. */
  lemma SectorLimitsLeaveAPortfolioExactlyWhen(sectors: seq<SectorLimit>, sectorOf: seq<string>)
    requires forall k :: 0 <= k < |sectors| ==> sectors[k].maxWeight >= 0.0
    ensures (exists w: Vec :: Admits(sectors, sectorOf, w))
       <==> (exists i :: 0 <= i < |sectorOf| && Free(sectors, sectorOf, i)) || Sum(|sectorOf|, Capacity(sectors, sectorOf)) >= 1.0
  {
    hide Free, Capacity, OnSimplex, MeetsSector;
    if i: nat :| i < |sectorOf| && Free(sectors, sectorOf, i) {
      FreeAssetTakesAll(sectors, sectorOf, i);
    } else if Sum(|sectorOf|, Capacity(sectors, sectorOf)) >= 1.0 {
      CapacityFills(sectors, sectorOf);
    } else {
      forall w: Vec | Admits(sectors, sectorOf, w) ensures false {
        WeightFitsCapacity(sectors, sectorOf, w);
      }
    }
  }

  lemma FreeAssetTakesAll(sectors: seq<SectorLimit>, sectorOf: seq<string>, i: nat)
    requires forall k :: 0 <= k < |sectors| ==> sectors[k].maxWeight >= 0.0
    requires i < |sectorOf| && Free(sectors, sectorOf, i)
    ensures Admits(sectors, sectorOf, Unit(i))
  {
    var n := |sectorOf|;
    SumSingle(n, Unit(i), i);
    forall k | 0 <= k < |sectors| ensures MeetsSector(sectors[k], sectorOf, Unit(i)) {
      SumZero(n, InSector(sectorOf, sectors[k].sector, Unit(i)));
    }
  }

  /** Each sector at its smallest limit, rescaled to sum to one. */
  lemma CapacityFills(sectors: seq<SectorLimit>, sectorOf: seq<string>)
    requires forall k :: 0 <= k < |sectors| ==> sectors[k].maxWeight >= 0.0
    requires Sum(|sectorOf|, Capacity(sectors, sectorOf)) >= 1.0
    ensures exists w: Vec :: Admits(sectors, sectorOf, w)
  {
    var n, c := |sectorOf|, Capacity(sectors, sectorOf);
    var total := Sum(n, c);
    forall i: nat | i < n ensures c(i) >= 0.0 {
      CapacityNonNegative(sectors, sectorOf, i);
    }
    hide Capacity, MeetsSector;
    var w := ScaledDown(n, c, total);
    forall k: nat | k < |sectors| ensures MeetsSector(sectors[k], sectorOf, w) {
      FilledSector(sectors, sectorOf, w, k);
    }
    assert Admits(sectors, sectorOf, w);
  }

  lemma ScaledDown(n: nat, c: Vec, total: real) returns (w: Vec)
    requires Sum(n, c) == total >= 1.0 && forall i :: 0 <= i < n ==> c(i) >= 0.0
    ensures OnSimplex(n, w) && forall i :: 0 <= i < n ==> 0.0 <= w(i) <= c(i)
  {
    var t := 1.0 / total;
    Reciprocal(total);
    w := i => t * c(i);
    SumScale(n, w, t, c);
    forall i: nat | i < n ensures 0.0 <= w(i) <= c(i) {
      Shrinks(t, c(i));
    }
  }

  lemma Reciprocal(total: real)
    requires total >= 1.0
    ensures 0.0 < 1.0 / total <= 1.0 && (1.0 / total) * total == 1.0
  {
    DivMonotone(1.0, total, total);
  }

  lemma Shrinks(t: real, x: real)
    requires 0.0 <= t <= 1.0 && x >= 0.0
    ensures 0.0 <= t * x <= x
  {
    ScaleMonotone(x, 0.0, t);
    ScaleMonotone(x, t, 1.0);
  }

  lemma CapacityNonNegative(sectors: seq<SectorLimit>, sectorOf: seq<string>, i: nat)
    requires forall k :: 0 <= k < |sectors| ==> sectors[k].maxWeight >= 0.0
    requires i < |sectorOf|
    ensures Capacity(sectors, sectorOf)(i) >= 0.0
  {
    if !Free(sectors, sectorOf, i) {
      var k := SmallestIsLeast(sectors, sectorOf[i]);
    }
  }

  /** Only the first asset of a sector has weight, and no more than the smallest limit. */
  lemma FilledSector(sectors: seq<SectorLimit>, sectorOf: seq<string>, w: Vec, k: nat)
    requires k < |sectors|
    requires forall i :: 0 <= i < |sectorOf| ==> 0.0 <= w(i) <= Capacity(sectors, sectorOf)(i)
    ensures MeetsSector(sectors[k], sectorOf, w)
  {
    var name := sectors[k].sector;
    if !SectorIsEmpty(sectorOf, name) {
      var i: nat :| i < |sectorOf| && sectorOf[i] == name;
      var f := FirstOf(sectorOf, i);
      var least := SmallestIsLeast(sectors, name);
      forall j | 0 <= j < |sectorOf| && j != f ensures InSector(sectorOf, name, w)(j) == 0.0 {
        if sectorOf[j] == name { assert !First(sectorOf, j); }
      }
      SumSingle(|sectorOf|, InSector(sectorOf, name, w), f);
      assert w(f) <= Capacity(sectors, sectorOf)(f);
    }
  }

  /** The weight of asset j, in the row of the first asset of its sector. */
  function Grouped(sectorOf: seq<string>, w: Vec): Mat {
    (i, j) => if 0 <= i < |sectorOf| && 0 <= j < |sectorOf| && First(sectorOf, i) && sectorOf[i] == sectorOf[j]
              then w(j) else 0.0
  }

  /** Without a free asset the whole weight is within the capacity. */
  lemma WeightFitsCapacity(sectors: seq<SectorLimit>, sectorOf: seq<string>, w: Vec)
    requires Admits(sectors, sectorOf, w)
    requires forall i :: 0 <= i < |sectorOf| ==> !Free(sectors, sectorOf, i)
    ensures Sum(|sectorOf|, Capacity(sectors, sectorOf)) >= 1.0
  {
    hide Capacity, Free, MeetsSector;
    var n, g := |sectorOf|, Grouped(sectorOf, w);
    forall i: nat | i < n ensures RowSum(n, g)(i) <= Capacity(sectors, sectorOf)(i) {
      GroupWithinLimit(sectors, sectorOf, w, i);
    }
    SumMonotone(n, RowSum(n, g), Capacity(sectors, sectorOf));
    SumSwapRect(n, n, g);
    forall j: nat | j < n ensures RowSum(n, Transpose(g))(j) == w(j) {
      OneGroup(sectorOf, w, j);
    }
    SumEqual(n, RowSum(n, Transpose(g)), w);
  }

  lemma OneGroup(sectorOf: seq<string>, w: Vec, j: nat)
    requires j < |sectorOf|
    ensures RowSum(|sectorOf|, Transpose(Grouped(sectorOf, w)))(j) == w(j)
  {
    var f := FirstOf(sectorOf, j);
    var column := Row(Transpose(Grouped(sectorOf, w)), j);
    forall i: nat | i < |sectorOf| && i != f ensures column(i) == 0.0 {
      if sectorOf[i] == sectorOf[j] { OnlyOneFirst(sectorOf, i, f); }
    }
    SumSingle(|sectorOf|, column, f);
  }

  lemma OnlyOneFirst(sectorOf: seq<string>, i: nat, f: nat)
    requires i < |sectorOf| && f < |sectorOf| && i != f && sectorOf[i] == sectorOf[f] && First(sectorOf, f)
    ensures !First(sectorOf, i)
  {
  }

  lemma GroupWithinLimit(sectors: seq<SectorLimit>, sectorOf: seq<string>, w: Vec, i: nat)
    requires Admits(sectors, sectorOf, w) && i < |sectorOf| && !Free(sectors, sectorOf, i)
    ensures RowSum(|sectorOf|, Grouped(sectorOf, w))(i) <= Capacity(sectors, sectorOf)(i)
  {
    var n, row := |sectorOf|, Row(Grouped(sectorOf, w), i);
    if First(sectorOf, i) {
      var k := SmallestIsLeast(sectors, sectorOf[i]);
      SumEqual(n, row, InSector(sectorOf, sectorOf[i], w));
      assert MeetsSector(sectors[k], sectorOf, w);
    } else {
      SumZero(n, row);
    }
  }

  /** The warning adds up the limits as listed, so a limit on a sector that is absent hides that nothing fits:
      here it is silent and no portfolio meets the limits. */
  lemma AbsentSectorHidesInfeasibility()
    ensures var limits := [SectorLimit("A", 0.5), SectorLimit("B", 0.5)];
      var req := Request(None, None, None, limits, []);
      SectorWarning(req) == [] && !exists w: Vec :: Admits(limits, ["A", "A"], w)
  {
    var a, b := SectorLimit("A", 0.5), SectorLimit("B", 0.5);
    assert [a][..0] == [] && TotalLimit([a]) == TotalLimit([]) + a.maxWeight;
    assert [a, b][..1] == [a] && TotalLimit([a, b]) == TotalLimit([a]) + b.maxWeight;
    SectorLimitsLeaveAPortfolioExactlyWhen([a, b], ["A", "A"]);
    assert [a, b][0].sector == "A" && Limited([a, b], "A");
    var k := SmallestIsLeast([a, b], "A");
    TwoTerms(Capacity([a, b], ["A", "A"]));
    assert !First(["A", "A"], 1);
  }
}
