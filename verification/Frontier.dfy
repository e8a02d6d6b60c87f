/** What happens to the points of a frontier sweep after the solver: sort, flag, find the knee,
    pick the reference points. */
module Frontier {
  import opened Options
  import opened Directions
  import opened Selections
  import opened Dominance
  import opened Knee

  class FrontierPoint {
    const x: real
    const y: real
    const sharpe: real
    var isDominant: bool
    var isKnee: bool

    constructor (x: real, y: real, sharpe: real)
      ensures this.x == x && this.y == y && this.sharpe == sharpe && isDominant && !isKnee
    {
      this.x, this.y, this.sharpe := x, y, sharpe;
      isDominant, isKnee := true, false;
    }
  }

  ghost predicate Distinct(points: seq<FrontierPoint>) {
    forall i, j :: 0 <= i < j < |points| ==> points[i] != points[j]
  }

  function Coordinates(points: seq<FrontierPoint>): (ps: seq<Point>)
    ensures |ps| == |points| && forall i :: 0 <= i < |ps| ==> ps[i] == Point(points[i].x, points[i].y)
  {
    seq(|points|, i requires 0 <= i < |points| => Point(points[i].x, points[i].y))
  }

  /** The flags of all points are those of the specification. */
  ghost predicate Flagged(points: seq<FrontierPoint>, dx: Direction, dy: Direction)
    reads points
  {
    forall i :: 0 <= i < |points| ==> (points[i].isDominant <==> Flag(Coordinates(points), i, dx, dy))
  }

  // ---- Flagging in place ----

  method FlagDominance(points: seq<FrontierPoint>, dx: Direction, dy: Direction)
    requires Distinct(points)
    modifies points
    ensures Flagged(points, dx, dy)
    ensures forall p :: p in points ==> p.isKnee == old(p.isKnee)
  {
    hide Dominates, Improves;
    if |points| <= 1 {
      if |points| == 1 { points[0].isDominant := true; }
      LoneFlag(Coordinates(points), dx, dy);
      return;
    }
    if dx.Minimize? && dy.Maximize? {
      SweepForward(points);
    } else if dx.Maximize? && dy.Minimize? {
      SweepBackward(points);
    } else {
      CompareAll(points, dx, dy);
    }
  }

  lemma LoneFlag(ps: seq<Point>, dx: Direction, dy: Direction)
    ensures |ps| == 1 ==> Flag(ps, 0, dx, dy)
  {
  }

  /** One step of the sweep. */
  lemma SweepStep(ps: seq<Point>, i: nat)
    requires i < |ps|
    ensures Kept(ps, i) <==> Improves(ps[i].y, BestAfter(ps, i))
    ensures BestAfter(ps, i + 1) == if Kept(ps, i) then Set(ps[i].y) else BestAfter(ps, i)
    ensures BestAfter(ps, 0) == Unset
  {
  }

  method SweepForward(points: seq<FrontierPoint>)
    requires Distinct(points)
    modifies points
    ensures forall i :: 0 <= i < |points| ==> (points[i].isDominant <==> Kept(Coordinates(points), i))
    ensures forall p :: p in points ==> p.isKnee == old(p.isKnee)
  {
    hide Kept, BestAfter;
    ghost var ps := Coordinates(points);
    var best := Unset;
    for i := 0 to |points|
      invariant i == 0 ==> best == Unset
      invariant i > 0 ==> best == BestAfter(ps, i)
      invariant forall j :: 0 <= j < i ==> (points[j].isDominant <==> Kept(ps, j))
      invariant forall p :: p in points ==> p.isKnee == old(p.isKnee)
    {
      var p := points[i];
      SweepStep(ps, i);
      if Improves(p.y, best) {
        p.isDominant := true;
        best := Set(p.y);
      } else {
        p.isDominant := false;
      }
    }
  }

  /** The mirrored running best, with the sign of y turned back. */
  function Negated(b: Best): Best {
    if b.Unset? then Unset else Set(-b.y)
  }

  method SweepBackward(points: seq<FrontierPoint>)
    requires Distinct(points)
    modifies points
    ensures forall i :: 0 <= i < |points| ==>
      (points[i].isDominant <==> Kept(Mirror(Coordinates(points)), |points| - 1 - i))
    ensures forall p :: p in points ==> p.isKnee == old(p.isKnee)
  {
    hide Kept, BestAfter;
    var n := |points|;
    ghost var ms := Mirror(Coordinates(points));
    var best := Unset;
    var k := 0;
    while k < n
      invariant 0 <= k <= n
      invariant k == 0 ==> best == Unset
      invariant k > 0 ==> Negated(best) == BestAfter(ms, k)
      invariant forall j :: n - k <= j < n ==> (points[j].isDominant <==> Kept(ms, n - 1 - j))
      invariant forall p :: p in points ==> p.isKnee == old(p.isKnee)
    {
      var p := points[n - 1 - k];
      SweepStep(ms, k);
      if best.Unset? || p.y < best.y - TOL {
        p.isDominant := true;
        best := Set(p.y);
      } else {
        p.isDominant := false;
      }
      k := k + 1;
    }
  }

  method CompareAll(points: seq<FrontierPoint>, dx: Direction, dy: Direction)
    requires Distinct(points)
    modifies points
    ensures forall i :: 0 <= i < |points| ==> (points[i].isDominant <==> Undominated(Coordinates(points), i, dx, dy))
    ensures forall p :: p in points ==> p.isKnee == old(p.isKnee)
  {
    hide Dominates;
    var n, ps := |points|, Coordinates(points);
    for i := 0 to n
      invariant forall k :: 0 <= k < i ==> (points[k].isDominant <==> Undominated(ps, k, dx, dy))
      invariant forall p :: p in points ==> p.isKnee == old(p.isKnee)
    {
      var dominated, j := false, 0;
      while j < n && !dominated
        invariant 0 <= j <= n
        invariant !dominated ==> forall k :: 0 <= k < j && k != i ==> !Dominates(ps[k], ps[i], dx, dy)
        invariant dominated ==> !Undominated(ps, i, dx, dy)
        decreases n - j, !dominated
      {
        if j != i && Dominates(ps[j], ps[i], dx, dy) {
          dominated := true;
        } else {
          j := j + 1;
        }
      }
      points[i].isDominant := !dominated;
    }
  }

  // ---- Sorting ----

  ghost predicate Ascending(s: seq<FrontierPoint>) {
    forall a, b :: 0 <= a < b < |s| ==> s[a].x <= s[b].x
  }

  /** The points of one x value, in order. */
  function AtX(s: seq<FrontierPoint>, x: real): seq<FrontierPoint> {
    if s == [] then [] else AtX(s[..|s| - 1], x) + if s[|s| - 1].x == x then [s[|s| - 1]] else []
  }

  /** Points of equal x keep their order. */
  ghost predicate Stable(before: seq<FrontierPoint>, after: seq<FrontierPoint>) {
    forall x: real :: AtX(after, x) == AtX(before, x)
  }

  method SortByX(points: seq<FrontierPoint>) returns (sorted: seq<FrontierPoint>)
    ensures multiset(sorted) == multiset(points)
    ensures Ascending(sorted) && SortedByX(Coordinates(sorted))
    ensures Stable(points, sorted)
  {
    hide IsStableSort, Ascending, Stable;
    sorted := [];
    SortStart();
    for i := 0 to |points|
      invariant IsStableSort(points[..i], sorted)
    {
      var j := |sorted|;
      while j > 0 && points[i].x < sorted[j - 1].x
        invariant 0 <= j <= |sorted|
        invariant forall k :: j <= k < |sorted| ==> points[i].x < sorted[k].x
        decreases j
      {
        j := j - 1;
      }
      assert points[..i + 1] == points[..i] + [points[i]];
      InsertionSorts(points[..i], sorted, points[i], j);
      sorted := sorted[..j] + [points[i]] + sorted[j..];
    }
    assert points[..|points|] == points;
    SortEnds(points, sorted);
  }

  ghost predicate IsStableSort(before: seq<FrontierPoint>, after: seq<FrontierPoint>) {
    multiset(after) == multiset(before) && Ascending(after) && Stable(before, after)
  }

  lemma SortStart()
    ensures IsStableSort([], [])
  {
  }

  lemma SortEnds(before: seq<FrontierPoint>, after: seq<FrontierPoint>)
    requires IsStableSort(before, after)
    ensures multiset(after) == multiset(before) && Ascending(after) && Stable(before, after)
    ensures SortedByX(Coordinates(after))
  {
    hide Stable;
  }

  lemma InsertionSorts(before: seq<FrontierPoint>, s: seq<FrontierPoint>, p: FrontierPoint, j: nat)
    requires IsStableSort(before, s) && j <= |s|
    requires forall k :: j <= k < |s| ==> p.x < s[k].x
    requires j > 0 ==> s[j - 1].x <= p.x
    ensures IsStableSort(before + [p], s[..j] + [p] + s[j..])
  {
    hide Stable, Ascending;
    InsertionKeepsOrder(s, p, j);
    InsertionKeepsElements(s, p, j);
    InsertionIsStable(before, s, p, j);
  }

  lemma StableStart()
    ensures Stable([], [])
  {
  }

  lemma {:induction false} AtXAppend(a: seq<FrontierPoint>, b: seq<FrontierPoint>, x: real)
    ensures AtX(a + b, x) == AtX(a, x) + AtX(b, x)
  {
    if b == [] {
      assert a + b == a;
    } else {
      assert (a + b)[..|a + b| - 1] == a + b[..|b| - 1];
      AtXAppend(a, b[..|b| - 1], x);
    }
  }

  lemma {:induction false} NoneAtX(s: seq<FrontierPoint>, x: real)
    requires forall k :: 0 <= k < |s| ==> s[k].x != x
    ensures AtX(s, x) == []
  {
    if s != [] { NoneAtX(s[..|s| - 1], x); }
  }

  lemma InsertionIsStable(before: seq<FrontierPoint>, s: seq<FrontierPoint>, p: FrontierPoint, j: nat)
    requires Stable(before, s) && j <= |s|
    requires forall k :: j <= k < |s| ==> p.x < s[k].x
    ensures Stable(before + [p], s[..j] + [p] + s[j..])
  {
    hide AtX;
    forall x: real ensures AtX(s[..j] + [p] + s[j..], x) == AtX(before + [p], x) {
      assert s[..j] + s[j..] == s && AtX(s, x) == AtX(before, x);
      InsertedAtX(before, s[..j], p, s[j..], x);
    }
  }

  lemma InsertedAtX(before: seq<FrontierPoint>, low: seq<FrontierPoint>, p: FrontierPoint, high: seq<FrontierPoint>, x: real)
    requires AtX(low + high, x) == AtX(before, x)
    requires forall k :: 0 <= k < |high| ==> p.x < high[k].x
    ensures AtX(low + [p] + high, x) == AtX(before + [p], x)
  {
    hide AtX;
    AtXAppend(before, [p], x);
    AtXAppend(low + [p], high, x);
    AtXAppend(low, [p], x);
    AtXAppend(low, high, x);
    if p.x == x { NoneAtX(high, x); } else { NoneAtX([p], x); }
    MoveEmpty(AtX(low, x), AtX([p], x), AtX(high, x));
  }

  lemma MoveEmpty(low: seq<FrontierPoint>, p: seq<FrontierPoint>, high: seq<FrontierPoint>)
    requires p == [] || high == []
    ensures low + p + high == low + high + p
  {
  }

  lemma InsertionKeepsOrder(s: seq<FrontierPoint>, p: FrontierPoint, j: nat)
    requires Ascending(s) && j <= |s|
    requires forall k :: j <= k < |s| ==> p.x < s[k].x
    requires j > 0 ==> s[j - 1].x <= p.x
    ensures Ascending(s[..j] + [p] + s[j..])
  {
    var r := s[..j] + [p] + s[j..];
    forall a, b | 0 <= a < b < |r| ensures r[a].x <= r[b].x {
      InsertedPair(s, p, j, a, b);
    }
  }

  lemma InsertedPair(s: seq<FrontierPoint>, p: FrontierPoint, j: nat, a: nat, b: nat)
    requires Ascending(s) && j <= |s|
    requires forall k :: j <= k < |s| ==> p.x < s[k].x
    requires j > 0 ==> s[j - 1].x <= p.x
    requires a < b <= |s|
    ensures (s[..j] + [p] + s[j..])[a].x <= (s[..j] + [p] + s[j..])[b].x
  {
    if a < j - 1 { assert s[a].x <= s[j - 1].x; }
  }

  lemma InsertionKeepsElements(s: seq<FrontierPoint>, p: FrontierPoint, j: nat)
    requires j <= |s|
    ensures multiset(s[..j] + [p] + s[j..]) == multiset(s) + multiset{p}
  {
    assert s == s[..j] + s[j..];
  }

  lemma PermutationIsDistinct(s: seq<FrontierPoint>, t: seq<FrontierPoint>)
    requires multiset(s) == multiset(t) && Distinct(s)
    ensures Distinct(t) && |t| == |s|
    ensures forall i :: 0 <= i < |t| ==> t[i] in s
  {
    assert |multiset(s)| == |s| && |multiset(t)| == |t|;
    forall i | 0 <= i < |t| ensures t[i] in s {
      assert t[i] in multiset(t);
    }
    if i, j :| 0 <= i < j < |t| && t[i] == t[j] {
      TwiceInMultiset(t, i, j);
      OnceInMultiset(s, t[i]);
    }
  }

  lemma TwiceInMultiset(t: seq<FrontierPoint>, i: nat, j: nat)
    requires i < j < |t| && t[i] == t[j]
    ensures multiset(t)[t[i]] >= 2
  {
    assert t == t[..j] + [t[j]] + t[j + 1..];
    assert t[i] in t[..j];
  }

  lemma {:induction false} OnceInMultiset(s: seq<FrontierPoint>, p: FrontierPoint)
    requires Distinct(s)
    ensures multiset(s)[p] <= 1
  {
    if s != [] {
      OnceInMultiset(s[1..], p);
      assert s == [s[0]] + s[1..];
      if s[0] == p { assert p !in s[1..]; }
    }
  }

  // ---- The report ----

  function Flags(points: seq<FrontierPoint>): (s: Selection)
    reads points
    ensures |s| == |points| && forall i :: 0 <= i < |s| ==> s[i] == points[i].isDominant
  {
    seq(|points|, i requires 0 <= i < |points| reads points => points[i].isDominant)
  }

  function Xs(points: seq<FrontierPoint>, indices: seq<nat>): (s: seq<real>)
    requires forall a :: 0 <= a < |indices| ==> indices[a] < |points|
    ensures |s| == |indices| && forall a :: 0 <= a < |s| ==> s[a] == points[indices[a]].x
  {
    seq(|indices|, a requires 0 <= a < |indices| => points[indices[a]].x)
  }

  function Ys(points: seq<FrontierPoint>, indices: seq<nat>): (s: seq<real>)
    requires forall a :: 0 <= a < |indices| ==> indices[a] < |points|
    ensures |s| == |indices| && forall a :: 0 <= a < |s| ==> s[a] == points[indices[a]].y
  {
    seq(|indices|, a requires 0 <= a < |indices| => points[indices[a]].y)
  }

  datatype Report = Report(points: seq<FrontierPoint>, knee: Option<nat>, maxSharpe: Option<nat>, minRisk: Option<nat>,
                           numDominant: nat, numDominated: nat)

  /** The knee as an index into all points, from the answer on the flagged points alone. */
  ghost predicate IsKneeOf(points: seq<FrontierPoint>, flags: Selection, knee: Option<nat>)
    requires |flags| == |points|
  {
    var s := Where(flags, true);
    if knee.Some? then
      exists a :: 0 < a < |s| - 1 && s[a] == knee.value && IsKnee(Xs(points, s), Ys(points, s), Some(a))
    else
      |s| < 3 || IsKnee(Xs(points, s), Ys(points, s), None)
  }

  ghost predicate OnlyMarked(points: seq<FrontierPoint>, knee: Option<nat>)
    reads points
  {
    forall i: nat :: i < |points| ==> (points[i].isKnee <==> knee == Some(i))
  }

  method MarkKnee(points: seq<FrontierPoint>) returns (knee: Option<nat>)
    requires Distinct(points) && forall p :: p in points ==> !p.isKnee
    modifies points
    ensures forall p :: p in points ==> p.isDominant == old(p.isDominant)
    ensures IsKneeOf(points, Flags(points), knee) && OnlyMarked(points, knee)
  {
    hide IsKnee, Where;
    var flags := Flags(points);
    var s := Where(flags, true);
    knee := None;
    if |s| >= 3 {
      var local := FindKnee(Xs(points, s), Ys(points, s));
      if local.Some? {
        KneeIsInterior(Xs(points, s), Ys(points, s), local.value);
        knee := Some(s[local.value]);
        points[knee.value].isKnee := true;
      }
    }
    assert Flags(points) == flags;
  }

  /** A marked knee is a flagged point with a flagged point on either side. */
  lemma KneeIsFlagged(points: seq<FrontierPoint>, flags: Selection, k: nat)
    requires |flags| == |points| && IsKneeOf(points, flags, Some(k))
    ensures k < |points| && flags[k]
    ensures exists i, j :: 0 <= i < k < j < |points| && flags[i] && flags[j]
  {
    hide IsKnee;
    var s := Where(flags, true);
    var a :| 0 < a < |s| - 1 && s[a] == k && IsKnee(Xs(points, s), Ys(points, s), Some(a));
    WhereLists(flags, true);
    assert s[0] < s[a] < s[|s| - 1];
    assert flags[s[0]] && flags[s[|s| - 1]];
  }

  /** The first index of the largest value. */
  method FirstMax(values: seq<real>) returns (k: nat)
    requires values != []
    ensures IsFirstMax(values, k)
  {
    k := 0;
    for i := 1 to |values|
      invariant k < i
      invariant forall j :: 0 <= j < i ==> values[j] <= values[k]
      invariant forall j :: 0 <= j < k ==> values[j] < values[k]
    {
      if values[i] > values[k] { k := i; }
    }
  }

  function Sharpes(points: seq<FrontierPoint>): (s: seq<real>)
    ensures |s| == |points| && forall i :: 0 <= i < |s| ==> s[i] == points[i].sharpe
  {
    seq(|points|, i requires 0 <= i < |points| => points[i].sharpe)
  }

  /** The first of the points with the largest Sharpe ratio. */
  ghost predicate IsMaxSharpe(points: seq<FrontierPoint>, k: nat) {
    && k < |points| && (forall i :: 0 <= i < |points| ==> points[i].sharpe <= points[k].sharpe)
    && (forall i :: 0 <= i < k ==> points[i].sharpe < points[k].sharpe)
  }

  lemma FirstMaxIsMaxSharpe(points: seq<FrontierPoint>, k: nat)
    requires IsFirstMax(Sharpes(points), k)
    ensures IsMaxSharpe(points, k)
  {
  }

  /** Negated coordinates, so that the first minimum is a first maximum. */
  function Lows(points: seq<FrontierPoint>, onX: bool): (s: seq<real>)
    ensures |s| == |points|
    ensures forall i :: 0 <= i < |s| ==> s[i] == -(if onX then points[i].x else points[i].y)
  {
    seq(|points|, i requires 0 <= i < |points| => -(if onX then points[i].x else points[i].y))
  }

  /** The first of the points that lie lowest on the x axis, or on the y axis. */
  ghost predicate IsLowest(points: seq<FrontierPoint>, onX: bool, k: nat) {
    && k < |points|
    && (forall i :: 0 <= i < |points| ==> if onX then points[k].x <= points[i].x else points[k].y <= points[i].y)
    && (forall i :: 0 <= i < k ==> if onX then points[k].x < points[i].x else points[k].y < points[i].y)
  }

  lemma FirstMaxIsLowest(points: seq<FrontierPoint>, onX: bool, k: nat)
    requires IsFirstMax(Lows(points, onX), k)
    ensures IsLowest(points, onX, k)
  {
    var lows := Lows(points, onX);
    assert forall i :: 0 <= i < |points| ==> lows[i] <= lows[k];
    assert forall i :: 0 <= i < k ==> lows[i] < lows[k];
  }

  /** The reference point of least risk: on x when x is minimised, else on y when y is minimised. */
  ghost predicate IsMinRisk(points: seq<FrontierPoint>, dx: Direction, dy: Direction, k: Option<nat>) {
    if dx.Maximize? && dy.Maximize? then k.None? else k.Some? && IsLowest(points, dx.Minimize?, k.value)
  }

  method References(points: seq<FrontierPoint>, dx: Direction, dy: Direction) returns (maxSharpe: nat, minRisk: Option<nat>)
    requires points != []
    ensures IsMaxSharpe(points, maxSharpe) && IsMinRisk(points, dx, dy, minRisk)
  {
    hide IsFirstMax, IsMaxSharpe, IsLowest, Sharpes, Lows;
    maxSharpe := FirstMax(Sharpes(points));
    FirstMaxIsMaxSharpe(points, maxSharpe);
    minRisk := None;
    if dx.Minimize? || dy.Minimize? {
      var k := FirstMax(Lows(points, dx.Minimize?));
      FirstMaxIsLowest(points, dx.Minimize?, k);
      minRisk := Some(k);
    }
  }

  /** Steps 3 to 6 of the sweep on the points that were solved. */
  method PostProcess(solved: seq<FrontierPoint>, dx: Direction, dy: Direction) returns (report: Report)
    requires Distinct(solved) && forall p :: p in solved ==> !p.isKnee
    modifies solved
    ensures multiset(report.points) == multiset(solved) && SortedByX(Coordinates(report.points))
    ensures Stable(solved, report.points)
    ensures Flagged(report.points, dx, dy)
    ensures IsKneeOf(report.points, Flags(report.points), report.knee) && OnlyMarked(report.points, report.knee)
    ensures report.numDominant == Count(Flags(report.points))
    ensures report.numDominant + report.numDominated == |solved|
    ensures solved != [] ==>
      && report.numDominant >= 1
      && report.maxSharpe.Some? && IsMaxSharpe(report.points, report.maxSharpe.value)
      && IsMinRisk(report.points, dx, dy, report.minRisk)
  {
    hide Flag, IsKneeOf, OnlyMarked, IsMaxSharpe, IsMinRisk, Count, Where, IsKnee, Ascending, SortedByX, Distinct, Stable;
    if solved == [] {
      EmptyReport(dx, dy);
      StableStart();
      return Report([], None, None, None, 0, 0);
    }
    var points := SortByX(solved);
    PermutationIsDistinct(solved, points);
    FlagDominance(points, dx, dy);
    ghost var flags := Flags(points);
    var knee := MarkKnee(points);
    assert Flags(points) == flags;
    var maxSharpe, minRisk := References(points, dx, dy);
    var numDominant := Count(Flags(points));
    CountIsSum(flags);
    FlaggedCount(points, dx, dy);
    report := Report(points, knee, Some(maxSharpe), minRisk, numDominant, |points| - numDominant);
  }

  lemma FlaggedCount(points: seq<FrontierPoint>, dx: Direction, dy: Direction)
    requires points != [] && Flagged(points, dx, dy)
    ensures Count(Flags(points)) >= 1
  {
    hide Flag, Count;
    var i := SomePointIsFlagged(Coordinates(points), dx, dy);
    CountPositive(Flags(points), i);
  }

  lemma EmptyReport(dx: Direction, dy: Direction)
    ensures SortedByX(Coordinates([])) && Flagged([], dx, dy) && IsKneeOf([], Flags([]), None) && OnlyMarked([], None) && Count(Flags([])) == 0
  {
  }

  /** On a minimised x axis the least-risk point is the first of the sorted list. */
  lemma MinRiskIsFirst(points: seq<FrontierPoint>, dy: Direction, k: nat)
    requires Ascending(points) && points != [] && IsMinRisk(points, Minimize, dy, Some(k))
    ensures k == 0
  {
    assert points[k].x <= points[0].x;
  }
}
