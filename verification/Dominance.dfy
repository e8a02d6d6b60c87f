/** Pareto flags: the tolerance definition over all pairs, and the two one-pass sweeps. */
module Dominance {
  import opened Directions

  datatype Point = Point(x: real, y: real)

  const TOL := 0.000000001

  // ---- The definition over all pairs ----

  predicate BetterOrEqual(a: real, b: real, d: Direction) {
    if d.Minimize? then a <= b + TOL else a >= b - TOL
  }

  predicate StrictlyBetter(a: real, b: real, d: Direction) {
    if d.Minimize? then a < b - TOL else a > b + TOL
  }

  predicate Dominates(q: Point, p: Point, dx: Direction, dy: Direction) {
    && BetterOrEqual(q.x, p.x, dx)
    && BetterOrEqual(q.y, p.y, dy)
    && (StrictlyBetter(q.x, p.x, dx) || StrictlyBetter(q.y, p.y, dy))
  }

  predicate Undominated(ps: seq<Point>, i: nat, dx: Direction, dy: Direction)
    requires i < |ps|
  {
    forall j :: 0 <= j < |ps| && j != i ==> !Dominates(ps[j], ps[i], dx, dy)
  }

  /** How much better a is than b on an axis. */
  function Gain(a: real, b: real, d: Direction): real {
    match d
    case Minimize => b - a
    case Maximize => a - b
  }

  /** A point dominates another exactly when it loses at most 1e-9 on either axis and gains more than that on one.
      So it does when it is better by more than that on both, whatever the directions. */
  lemma DominatesExactlyWhen(q: Point, p: Point, dx: Direction, dy: Direction)
    ensures var gx, gy := Gain(q.x, p.x, dx), Gain(q.y, p.y, dy);
      && (Dominates(q, p, dx, dy) <==>
            gx >= -0.000000001 && gy >= -0.000000001 && (gx > 0.000000001 || gy > 0.000000001))
      && (gx > 0.000000001 && gy > 0.000000001 ==> Dominates(q, p, dx, dy) && !Dominates(p, q, dx, dy))
  {
  }

  // ---- The left-to-right sweep for minimised x, maximised y ----

  datatype Best = Unset | Set(y: real)

  /** The best y kept after the first n points. */
  function BestAfter(ps: seq<Point>, n: nat): Best
    requires n <= |ps|
    decreases n, 0
  {
    if n == 0 then Unset
    else if Kept(ps, n - 1) then Set(ps[n - 1].y)
    else BestAfter(ps, n - 1)
  }

  predicate Improves(y: real, best: Best) {
    best.Unset? || y > best.y + TOL
  }

  /** The sweep keeps point i. */
  predicate Kept(ps: seq<Point>, i: nat)
    requires i < |ps|
    decreases i, 1
  {
    Improves(ps[i].y, BestAfter(ps, i))
  }

  /** The points seen from the right with both axes negated: maximised x and minimised y
      become minimised x and maximised y. */
  function Mirror(ps: seq<Point>): (r: seq<Point>)
    ensures |r| == |ps|
    ensures forall i :: 0 <= i < |ps| ==> r[i] == Point(-ps[|ps| - 1 - i].x, -ps[|ps| - 1 - i].y)
  {
    seq(|ps|, i requires 0 <= i < |ps| => Point(-ps[|ps| - 1 - i].x, -ps[|ps| - 1 - i].y))
  }

  /** The flag the code gives point i. */
  predicate Flag(ps: seq<Point>, i: nat, dx: Direction, dy: Direction)
    requires i < |ps|
  {
    if dx.Minimize? && dy.Maximize? then Kept(ps, i)
    else if dx.Maximize? && dy.Minimize? then Kept(Mirror(ps), |ps| - 1 - i)
    else Undominated(ps, i, dx, dy)
  }

  ghost predicate SortedByX(ps: seq<Point>) {
    forall i, j :: 0 <= i < j < |ps| ==> ps[i].x <= ps[j].x
  }

  lemma MirrorReverses(ps: seq<Point>, i: nat, j: nat)
    requires i < |ps| && j < |ps|
    ensures Dominates(ps[j], ps[i], Maximize, Minimize)
        <==> Dominates(Mirror(ps)[|ps| - 1 - j], Mirror(ps)[|ps| - 1 - i], Minimize, Maximize)
  {
  }

  lemma MirrorUndominated(ps: seq<Point>, i: nat)
    requires i < |ps|
    ensures Undominated(ps, i, Maximize, Minimize) <==> Undominated(Mirror(ps), |ps| - 1 - i, Minimize, Maximize)
  {
    hide Dominates;
    var n, m := |ps|, Mirror(ps);
    if !Undominated(ps, i, Maximize, Minimize) {
      var j: nat :| j < n && j != i && Dominates(ps[j], ps[i], Maximize, Minimize);
      MirrorReverses(ps, i, j);
    }
    if !Undominated(m, n - 1 - i, Minimize, Maximize) {
      var j: nat :| j < n && j != n - 1 - i && Dominates(m[j], m[n - 1 - i], Minimize, Maximize);
      MirrorReverses(ps, i, n - 1 - j);
    }
  }

  // ---- What the sweep guarantees on any list ----

  /** The running best is the y of the last kept point, and no point so far exceeds it by more than TOL. */
  lemma {:induction false} BestIsLastKept(ps: seq<Point>, n: nat) returns (last: nat)
    requires 0 < n <= |ps|
    ensures last < n && Kept(ps, last) && BestAfter(ps, n) == Set(ps[last].y)
    ensures forall j :: last < j < n ==> !Kept(ps, j)
    ensures forall j :: 0 <= j < n ==> ps[j].y <= ps[last].y + TOL
    ensures forall j :: 0 <= j < last && Kept(ps, j) ==> ps[j].y + TOL < ps[last].y
  {
    if n == 1 {
      last := 0;
    } else {
      last := BestIsLastKept(ps, n - 1);
      if Kept(ps, n - 1) {
        last := n - 1;
      }
    }
  }

  /** Kept y values form a strict chain, and every point left out has a kept point before it
      whose y is as good within TOL. */
  lemma SweepChain(ps: seq<Point>, i: nat)
    requires i < |ps|
    ensures Kept(ps, i) ==> forall j :: 0 <= j < i && Kept(ps, j) ==> ps[j].y + TOL < ps[i].y
    ensures !Kept(ps, i) ==> exists j :: 0 <= j < i && Kept(ps, j) && ps[i].y <= ps[j].y + TOL
  {
    if i > 0 {
      var last := BestIsLastKept(ps, i);
    }
  }

  /** i and j are within TOL on the x axis. */
  predicate NearTie(ps: seq<Point>, i: nat, j: nat)
    requires i < |ps| && j < |ps|
  {
    ps[j].x <= ps[i].x + TOL && ps[i].x <= ps[j].x + TOL
  }

  /** Values drifting inside the tolerance: k and j match, j and i match, but i is better than k. */
  predicate Drift(ps: seq<Point>, k: nat, j: nat, i: nat)
    requires k < |ps| && j < |ps| && i < |ps|
  {
    k < j < i && ps[j].y <= ps[k].y + TOL < ps[i].y <= ps[j].y + TOL
  }

  /** On any list sorted by x: where the sweep and the definition disagree, there is a near tie
      on x or a drift inside the tolerance. */
  lemma DisagreementsExplained(ps: seq<Point>, i: nat)
    requires SortedByX(ps) && i < |ps|
    requires Kept(ps, i) != Undominated(ps, i, Minimize, Maximize)
    ensures (exists j :: 0 <= j < |ps| && j != i && NearTie(ps, i, j))
         || (exists k, j :: 0 <= k < |ps| && 0 <= j < |ps| && Drift(ps, k, j, i))
  {
    SweepChain(ps, i);
    if Kept(ps, i) {
      var j :| 0 <= j < |ps| && j != i && Dominates(ps[j], ps[i], Minimize, Maximize);
      if j < i {
        SweepChain(ps, j);
        var k :| 0 <= k < j && Kept(ps, k) && ps[j].y <= ps[k].y + TOL;
        assert Drift(ps, k, j, i);
      } else {
        assert NearTie(ps, i, j);
      }
    } else {
      var j :| 0 <= j < i && Kept(ps, j) && ps[i].y <= ps[j].y + TOL;
      assert !Dominates(ps[j], ps[i], Minimize, Maximize);
      assert NearTie(ps, i, j);
    }
  }

  // ---- Exactly when a sweep computes the definition ----

  /** Undominated points rise by more than TOL, and every other point has an undominated one before it
      whose y is as good within TOL. */
  ghost predicate Staircase(ps: seq<Point>) {
    forall i :: 0 <= i < |ps| ==>
      if Undominated(ps, i, Minimize, Maximize) then
        forall j :: 0 <= j < i && Undominated(ps, j, Minimize, Maximize) ==> ps[j].y + TOL < ps[i].y
      else
        exists j :: 0 <= j < i && Undominated(ps, j, Minimize, Maximize) && ps[i].y <= ps[j].y + TOL
  }

  ghost predicate SweepIsRight(ps: seq<Point>) {
    forall i :: 0 <= i < |ps| ==> (Kept(ps, i) <==> Undominated(ps, i, Minimize, Maximize))
  }

  /** On any list at all, the left-to-right sweep computes the definition exactly on staircases. */
  lemma SweepIsRightExactlyWhen(ps: seq<Point>)
    ensures SweepIsRight(ps) <==> Staircase(ps)
  {
    hide Undominated, Kept;
    if SweepIsRight(ps) {
      forall i | 0 <= i < |ps|
        ensures if Undominated(ps, i, Minimize, Maximize) then
            forall j :: 0 <= j < i && Undominated(ps, j, Minimize, Maximize) ==> ps[j].y + TOL < ps[i].y
          else
            exists j :: 0 <= j < i && Undominated(ps, j, Minimize, Maximize) && ps[i].y <= ps[j].y + TOL
      {
        SweepChain(ps, i);
      }
    }
    if Staircase(ps) {
      forall i: nat | i < |ps| ensures Kept(ps, i) <==> Undominated(ps, i, Minimize, Maximize) {
        StaircaseIsKept(ps, i);
      }
    }
  }

  lemma {:induction false} StaircaseIsKept(ps: seq<Point>, i: nat)
    requires Staircase(ps) && i < |ps|
    ensures Kept(ps, i) <==> Undominated(ps, i, Minimize, Maximize)
  {
    hide Undominated, Kept;
    forall j: nat | j < i ensures Kept(ps, j) <==> Undominated(ps, j, Minimize, Maximize) {
      StaircaseIsKept(ps, j);
    }
    SweepChain(ps, i);
  }

  /** Both sweeps, in terms of the flags the code sets. */
  lemma FlagsAreRightExactlyWhen(ps: seq<Point>)
    ensures (forall i :: 0 <= i < |ps| ==> (Flag(ps, i, Minimize, Maximize) <==> Undominated(ps, i, Minimize, Maximize)))
       <==> Staircase(ps)
    ensures (forall i :: 0 <= i < |ps| ==> (Flag(ps, i, Maximize, Minimize) <==> Undominated(ps, i, Maximize, Minimize)))
       <==> Staircase(Mirror(ps))
  {
    hide Undominated, Kept, Staircase;
    SweepIsRightExactlyWhen(ps);
    SweepIsRightExactlyWhen(Mirror(ps));
    MirroredFlags(ps);
  }

  lemma MirroredFlags(ps: seq<Point>)
    ensures SweepIsRight(Mirror(ps)) <==>
      forall i :: 0 <= i < |ps| ==> (Flag(ps, i, Maximize, Minimize) <==> Undominated(ps, i, Maximize, Minimize))
  {
    hide Undominated, Kept;
    var n, m := |ps|, Mirror(ps);
    forall i: nat | i < n
      ensures (Flag(ps, i, Maximize, Minimize) <==> Undominated(ps, i, Maximize, Minimize))
         <==> (Kept(m, n - 1 - i) <==> Undominated(m, n - 1 - i, Minimize, Maximize))
    {
      MirrorUndominated(ps, i);
    }
    if forall i :: 0 <= i < n ==> (Flag(ps, i, Maximize, Minimize) <==> Undominated(ps, i, Maximize, Minimize)) {
      forall i: nat | i < n ensures Kept(m, i) <==> Undominated(m, i, Minimize, Maximize) {
        var j: nat := n - 1 - i;
        assert Flag(ps, j, Maximize, Minimize) <==> Undominated(ps, j, Maximize, Minimize);
      }
    }
  }

  /** Point i is better on y than everything before it. */
  predicate Leads(ps: seq<Point>, i: nat)
    requires i < |ps|
  {
    forall k :: 0 <= k < i ==> ps[k].y + TOL < ps[i].y
  }

  /** Every point that does not lead is matched by an earlier one that does. */
  predicate Anchored(ps: seq<Point>) {
    forall i :: 0 <= i < |ps| && !Leads(ps, i) ==> exists k :: 0 <= k < i && Leads(ps, k) && ps[i].y <= ps[k].y + TOL
  }

  /** With gaps on x both sweeps compute the definition exactly when the y values are anchored, a check
      on the points alone; in any case the first never leaves out an undominated point. */
  lemma SweepAgreesExactlyWhen(ps: seq<Point>)
    requires Gapped(ps)
    ensures forall i :: 0 <= i < |ps| && Undominated(ps, i, Minimize, Maximize) ==> Flag(ps, i, Minimize, Maximize)
    ensures (forall i :: 0 <= i < |ps| ==> (Flag(ps, i, Minimize, Maximize) <==> Undominated(ps, i, Minimize, Maximize)))
       <==> Anchored(ps)
    ensures (forall i :: 0 <= i < |ps| ==> (Flag(ps, i, Maximize, Minimize) <==> Undominated(ps, i, Maximize, Minimize)))
       <==> Anchored(Mirror(ps))
  {
    hide Undominated, Kept, Staircase, Anchored, Gapped, Leads;
    forall i: nat | i < |ps| && Undominated(ps, i, Minimize, Maximize) ensures Kept(ps, i) {
      UndominatedLeads(ps, i);
      LeadersAreKept(ps, i);
    }
    FlagsAreRightExactlyWhen(ps);
    StaircaseIsAnchored(ps);
    MirrorKeepsGaps(ps);
    StaircaseIsAnchored(Mirror(ps));
  }

  lemma StaircaseIsAnchored(ps: seq<Point>)
    requires Gapped(ps)
    ensures Staircase(ps) <==> Anchored(ps)
  {
    forall i: nat | i < |ps| ensures Undominated(ps, i, Minimize, Maximize) <==> Leads(ps, i) {
      UndominatedLeads(ps, i);
    }
    hide Undominated;
  }

  lemma LeadersAreKept(ps: seq<Point>, i: nat)
    requires i < |ps| && Leads(ps, i)
    ensures Kept(ps, i)
  {
    SweepChain(ps, i);
  }

  lemma UndominatedLeads(ps: seq<Point>, i: nat)
    requires Gapped(ps) && i < |ps|
    ensures Undominated(ps, i, Minimize, Maximize) <==> Leads(ps, i)
  {
    forall k | 0 <= k < |ps| && k != i
      ensures Dominates(ps[k], ps[i], Minimize, Maximize) <==> k < i && !(ps[k].y + TOL < ps[i].y)
    {
      if i < k { assert ps[i].x + TOL < ps[k].x; }
    }
    hide Dominates;
  }

  /** Consecutive x values more than TOL apart. */
  ghost predicate Gapped(ps: seq<Point>) {
    forall i, j :: 0 <= i < j < |ps| ==> ps[i].x + TOL < ps[j].x
  }

  /** y values pairwise equal or more than TOL apart. */
  ghost predicate Separated(ps: seq<Point>) {
    forall i, j :: 0 <= i < |ps| && 0 <= j < |ps| && ps[i].y < ps[j].y ==> ps[i].y + TOL < ps[j].y
  }

  /** Separated y values are anchored: the first point of the running maximum is matched by the rest. */
  lemma {:induction false} SeparatedAnchor(ps: seq<Point>, i: nat) returns (k: nat)
    requires Separated(ps) && i < |ps|
    ensures k <= i && Leads(ps, k) && ps[i].y <= ps[k].y
    decreases i
  {
    if Leads(ps, i) {
      k := i;
    } else {
      var j: nat :| j < i && ps[i].y <= ps[j].y + TOL;
      assert ps[i].y <= ps[j].y;
      k := SeparatedAnchor(ps, j);
    }
  }

  lemma SeparatedIsAnchored(ps: seq<Point>)
    requires Separated(ps)
    ensures Anchored(ps)
  {
    hide Leads, Separated;
    forall i: nat | i < |ps| && !Leads(ps, i)
      ensures exists k :: 0 <= k < i && Leads(ps, k) && ps[i].y <= ps[k].y + TOL
    {
      var k := SeparatedAnchor(ps, i);
    }
  }

  /** Both sweeps compute the definition on gapped, separated points. */
  lemma SweepsMatchDefinition(ps: seq<Point>, i: nat, dx: Direction, dy: Direction)
    requires Gapped(ps) && Separated(ps) && i < |ps|
    ensures Flag(ps, i, dx, dy) <==> Undominated(ps, i, dx, dy)
  {
    hide Gapped, Separated, Undominated, Kept, Anchored;
    SweepAgreesExactlyWhen(ps);
    SeparatedIsAnchored(ps);
    MirrorKeepsSeparation(ps);
    SeparatedIsAnchored(Mirror(ps));
    if dx.Minimize? && dy.Maximize? {
      assert Flag(ps, i, Minimize, Maximize) <==> Undominated(ps, i, Minimize, Maximize);
    } else if dx.Maximize? && dy.Minimize? {
      assert Flag(ps, i, Maximize, Minimize) <==> Undominated(ps, i, Maximize, Minimize);
    }
  }

  lemma MirrorKeepsGaps(ps: seq<Point>)
    requires Gapped(ps)
    ensures Gapped(Mirror(ps))
  {
    var n, m := |ps|, Mirror(ps);
    forall i, j | 0 <= i < j < n ensures m[i].x + TOL < m[j].x {
      assert ps[n - 1 - j].x + TOL < ps[n - 1 - i].x;
    }
  }

  lemma MirrorKeepsSeparation(ps: seq<Point>)
    requires Separated(ps)
    ensures Separated(Mirror(ps))
  {
    var n, m := |ps|, Mirror(ps);
    forall i, j | 0 <= i < n && 0 <= j < n && m[i].y < m[j].y ensures m[i].y + TOL < m[j].y {
      assert ps[n - 1 - j].y < ps[n - 1 - i].y;
    }
  }

  /** The documented reading, "dominated iff some other point is at least as good on both axes and
      better on one", fails for tied x, for duplicates and for values drifting inside the tolerance. */
  lemma SweepCanDisagree()
    ensures var tied := [Point(0.0, 0.0), Point(0.0, 1.0)];
            Kept(tied, 0) && Dominates(tied[1], tied[0], Minimize, Maximize)
    ensures var twins := [Point(0.0, 0.0), Point(0.0, 0.0)];
            !Kept(twins, 1) && Undominated(twins, 1, Minimize, Maximize)
    ensures var drifting := [Point(0.0, 0.0), Point(1.0, 0.9 * TOL), Point(2.0, 1.8 * TOL)];
            Gapped(drifting) && Kept(drifting, 2) && Dominates(drifting[1], drifting[2], Minimize, Maximize)
  {
    var twins := [Point(0.0, 0.0), Point(0.0, 0.0)];
    assert BestAfter(twins, 1) == Set(0.0);
    var drifting := [Point(0.0, 0.0), Point(1.0, 0.9 * TOL), Point(2.0, 1.8 * TOL)];
    assert BestAfter(drifting, 1) == Set(0.0);
    assert !Kept(drifting, 1);
    assert BestAfter(drifting, 2) == Set(0.0);
  }

  // ---- The tolerance relation is acyclic though not transitive ----

  /** x + y with each axis signed so that smaller is better. */
  function Score(p: Point, dx: Direction, dy: Direction): real {
    (if dx.Minimize? then p.x else -p.x) + (if dy.Minimize? then p.y else -p.y)
  }

  lemma DominatorScoresLower(q: Point, p: Point, dx: Direction, dy: Direction)
    requires Dominates(q, p, dx, dy)
    ensures Score(q, dx, dy) < Score(p, dx, dy)
  {
  }

  lemma DominanceIsNotTransitive()
    ensures exists a, b, c ::
      Dominates(a, b, Minimize, Minimize) && Dominates(b, c, Minimize, Minimize) && !Dominates(a, c, Minimize, Minimize)
  {
    var a, b, c := Point(2.0 * TOL, 0.0), Point(TOL, 2.0 * TOL), Point(0.0, 4.0 * TOL);
    assert Dominates(a, b, Minimize, Minimize) && Dominates(b, c, Minimize, Minimize) && !Dominates(a, c, Minimize, Minimize);
  }

  /** The points that score lower than p. */
  ghost function Lower(ps: seq<Point>, s: real, dx: Direction, dy: Direction): set<nat> {
    set j: nat | j < |ps| && Score(ps[j], dx, dy) < s
  }

  /** A path from i in which each point is dominated by the next. */
  ghost predicate DominatorPath(ps: seq<Point>, path: seq<nat>, dx: Direction, dy: Direction) {
    && path != []
    && (forall a :: 0 <= a < |path| ==> path[a] < |ps|)
    && (forall a :: 0 <= a < |path| - 1 ==> Dominates(ps[path[a + 1]], ps[path[a]], dx, dy))
  }

  /** From every point a chain of dominators leads to an undominated one. */
  lemma {:induction false} ReachesUndominated(ps: seq<Point>, i: nat, dx: Direction, dy: Direction) returns (path: seq<nat>)
    requires i < |ps|
    ensures DominatorPath(ps, path, dx, dy) && path[0] == i
    ensures Undominated(ps, path[|path| - 1], dx, dy)
    decreases Lower(ps, Score(ps[i], dx, dy), dx, dy)
  {
    if Undominated(ps, i, dx, dy) {
      path := [i];
    } else {
      var j :| 0 <= j < |ps| && j != i && Dominates(ps[j], ps[i], dx, dy);
      DominatorScoresLower(ps[j], ps[i], dx, dy);
      assert j in Lower(ps, Score(ps[i], dx, dy), dx, dy) && j !in Lower(ps, Score(ps[j], dx, dy), dx, dy);
      var rest := ReachesUndominated(ps, j, dx, dy);
      path := [i] + rest;
    }
  }

  /** Whatever the directions, a nonempty list has a flagged point. */
  lemma SomePointIsFlagged(ps: seq<Point>, dx: Direction, dy: Direction) returns (i: nat)
    requires ps != []
    ensures i < |ps| && Flag(ps, i, dx, dy)
  {
    if dx.Minimize? && dy.Maximize? {
      i := 0;
    } else if dx.Maximize? && dy.Minimize? {
      i := |ps| - 1;
    } else {
      var path := ReachesUndominated(ps, 0, dx, dy);
      i := path[|path| - 1];
    }
  }
}
