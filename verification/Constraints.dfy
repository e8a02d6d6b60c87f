/** The request pre-check, and what each of its rejections says about the portfolios the
    optimizer would search. */
module Constraints {
  import opened Reals
  import opened Sums
  import opened Extremes
  import opened Options
  import opened Directions
  import opened Variance

  datatype SectorLimit = SectorLimit(sector: string, maxWeight: real)
  datatype ObjectiveRow = ObjectiveRow(name: string, direction: Option<Direction>, threshold: Option<real>, weight: real, enabled: bool)

  datatype Request = Request(maxWeight: Option<real>, minReturn: Option<real>, maxVolatility: Option<real>,
                             sectors: seq<SectorLimit>, objectives: seq<ObjectiveRow>)

  /** What the request schema admits, for the fields the pre-check reads. An absent objective matrix is the
      empty list; one that is given must enable a row and carry positive weight. */
  predicate Admitted(req: Request) {
    && (req.maxWeight.Some? ==> 0.0 <= req.maxWeight.value <= 1.0)
    && (req.minReturn.Some? ==> 0.0 <= req.minReturn.value <= 5.0)
    && (req.maxVolatility.Some? ==> 0.0 <= req.maxVolatility.value <= 5.0)
    && (forall k :: 0 <= k < |req.sectors| ==> req.sectors[k].sector != "" && 0.0 <= req.sectors[k].maxWeight <= 1.0)
    && (req.objectives == [] || (
          && (forall i, j :: 0 <= i < j < |req.objectives| ==> req.objectives[i].name != req.objectives[j].name)
          && (forall i :: 0 <= i < |req.objectives| ==> 0.0 <= req.objectives[i].weight <= 1.0)
          && Enabled(req.objectives) != [] && 0.0 < TotalWeight(Enabled(req.objectives)) <= 1.000001))
  }

  datatype Violation =
    | MaxWeightTooSmall
    | MinReturnTooHigh
    | MaxVolatilityTooLow
    | NoPositiveWeight
    | ReturnThresholdTooHigh(row: ObjectiveRow)
    | HhiThresholdTooLow(row: ObjectiveRow)

  datatype Warning = MinReturnClose | MaxVolatilityClose | SectorLimitsLow | WeightsNotNormalised

  /** Without assets some branches divide by zero or take the maximum of nothing. */
  datatype Outcome = Rejected(violations: seq<Violation>) | Accepted(warnings: seq<Warning>) | Crashed

  /** 1/(1ᵀΣ⁻¹1); infinite when the denominator is zero, absent when Σ has no inverse. */
  datatype MinVariance = Absent | Infinite | Finite(value: real)

  function MinVarianceOf(n: nat, inverse: Option<seq<seq<real>>>): MinVariance {
    if inverse.None? then Absent
    else
      var s := Sum(n, RowSum(n, M(inverse.value)));
      if s == 0.0 then Infinite else Finite(1.0 / s)
  }

  /** x < factor·√(max(v, 0)), without the root. */
  predicate BelowRoot(x: real, factor: real, v: MinVariance) {
    match v
    case Absent => x < 0.0
    case Infinite => true
    case Finite(value) => x < 0.0 || x * x < factor * factor * Max(value, 0.0)
  }

  function Enabled(rows: seq<ObjectiveRow>): seq<ObjectiveRow> {
    if rows == [] then []
    else Enabled(rows[..|rows| - 1]) + if rows[|rows| - 1].enabled then [rows[|rows| - 1]] else []
  }

  function TotalWeight(rows: seq<ObjectiveRow>): real {
    if rows == [] then 0.0 else TotalWeight(rows[..|rows| - 1]) + rows[|rows| - 1].weight
  }

  function TotalLimit(sectors: seq<SectorLimit>): real {
    if sectors == [] then 0.0 else TotalLimit(sectors[..|sectors| - 1]) + sectors[|sectors| - 1].maxWeight
  }

  function RowViolation(row: ObjectiveRow, n: nat, maxMu: real): seq<Violation>
    requires n > 0
  {
    if row.threshold.None? then []
    else if row.name == "return" && row.direction == Some(Maximize) && row.threshold.value > maxMu then
      [ReturnThresholdTooHigh(row)]
    else if row.name == "diversification_hhi" && row.direction == Some(Minimize) && row.threshold.value < 1.0 / n as real then
      [HhiThresholdTooLow(row)]
    else []
  }

  function RowViolations(rows: seq<ObjectiveRow>, n: nat, maxMu: real): seq<Violation>
    requires n > 0 || rows == []
  {
    if rows == [] then []
    else RowViolations(rows[..|rows| - 1], n, maxMu) + RowViolation(rows[|rows| - 1], n, maxMu)
  }

  function WeightCapCheck(req: Request, n: nat): seq<Violation>
    requires n > 0 || req.maxWeight.None?
  {
    if req.maxWeight.Some? && req.maxWeight.value < 1.0 / n as real then [MaxWeightTooSmall] else []
  }

  function MinReturnCheck(req: Request, maxMu: real): seq<Violation> {
    if req.minReturn.Some? && req.minReturn.value > maxMu then [MinReturnTooHigh] else []
  }

  function VolatilityCheck(req: Request, v: MinVariance): seq<Violation> {
    if req.maxVolatility.Some? && BelowRoot(req.maxVolatility.value, 1.0, v) then [MaxVolatilityTooLow] else []
  }

  function WeightsCheck(rows: seq<ObjectiveRow>): seq<Violation> {
    if rows != [] && TotalWeight(rows) <= 0.0 then [NoPositiveWeight] else []
  }

  /** All violations, in the order the checks run. */
  function Violations(req: Request, mu: seq<real>, v: MinVariance): seq<Violation>
    requires mu != [] || !NeedsAssets(req)
  {
    WeightCapCheck(req, |mu|) + MinReturnCheck(req, Best(mu)) + VolatilityCheck(req, v)
    + WeightsCheck(Enabled(req.objectives)) + RowViolations(Enabled(req.objectives), |mu|, Best(mu))
  }

  /** The best single return; immaterial without assets. */
  function Best(mu: seq<real>): real {
    if mu == [] then 0.0 else MaxOf(mu)
  }

  function MinReturnWarning(req: Request, maxMu: real): seq<Warning> {
    if req.minReturn.Some? && 0.9 * maxMu < req.minReturn.value <= maxMu then [MinReturnClose] else []
  }

  function VolatilityWarning(req: Request, v: MinVariance): seq<Warning> {
    if req.maxVolatility.Some? && !BelowRoot(req.maxVolatility.value, 1.0, v) && BelowRoot(req.maxVolatility.value, 1.1, v)
    then [MaxVolatilityClose] else []
  }

  function SectorWarning(req: Request): seq<Warning> {
    if req.sectors != [] && TotalLimit(req.sectors) < 0.99 then [SectorLimitsLow] else []
  }

  function WeightsWarning(rows: seq<ObjectiveRow>): seq<Warning> {
    if rows != [] && TotalWeight(rows) > 0.0 && Abs(TotalWeight(rows) - 1.0) > 0.01 then [WeightsNotNormalised] else []
  }

  /** All warnings, in the order the checks run. */
  function Warnings(req: Request, mu: seq<real>, v: MinVariance): seq<Warning>
    requires mu != [] || !NeedsAssets(req)
  {
    MinReturnWarning(req, Best(mu)) + VolatilityWarning(req, v) + SectorWarning(req)
    + WeightsWarning(Enabled(req.objectives))
  }

  /** The pre-check: every hard check appends to one list, every soft one to another. */
  method ValidateConstraints(req: Request, mu: seq<real>, inverse: Option<seq<seq<real>>>) returns (outcome: Outcome)
    ensures outcome.Crashed? <==> mu == [] && NeedsAssets(req)
    ensures NeedsAssets(req) <==>
      req.maxWeight.Some? || req.minReturn.Some? || AnyEnabled(req.objectives)
    ensures var v := MinVarianceOf(|mu|, inverse);
      !outcome.Crashed? ==>
        outcome == if Violations(req, mu, v) != [] then Rejected(Violations(req, mu, v)) else Accepted(Warnings(req, mu, v))
  {
    hide BelowRoot, Best, MaxOf, TotalLimit, Enabled, MinVarianceOf, RowViolations,
         WeightCapCheck, MinReturnCheck, VolatilityCheck, MinReturnWarning, VolatilityWarning, WeightsCheck, WeightsWarning;
    var n, v, rows := |mu|, MinVarianceOf(|mu|, inverse), Enabled(req.objectives);
    SomeEnabled(req.objectives);
    if mu == [] && (req.maxWeight.Some? || req.minReturn.Some? || rows != []) {
      return Crashed;
    }
    var maxMu := Best(mu);
    var violated, warnings := CheckScalars(req, n, maxMu, v);
    if req.sectors != [] {
      if TotalLimit(req.sectors) < 0.99 {
        warnings := warnings + [SectorLimitsLow];
      }
    }
    violated, warnings := CheckRows(violated, warnings, rows, n, maxMu);
    outcome := if violated != [] then Rejected(violated) else Accepted(warnings);
  }

  /** The request has a limit that is compared with 1/n or with the best return. */
  predicate NeedsAssets(req: Request) {
    req.maxWeight.Some? || req.minReturn.Some? || Enabled(req.objectives) != []
  }

  /** The checks of the weight cap, the return floor and the volatility cap. */
  method CheckScalars(req: Request, n: nat, maxMu: real, v: MinVariance)
    returns (violated: seq<Violation>, warnings: seq<Warning>)
    requires n > 0 || req.maxWeight.None?
    ensures violated == WeightCapCheck(req, n) + MinReturnCheck(req, maxMu) + VolatilityCheck(req, v)
    ensures warnings == MinReturnWarning(req, maxMu) + VolatilityWarning(req, v)
  {
    hide BelowRoot;
    violated, warnings := [], [];
    if req.maxWeight.Some? {
      if req.maxWeight.value < 1.0 / n as real {
        violated := violated + [MaxWeightTooSmall];
      }
    }
    if req.minReturn.Some? {
      if req.minReturn.value > maxMu {
        violated := violated + [MinReturnTooHigh];
      } else if req.minReturn.value > 0.9 * maxMu {
        warnings := warnings + [MinReturnClose];
      }
    }
    if req.maxVolatility.Some? {
      if BelowRoot(req.maxVolatility.value, 1.0, v) {
        violated := violated + [MaxVolatilityTooLow];
      } else if BelowRoot(req.maxVolatility.value, 1.1, v) {
        warnings := warnings + [MaxVolatilityClose];
      }
    }
  }

  /** The checks of the enabled objective rows. */
  method CheckRows(violatedBefore: seq<Violation>, warningsBefore: seq<Warning>, rows: seq<ObjectiveRow>, n: nat, maxMu: real)
    returns (violated: seq<Violation>, warnings: seq<Warning>)
    requires n > 0 || rows == []
    ensures violated == violatedBefore + WeightsCheck(rows) + RowViolations(rows, n, maxMu)
    ensures warnings == warningsBefore + WeightsWarning(rows)
  {
    hide RowViolation;
    violated, warnings := violatedBefore, warningsBefore;
    if rows != [] {
      if TotalWeight(rows) <= 0.0 {
        violated := violated + [NoPositiveWeight];
      } else if Abs(TotalWeight(rows) - 1.0) > 0.01 {
        warnings := warnings + [WeightsNotNormalised];
      }
      ghost var before := violated;
      for i := 0 to |rows|
        invariant violated == before + RowViolations(rows[..i], n, maxMu)
      {
        assert rows[..i + 1][..i] == rows[..i];
        violated := violated + RowViolation(rows[i], n, maxMu);
      }
      assert rows[..|rows|] == rows;
    }
  }

  // ---- What is found, and in which order ----

  lemma {:induction false} SomeEnabled(rows: seq<ObjectiveRow>)
    ensures Enabled(rows) != [] <==> AnyEnabled(rows)
  {
    if rows != [] {
      var last := |rows| - 1;
      SomeEnabled(rows[..last]);
      if !rows[last].enabled {
        if k :| 0 <= k < |rows| && rows[k].enabled { assert rows[..last][k] == rows[k]; }
      } else {
        assert rows[last].enabled;
      }
    }
  }

  function EnabledWeights(rows: seq<ObjectiveRow>): Vec {
    i => if 0 <= i < |rows| && rows[i].enabled then rows[i].weight else 0.0
  }

  function Limits(sectors: seq<SectorLimit>): Vec {
    i => if 0 <= i < |sectors| then sectors[i].maxWeight else 0.0
  }

  lemma {:induction false} TotalIsSum(rows: seq<ObjectiveRow>)
    ensures TotalWeight(Enabled(rows)) == Sum(|rows|, EnabledWeights(rows))
  {
    if rows != [] {
      var last, rest := |rows| - 1, rows[..|rows| - 1];
      TotalIsSum(rest);
      SumEqual(last, EnabledWeights(rows), EnabledWeights(rest));
      assert (Enabled(rest) + [rows[last]])[..|Enabled(rest)|] == Enabled(rest);
      assert Enabled(rest) + [] == Enabled(rest);
    }
  }

  lemma {:induction false} LimitIsSum(sectors: seq<SectorLimit>)
    ensures TotalLimit(sectors) == Sum(|sectors|, Limits(sectors))
  {
    if sectors != [] {
      LimitIsSum(sectors[..|sectors| - 1]);
      SumEqual(|sectors| - 1, Limits(sectors), Limits(sectors[..|sectors| - 1]));
    }
  }

  /** No asset earns as much as x. */
  predicate OutOfReach(mu: seq<real>, x: real) {
    forall i :: 0 <= i < |mu| ==> mu[i] < x
  }

  lemma AboveBest(mu: seq<real>, x: real)
    requires mu != []
    ensures x > MaxOf(mu) <==> OutOfReach(mu, x)
    ensures x > 0.9 * MaxOf(mu) <==> forall i :: 0 <= i < |mu| ==> 0.9 * mu[i] < x
  {
    ExtremesAttained(mu);
  }

  /** A cap below the minimum volatility. */
  predicate UnderMinimum(cap: real, v: MinVariance) {
    cap < 0.0 || v.Infinite? || (v.Finite? && cap * cap < v.value)
  }

  /** A cap from the minimum volatility up to less than a tenth above it. */
  predicate CloseToMinimum(cap: real, v: MinVariance) {
    cap >= 0.0 && v.Finite? && v.value <= cap * cap < 1.21 * v.value
  }

  lemma CapAgainstMinimum(cap: real, v: MinVariance)
    ensures BelowRoot(cap, 1.0, v) <==> UnderMinimum(cap, v)
    ensures !BelowRoot(cap, 1.0, v) && BelowRoot(cap, 1.1, v) <==> CloseToMinimum(cap, v)
  {
    assert cap * cap >= 0.0;
  }

  predicate ReturnUnreachable(row: ObjectiveRow, mu: seq<real>) {
    row.name == "return" && row.direction == Some(Maximize) && row.threshold.Some? && OutOfReach(mu, row.threshold.value)
  }

  predicate HhiUnreachable(row: ObjectiveRow, n: nat)
    requires n > 0
  {
    && row.name == "diversification_hhi" && row.direction == Some(Minimize)
    && row.threshold.Some? && row.threshold.value < 1.0 / n as real
  }

  predicate AnyEnabled(rows: seq<ObjectiveRow>) {
    exists k :: 0 <= k < |rows| && rows[k].enabled
  }

  /** The weight of the enabled rows. */
  function EnabledTotal(rows: seq<ObjectiveRow>): real {
    Sum(|rows|, EnabledWeights(rows))
  }

  /** What makes a violation one of the request, read off its fields. */
  predicate IsFound(req: Request, mu: seq<real>, v: MinVariance, x: Violation)
    requires mu != []
  {
    match x
    case MaxWeightTooSmall => req.maxWeight.Some? && req.maxWeight.value < 1.0 / |mu| as real
    case MinReturnTooHigh => req.minReturn.Some? && OutOfReach(mu, req.minReturn.value)
    case MaxVolatilityTooLow => req.maxVolatility.Some? && UnderMinimum(req.maxVolatility.value, v)
    case NoPositiveWeight => AnyEnabled(req.objectives) && EnabledTotal(req.objectives) <= 0.0
    case ReturnThresholdTooHigh(row) => row in req.objectives && row.enabled && ReturnUnreachable(row, mu)
    case HhiThresholdTooLow(row) => row in req.objectives && row.enabled && HhiUnreachable(row, |mu|)
  }

  /** The pre-check reports exactly these, whatever else the request asks for. */
  lemma ViolationsExactlyWhen(req: Request, mu: seq<real>, v: MinVariance, x: Violation)
    requires mu != []
    ensures x in Violations(req, mu, v) <==> IsFound(req, mu, v, x)
  {
    hide MaxOf, Enabled, TotalWeight, RowViolations, IsFound, WeightCapCheck, MinReturnCheck, VolatilityCheck, WeightsCheck;
    var rows, best := Enabled(req.objectives), MaxOf(mu);
    InOneOfFive(WeightCapCheck(req, |mu|), MinReturnCheck(req, best), VolatilityCheck(req, v),
                WeightsCheck(rows), RowViolations(rows, |mu|, best), x);
    ScalarFound(req, mu, v, x);
    if x.ReturnThresholdTooHigh? || x.HhiThresholdTooLow? {
      RowFound(req, mu, v, x);
    } else if x in RowViolations(rows, |mu|, best) {
      RowViolationKinds(rows, |mu|, best, x);
    }
  }

  /** Without an inverse only a negative volatility cap is rejected; with one whose entries sum to zero every cap is. */
  lemma VolatilityWithoutMinimum(req: Request, mu: seq<real>, inverse: Option<seq<seq<real>>>)
    requires mu != [] && req.maxVolatility.Some?
    ensures var rejected := MaxVolatilityTooLow in Violations(req, mu, MinVarianceOf(|mu|, inverse));
      && (inverse.None? ==> (rejected <==> req.maxVolatility.value < 0.0))
      && (inverse.Some? && Sum(|mu|, RowSum(|mu|, M(inverse.value))) == 0.0 ==> rejected)
  {
    MinVarianceKind(|mu|, inverse);
    CapWithoutMinimum(req.maxVolatility.value);
    hide Violations, MinVarianceOf, UnderMinimum, EnabledTotal, AnyEnabled, OutOfReach, ReturnUnreachable, HhiUnreachable,
         RowSum, Sum;
    ViolationsExactlyWhen(req, mu, MinVarianceOf(|mu|, inverse), MaxVolatilityTooLow);
  }

  lemma CapWithoutMinimum(cap: real)
    ensures (UnderMinimum(cap, Absent) <==> cap < 0.0) && UnderMinimum(cap, Infinite)
  {
  }

  lemma MinVarianceKind(n: nat, inverse: Option<seq<seq<real>>>)
    ensures inverse.None? ==> MinVarianceOf(n, inverse) == Absent
    ensures inverse.Some? && Sum(n, RowSum(n, M(inverse.value))) == 0.0 ==> MinVarianceOf(n, inverse) == Infinite
  {
    hide Sum, RowSum;
  }

  lemma ScalarFound(req: Request, mu: seq<real>, v: MinVariance, x: Violation)
    requires mu != []
    ensures x in WeightCapCheck(req, |mu|) || x in MinReturnCheck(req, MaxOf(mu)) || x in VolatilityCheck(req, v)
              || x in WeightsCheck(Enabled(req.objectives))
       <==> IsFound(req, mu, v, x) && !x.ReturnThresholdTooHigh? && !x.HhiThresholdTooLow?
  {
    CapFound(req, |mu|, x);
    FloorFound(req, mu, x);
    VolatilityFound(req, v, x);
    WeightsFound(req.objectives, x);
    hide MaxOf, Enabled, OutOfReach, UnderMinimum, EnabledTotal, AnyEnabled, ReturnUnreachable, HhiUnreachable,
         WeightCapCheck, MinReturnCheck, VolatilityCheck, WeightsCheck;
  }

  lemma CapFound(req: Request, n: nat, x: Violation)
    requires n > 0
    ensures x in WeightCapCheck(req, n) <==> x == MaxWeightTooSmall && req.maxWeight.Some? && req.maxWeight.value < 1.0 / n as real
  {
  }

  lemma FloorFound(req: Request, mu: seq<real>, x: Violation)
    requires mu != []
    ensures x in MinReturnCheck(req, MaxOf(mu)) <==>
      x == MinReturnTooHigh && req.minReturn.Some? && OutOfReach(mu, req.minReturn.value)
  {
    if req.minReturn.Some? { AboveBest(mu, req.minReturn.value); }
    hide MaxOf, OutOfReach;
  }

  lemma VolatilityFound(req: Request, v: MinVariance, x: Violation)
    ensures x in VolatilityCheck(req, v) <==>
      x == MaxVolatilityTooLow && req.maxVolatility.Some? && UnderMinimum(req.maxVolatility.value, v)
  {
    if req.maxVolatility.Some? { CapAgainstMinimum(req.maxVolatility.value, v); }
    hide BelowRoot, UnderMinimum;
  }

  lemma WeightsFound(rows: seq<ObjectiveRow>, x: Violation)
    ensures x in WeightsCheck(Enabled(rows)) <==> x == NoPositiveWeight && AnyEnabled(rows) && EnabledTotal(rows) <= 0.0
  {
    SomeEnabled(rows);
    TotalIsSum(rows);
    hide Enabled, TotalWeight, AnyEnabled, Sum;
  }

  lemma RowCheck(row: ObjectiveRow, mu: seq<real>, x: Violation)
    requires mu != [] && (x.ReturnThresholdTooHigh? || x.HhiThresholdTooLow?)
    ensures x in RowViolation(row, |mu|, MaxOf(mu)) <==>
      x.row == row && if x.ReturnThresholdTooHigh? then ReturnUnreachable(row, mu) else HhiUnreachable(row, |mu|)
  {
    if row.threshold.Some? { AboveBest(mu, row.threshold.value); }
    hide MaxOf, OutOfReach;
  }

  lemma RowFound(req: Request, mu: seq<real>, v: MinVariance, x: Violation)
    requires mu != [] && (x.ReturnThresholdTooHigh? || x.HhiThresholdTooLow?)
    ensures x in RowViolations(Enabled(req.objectives), |mu|, MaxOf(mu)) <==> IsFound(req, mu, v, x)
  {
    hide MaxOf, Enabled, RowViolations, RowViolation, ReturnUnreachable, HhiUnreachable;
    var rows, best := Enabled(req.objectives), MaxOf(mu);
    RowCheck(x.row, mu, x);
    if x in RowViolations(rows, |mu|, best) {
      var row := RowViolationSource(rows, |mu|, best, x);
      RowCheck(row, mu, x);
      EnabledRows(req.objectives, row);
    } else if IsFound(req, mu, v, x) {
      EnabledMember(req.objectives, x.row);
      RowIsChecked(rows, |mu|, best, x.row, x);
    }
  }

  lemma {:induction false} EnabledMember(rows: seq<ObjectiveRow>, row: ObjectiveRow)
    requires row in rows && row.enabled
    ensures row in Enabled(rows)
  {
    var last := |rows| - 1;
    if rows[last] != row {
      assert rows == rows[..last] + [rows[last]];
      EnabledMember(rows[..last], row);
    }
  }

  lemma {:induction false} RowIsChecked(rows: seq<ObjectiveRow>, n: nat, maxMu: real, row: ObjectiveRow, x: Violation)
    requires n > 0 && row in rows && x in RowViolation(row, n, maxMu)
    ensures x in RowViolations(rows, n, maxMu)
  {
    hide RowViolation;
    var last := |rows| - 1;
    if rows[last] != row {
      assert rows == rows[..last] + [rows[last]];
      RowIsChecked(rows[..last], n, maxMu, row, x);
    }
  }

  /** `at` lists the enabled rows that violate, each once and in order, and `found` their violations. */
  ghost predicate Reports(at: seq<nat>, rows: seq<ObjectiveRow>, n: nat, maxMu: real, found: seq<Violation>)
    requires n > 0
  {
    && |at| == |found|
    && (forall a :: 0 <= a < |at| ==>
          at[a] < |rows| && rows[at[a]].enabled && RowViolation(rows[at[a]], n, maxMu) == [found[a]])
    && (forall a, b :: 0 <= a < b < |at| ==> at[a] < at[b])
    && (forall k: nat :: k < |rows| && rows[k].enabled && RowViolation(rows[k], n, maxMu) != [] ==> k in at)
  }

  /** The objective rows are reported in their order in the request, each at most once. */
  lemma {:induction false} RowsInOrder(rows: seq<ObjectiveRow>, n: nat, maxMu: real) returns (at: seq<nat>)
    requires n > 0
    ensures Reports(at, rows, n, maxMu, RowViolations(Enabled(rows), n, maxMu))
  {
    at := [];
    if rows != [] {
      var last, rest := |rows| - 1, rows[..|rows| - 1];
      at := RowsInOrder(rest, n, maxMu);
      EnabledViolations(rows, n, maxMu);
      OneViolation(rows[last], n, maxMu);
      hide Reports, RowViolations, Enabled, RowViolation;
      ReportsExtend(at, rows, n, maxMu, RowViolations(Enabled(rest), n, maxMu));
      if rows[last].enabled && RowViolation(rows[last], n, maxMu) != [] {
        at := at + [last];
      }
    }
  }

  lemma ReportsExtend(at: seq<nat>, rows: seq<ObjectiveRow>, n: nat, maxMu: real, found: seq<Violation>)
    requires n > 0 && rows != [] && Reports(at, rows[..|rows| - 1], n, maxMu, found)
    requires |RowViolation(rows[|rows| - 1], n, maxMu)| <= 1
    ensures var last := rows[|rows| - 1];
      if last.enabled && RowViolation(last, n, maxMu) != []
      then Reports(at + [|rows| - 1], rows, n, maxMu, found + RowViolation(last, n, maxMu))
      else Reports(at, rows, n, maxMu, found + if last.enabled then RowViolation(last, n, maxMu) else [])
  {
    hide RowViolation;
    var last := |rows| - 1;
    assert forall k :: 0 <= k < last ==> rows[..last][k] == rows[k];
    assert found + [] == found;
    var longer := at + [last];
    assert longer[|at|] == last;
    assert forall k :: k in at ==> k in longer;
  }

  lemma OneViolation(row: ObjectiveRow, n: nat, maxMu: real)
    requires n > 0
    ensures |RowViolation(row, n, maxMu)| <= 1
  {
  }

  lemma EnabledViolations(rows: seq<ObjectiveRow>, n: nat, maxMu: real)
    requires n > 0 && rows != []
    ensures var last, rest := rows[|rows| - 1], Enabled(rows[..|rows| - 1]);
      RowViolations(Enabled(rows), n, maxMu)
        == RowViolations(rest, n, maxMu) + if last.enabled then RowViolation(last, n, maxMu) else []
  {
    hide RowViolation;
    var last, rest := rows[|rows| - 1], Enabled(rows[..|rows| - 1]);
    assert (rest + [last])[..|rest|] == rest;
    assert rest + [] == rest && RowViolations(rest, n, maxMu) + [] == RowViolations(rest, n, maxMu);
  }

  /** Where a check stands among the others; the objective rows come last. */
  function Place(x: Violation): nat {
    match x
    case MaxWeightTooSmall => 0
    case MinReturnTooHigh => 1
    case MaxVolatilityTooLow => 2
    case NoPositiveWeight => 3
    case _ => 4
  }

  /** Violations come in the order of the checks, and only rows repeat. */
  lemma ViolationsInOrder(req: Request, mu: seq<real>, v: MinVariance, a: nat, b: nat)
    requires mu != [] && a < b < |Violations(req, mu, v)|
    ensures var x, y := Violations(req, mu, v)[a], Violations(req, mu, v)[b];
      Place(x) < Place(y) || Place(x) == Place(y) == 4
  {
    hide MaxOf, Enabled, TotalWeight, RowViolations, BelowRoot;
    var rows := RowViolations(Enabled(req.objectives), |mu|, MaxOf(mu));
    forall x | x in rows ensures Place(x) == 4 {
      RowViolationKinds(Enabled(req.objectives), |mu|, MaxOf(mu), x);
    }
  }

  /** What makes a warning one of the request. */
  predicate IsWarned(req: Request, mu: seq<real>, v: MinVariance, x: Warning)
    requires mu != []
  {
    match x
    case MinReturnClose =>
      && req.minReturn.Some? && !OutOfReach(mu, req.minReturn.value)
      && forall i :: 0 <= i < |mu| ==> 0.9 * mu[i] < req.minReturn.value
    case MaxVolatilityClose => req.maxVolatility.Some? && CloseToMinimum(req.maxVolatility.value, v)
    case SectorLimitsLow => req.sectors != [] && Sum(|req.sectors|, Limits(req.sectors)) < 0.99
    case WeightsNotNormalised =>
      var total := EnabledTotal(req.objectives);
      AnyEnabled(req.objectives) && total > 0.0 && (total < 0.99 || total > 1.01)
  }

  /** The pre-check warns of exactly these. */
  lemma WarningsExactlyWhen(req: Request, mu: seq<real>, v: MinVariance, x: Warning)
    requires mu != []
    ensures x in Warnings(req, mu, v) <==> IsWarned(req, mu, v, x)
  {
    SomeEnabled(req.objectives);
    TotalIsSum(req.objectives);
    LimitIsSum(req.sectors);
    if req.minReturn.Some? { AboveBest(mu, req.minReturn.value); }
    if req.maxVolatility.Some? { CapAgainstMinimum(req.maxVolatility.value, v); }
    hide MaxOf, Enabled, TotalWeight, TotalLimit, OutOfReach, Sum, BelowRoot, UnderMinimum, CloseToMinimum, AnyEnabled;
    InOneOfFour(MinReturnWarning(req, MaxOf(mu)), VolatilityWarning(req, v), SectorWarning(req),
                WeightsWarning(Enabled(req.objectives)), x);
  }

  lemma InOneOfFour(a: seq<Warning>, b: seq<Warning>, c: seq<Warning>, d: seq<Warning>, x: Warning)
    ensures x in a + b + c + d <==> x in a || x in b || x in c || x in d
  {
  }

  function WarningPlace(x: Warning): nat {
    match x
    case MinReturnClose => 0
    case MaxVolatilityClose => 1
    case SectorLimitsLow => 2
    case WeightsNotNormalised => 3
  }

  /** Warnings come in the order of the checks, each at most once. */
  lemma WarningsInOrder(req: Request, mu: seq<real>, v: MinVariance, a: nat, b: nat)
    requires mu != [] && a < b < |Warnings(req, mu, v)|
    ensures WarningPlace(Warnings(req, mu, v)[a]) < WarningPlace(Warnings(req, mu, v)[b])
  {
    hide MaxOf, Enabled, TotalWeight, TotalLimit, BelowRoot;
  }

  // ---- The portfolios the optimizer searches ----

  /** The weight w puts into a named sector; the empty name is no sector. */
  function InSector(sectorOf: seq<string>, name: string, w: Vec): Vec {
    i => if 0 <= i < |sectorOf| && sectorOf[i] == name && name != "" then w(i) else 0.0
  }

  predicate SectorIsEmpty(sectorOf: seq<string>, name: string) {
    name == "" || name !in sectorOf
  }

  ghost predicate OnSimplex(n: nat, w: Vec) {
    Sum(n, w) == 1.0 && forall i :: 0 <= i < n ==> w(i) >= 0.0
  }

  ghost predicate MeetsSector(limit: SectorLimit, sectorOf: seq<string>, w: Vec) {
    SectorIsEmpty(sectorOf, limit.sector) || Sum(|sectorOf|, InSector(sectorOf, limit.sector, w)) <= limit.maxWeight
  }

  /** The constraint a row with a threshold adds; thresholds on other measures are not modelled. */
  ghost predicate MeetsRow(row: ObjectiveRow, n: nat, mu: Vec, w: Vec) {
    row.enabled && row.threshold.Some? ==>
      var t, up := row.threshold.value, row.direction != Some(Minimize);
      (row.name == "return" ==> if up then Dot(n, mu, w) >= t else Dot(n, mu, w) <= t) &&
      (row.name == "diversification_hhi" ==> if up then Dot(n, w, w) >= t else Dot(n, w, w) <= t)
  }

  /** A market: returns, covariance and the sector of each asset. */
  datatype Market = Market(mu: seq<real>, sigma: seq<seq<real>>, sectorOf: seq<string>)

  ghost predicate Feasible(req: Request, m: Market, w: Vec) {
    var n := |m.mu|;
    && OnSimplex(n, w)
    && (req.maxWeight.Some? ==> forall i :: 0 <= i < n ==> w(i) <= req.maxWeight.value)
    && (req.minReturn.Some? ==> Dot(n, V(m.mu), w) >= req.minReturn.value)
    && (req.maxVolatility.Some? ==> Quad(n, M(m.sigma), w) <= req.maxVolatility.value * req.maxVolatility.value)
    && (forall k :: 0 <= k < |req.sectors| ==> MeetsSector(req.sectors[k], m.sectorOf, w))
    && (forall k :: 0 <= k < |req.objectives| ==> MeetsRow(req.objectives[k], n, V(m.mu), w))
  }

  // ---- One constraint at a time ----

  function Equal(n: nat): Vec
    requires n > 0
  {
    Const(1.0 / n as real)
  }

  lemma EqualOnSimplex(n: nat)
    requires n > 0
    ensures OnSimplex(n, Equal(n))
  {
    SumConst(n, Equal(n), 1.0 / n as real);
  }

  /** A weight cap admits a portfolio iff it is at least 1/n. */
  lemma WeightCapExact(n: nat, cap: real)
    requires n > 0
    ensures (exists w: Vec :: OnSimplex(n, w) && forall i :: 0 <= i < n ==> w(i) <= cap) <==> cap >= 1.0 / n as real
  {
    if cap >= 1.0 / n as real {
      EqualOnSimplex(n);
      assert OnSimplex(n, Equal(n)) && forall i :: 0 <= i < n ==> Equal(n)(i) <= cap;
    }
    forall w: Vec | OnSimplex(n, w) && forall i :: 0 <= i < n ==> w(i) <= cap
      ensures cap >= 1.0 / n as real
    {
      SumMonotone(n, w, Const(cap));
      SumConst(n, Const(cap), cap);
      DivMonotone(1.0, n as real * cap, n as real);
      assert (n as real * cap) / n as real == cap;
    }
  }

  /** A return floor admits a portfolio iff it is at most the best single return. */
  lemma ReturnFloorExact(mu: seq<real>, floor: real)
    requires mu != []
    ensures (exists w: Vec :: OnSimplex(|mu|, w) && Dot(|mu|, V(mu), w) >= floor) <==> floor <= MaxOf(mu)
  {
    hide MaxOf;
    var n, top := |mu|, MaxOf(mu);
    ExtremesAttained(mu);
    if floor <= top {
      var k: nat :| k < n && mu[k] == top;
      SumSingle(n, Unit(k), k);
      DotUnit(n, k, V(mu));
      assert OnSimplex(n, Unit(k)) && Dot(n, V(mu), Unit(k)) >= floor;
    }
    forall w: Vec | OnSimplex(n, w) ensures Dot(n, V(mu), w) <= top {
      ReturnUpperBound(mu, w);
    }
  }

  /** No portfolio returns more than the best asset. */
  lemma ReturnUpperBound(mu: seq<real>, w: Vec)
    requires mu != [] && OnSimplex(|mu|, w)
    ensures Dot(|mu|, V(mu), w) <= MaxOf(mu)
  {
    hide MaxOf, Times;
    var n, top := |mu|, MaxOf(mu);
    ExtremesAttained(mu);
    forall i: nat | i < n ensures Times(V(mu), w)(i) <= Times(Const(top), w)(i) {
      ReturnTerm(mu, w, i, top);
    }
    SumMonotone(n, Times(V(mu), w), Times(Const(top), w));
    SumTimesConst(n, top, w);
  }

  lemma ReturnTerm(mu: seq<real>, w: Vec, i: nat, top: real)
    requires i < |mu| && mu[i] <= top && w(i) >= 0.0
    ensures Times(V(mu), w)(i) <= Times(Const(top), w)(i)
  {
  }

  /** A concentration cap admits a portfolio iff it is at least 1/n: Σwᵢ² ≥ 1/n on the simplex. */
  lemma HhiCapExact(n: nat, cap: real)
    requires n > 0
    ensures (exists w: Vec :: OnSimplex(n, w) && Dot(n, w, w) <= cap) <==> cap >= 1.0 / n as real
  {
    var u := 1.0 / n as real;
    if cap >= u {
      EqualOnSimplex(n);
      SumScale(n, Times(Equal(n), Equal(n)), u, Equal(n));
      assert OnSimplex(n, Equal(n)) && Dot(n, Equal(n), Equal(n)) <= cap;
    }
    forall w: Vec | OnSimplex(n, w)
      ensures Dot(n, w, w) >= u
    {
      HhiLowerBound(n, w);
    }
  }

  lemma HhiLowerBound(n: nat, w: Vec)
    requires n > 0 && Sum(n, w) == 1.0
    ensures Dot(n, w, w) >= 1.0 / n as real
  {
    hide Dot;
    SquareOfSum(n, w);
    DivMonotone(1.0, n as real * Dot(n, w, w), n as real);
  }

  // ---- Soundness of the rejections ----

  /** The covariance is a square symmetric PSD matrix and the inverse, if computed, is exact. */
  ghost predicate Sound(m: Market, inverse: Option<seq<seq<real>>>) {
    && m.mu != []
    && Symmetric(|m.mu|, M(m.sigma)) && PositiveSemidefinite(|m.mu|, M(m.sigma))
    && (inverse.Some? ==> IsInverse(|m.mu|, M(m.sigma), M(inverse.value)))
  }

  lemma VolatilityRejectionIsSound(m: Market, inverse: Option<seq<seq<real>>>, cap: real, w: Vec)
    requires Sound(m, inverse) && Sum(|m.mu|, w) == 1.0
    requires cap >= 0.0 && BelowRoot(cap, 1.0, MinVarianceOf(|m.mu|, inverse))
    ensures Quad(|m.mu|, M(m.sigma), w) > cap * cap
  {
    hide Quad;
    if inverse.Some? {
      MinimumVariance(|m.mu|, M(m.sigma), M(inverse.value), w);
    }
  }

  /** With an inverse the verdict on a volatility cap is exact for fully invested portfolios, and for
      portfolios without short positions when no row of the inverse has a negative sum. */
  lemma VolatilityVerdictIsExact(m: Market, inverse: Option<seq<seq<real>>>, cap: real)
    requires Sound(m, inverse) && inverse.Some? && cap >= 0.0
    ensures BelowRoot(cap, 1.0, MinVarianceOf(|m.mu|, inverse))
       <==> !exists w: Vec :: Sum(|m.mu|, w) == 1.0 && Quad(|m.mu|, M(m.sigma), w) <= cap * cap
    ensures (forall i :: 0 <= i < |m.mu| ==> RowSum(|m.mu|, M(inverse.value))(i) >= 0.0) ==>
      (BelowRoot(cap, 1.0, MinVarianceOf(|m.mu|, inverse))
       <==> !exists w: Vec :: OnSimplex(|m.mu|, w) && Quad(|m.mu|, M(m.sigma), w) <= cap * cap)
  {
    hide Quad, Symmetric, PositiveSemidefinite, IsInverse;
    var n, s := |m.mu|, M(m.sigma);
    var best := MinimumVarianceAttained(n, s, M(inverse.value));
    var total := Sum(n, RowSum(n, M(inverse.value)));
    if BelowRoot(cap, 1.0, MinVarianceOf(n, inverse)) {
      forall w: Vec | Sum(n, w) == 1.0 ensures Quad(n, s, w) > cap * cap {
        VolatilityRejectionIsSound(m, inverse, cap, w);
      }
    } else {
      ReciprocalPositive(total);
      assert Quad(n, s, best) <= cap * cap;
      if forall i :: 0 <= i < n ==> RowSum(n, M(inverse.value))(i) >= 0.0 {
        forall i | 0 <= i < n ensures best(i) >= 0.0 {
          ScaleMonotone(1.0 / total, 0.0, RowSum(n, M(inverse.value))(i));
        }
        assert OnSimplex(n, best);
      }
    }
  }

  ghost predicate LongOnlyMeets(m: Market, cap: real) {
    exists w: Vec :: OnSimplex(|m.mu|, w) && Quad(|m.mu|, M(m.sigma), w) <= cap * cap
  }

  ghost predicate NoNegativeRow(n: nat, b: Mat) {
    forall i :: 0 <= i < n ==> RowSum(n, b)(i) >= 0.0
  }

  /** A cap equal to the minimum volatility passes the check. A portfolio without short positions meets it
      exactly when no row of the inverse has a negative sum. */
  lemma TightCapExactlyWhen(m: Market, inverse: Option<seq<seq<real>>>, cap: real)
    requires Sound(m, inverse) && inverse.Some? && cap >= 0.0
    requires Sum(|m.mu|, RowSum(|m.mu|, M(inverse.value))) != 0.0
    requires cap * cap == 1.0 / Sum(|m.mu|, RowSum(|m.mu|, M(inverse.value)))
    ensures !BelowRoot(cap, 1.0, MinVarianceOf(|m.mu|, inverse))
    ensures LongOnlyMeets(m, cap) <==> NoNegativeRow(|m.mu|, M(inverse.value))
  {
    hide Quad, Symmetric, PositiveSemidefinite, IsInverse, RowSum;
    var n, s, b := |m.mu|, M(m.sigma), M(inverse.value);
    var total := Sum(n, RowSum(n, b));
    var best := MinimumVarianceAttained(n, s, b);
    ReciprocalPositive(total);
    VolatilityVerdictIsExact(m, inverse, cap);
    if LongOnlyMeets(m, cap) {
      var w: Vec :| OnSimplex(n, w) && Quad(n, s, w) <= cap * cap;
      forall k: nat | k < n ensures RowSum(n, b)(k) >= 0.0 {
        MinimumIsUnique(n, s, b, w, k);
        SignOfFactor(1.0 / total, RowSum(n, b)(k), w(k));
      }
    }
  }

  lemma SignOfFactor(t: real, x: real, p: real)
    requires t > 0.0 && p == t * x && p >= 0.0
    ensures x >= 0.0
  {
    if x < 0.0 { StrictScale(t, x, 0.0); }
  }

  /** The check decides every volatility cap correctly for portfolios without short positions exactly when
      no row of the inverse has a negative sum; root is the minimum volatility. */
  lemma VolatilityCheckIsCompleteExactlyWhen(m: Market, inverse: Option<seq<seq<real>>>, root: real)
    requires Sound(m, inverse) && inverse.Some? && root >= 0.0
    requires Sum(|m.mu|, RowSum(|m.mu|, M(inverse.value))) != 0.0
    requires root * root == 1.0 / Sum(|m.mu|, RowSum(|m.mu|, M(inverse.value)))
    ensures (forall cap: real :: cap >= 0.0 ==>
              (BelowRoot(cap, 1.0, MinVarianceOf(|m.mu|, inverse)) <==> !LongOnlyMeets(m, cap)))
       <==> NoNegativeRow(|m.mu|, M(inverse.value))
  {
    hide Sound, BelowRoot, MinVarianceOf;
    TightCapExactlyWhen(m, inverse, root);
    if NoNegativeRow(|m.mu|, M(inverse.value)) {
      forall cap: real | cap >= 0.0
        ensures BelowRoot(cap, 1.0, MinVarianceOf(|m.mu|, inverse)) <==> !LongOnlyMeets(m, cap)
      {
        VolatilityVerdictIsExact(m, inverse, cap);
      }
    }
  }

  lemma ReciprocalPositive(t: real)
    requires t > 0.0
    ensures 1.0 / t > 0.0
  {
  }

  lemma {:induction false} RowViolationSource(rows: seq<ObjectiveRow>, n: nat, maxMu: real, x: Violation)
    returns (row: ObjectiveRow)
    requires n > 0 && x in RowViolations(rows, n, maxMu)
    ensures row in rows && x in RowViolation(row, n, maxMu)
  {
    var last := rows[|rows| - 1];
    if x in RowViolation(last, n, maxMu) {
      row := last;
    } else {
      row := RowViolationSource(rows[..|rows| - 1], n, maxMu, x);
    }
  }

  lemma {:induction false} EnabledRows(rows: seq<ObjectiveRow>, row: ObjectiveRow)
    requires row in Enabled(rows)
    ensures row in rows && row.enabled
  {
    if row !in Enabled(rows[..|rows| - 1]) {
      assert row == rows[|rows| - 1];
    } else {
      EnabledRows(rows[..|rows| - 1], row);
    }
  }

  /** A row that violates has a threshold no portfolio meets. */
  lemma RowRejectionIsSound(row: ObjectiveRow, mu: seq<real>, x: Violation, w: Vec)
    requires mu != [] && row.enabled && x in RowViolation(row, |mu|, MaxOf(mu)) && OnSimplex(|mu|, w)
    ensures !MeetsRow(row, |mu|, V(mu), w)
  {
    hide MaxOf, Dot;
    ReturnUpperBound(mu, w);
    HhiLowerBound(|mu|, w);
  }

  /** Every rejection except the one about objective weights means that the optimizer's feasible
      set is empty; the volatility cap, which the schema keeps nonnegative, is compared as a square. */
  lemma RejectionMeansInfeasible(req: Request, m: Market, inverse: Option<seq<seq<real>>>, x: Violation, w: Vec)
    requires Sound(m, inverse)
    requires req.maxVolatility.Some? ==> req.maxVolatility.value >= 0.0
    requires x in Violations(req, m.mu, MinVarianceOf(|m.mu|, inverse)) && x != NoPositiveWeight
    ensures !Feasible(req, m, w)
  {
    hide MaxOf, BelowRoot, Dot, Quad, Symmetric, PositiveSemidefinite, IsInverse, MeetsRow, MeetsSector, Violations, RowViolations;
    ViolationSource(req, m.mu, MinVarianceOf(|m.mu|, inverse), x);
    match x {
      case MaxWeightTooSmall => CapRejectionIsSound(|m.mu|, req.maxWeight.value, w);
      case MinReturnTooHigh => if OnSimplex(|m.mu|, w) { ReturnUpperBound(m.mu, w); }
      case MaxVolatilityTooLow =>
        if OnSimplex(|m.mu|, w) { VolatilityRejectionIsSound(m, inverse, req.maxVolatility.value, w); }
      case ReturnThresholdTooHigh(_) => if OnSimplex(|m.mu|, w) { RejectedRow(req, m, x, w); }
      case HhiThresholdTooLow(_) => if OnSimplex(|m.mu|, w) { RejectedRow(req, m, x, w); }
      case NoPositiveWeight =>
    }
  }

  /** The schema leaves the check of objective weights nothing to reject. */
  lemma AdmittedWeightsPass(req: Request, mu: seq<real>, v: MinVariance)
    requires Admitted(req) && mu != []
    ensures NoPositiveWeight !in Violations(req, mu, v)
  {
    hide Violations, MaxOf, BelowRoot;
    if NoPositiveWeight in Violations(req, mu, v) {
      ViolationSource(req, mu, v, NoPositiveWeight);
    }
  }

  /** Whatever an admitted request is rejected for, no portfolio meets the optimizer's constraints. */
  lemma RejectionsAreSound(req: Request, m: Market, inverse: Option<seq<seq<real>>>, w: Vec)
    requires Sound(m, inverse) && Admitted(req)
    requires Violations(req, m.mu, MinVarianceOf(|m.mu|, inverse)) != []
    ensures !Feasible(req, m, w)
  {
    hide Violations, Feasible, Enabled, TotalWeight, MinVarianceOf;
    var x := Violations(req, m.mu, MinVarianceOf(|m.mu|, inverse))[0];
    AdmittedWeightsPass(req, m.mu, MinVarianceOf(|m.mu|, inverse));
    RejectionMeansInfeasible(req, m, inverse, x, w);
  }

  lemma CapRejectionIsSound(n: nat, cap: real, w: Vec)
    requires n > 0 && cap < 1.0 / n as real
    ensures !(OnSimplex(n, w) && forall i :: 0 <= i < n ==> w(i) <= cap)
  {
    WeightCapExact(n, cap);
  }

  /** Which check a violation comes from. */
  lemma ViolationSource(req: Request, mu: seq<real>, v: MinVariance, x: Violation)
    requires mu != [] && x in Violations(req, mu, v)
    ensures match x
      case MaxWeightTooSmall => req.maxWeight.Some? && req.maxWeight.value < 1.0 / |mu| as real
      case MinReturnTooHigh => req.minReturn.Some? && req.minReturn.value > MaxOf(mu)
      case MaxVolatilityTooLow => req.maxVolatility.Some? && BelowRoot(req.maxVolatility.value, 1.0, v)
      case NoPositiveWeight => Enabled(req.objectives) != [] && TotalWeight(Enabled(req.objectives)) <= 0.0
      case _ => x in RowViolations(Enabled(req.objectives), |mu|, MaxOf(mu))
  {
    hide MaxOf, BelowRoot, Enabled, TotalWeight, RowViolations;
    InOneOfFive(WeightCapCheck(req, |mu|), MinReturnCheck(req, MaxOf(mu)), VolatilityCheck(req, v),
                WeightsCheck(Enabled(req.objectives)), RowViolations(Enabled(req.objectives), |mu|, MaxOf(mu)), x);
    if x in RowViolations(Enabled(req.objectives), |mu|, MaxOf(mu)) {
      RowViolationKinds(Enabled(req.objectives), |mu|, MaxOf(mu), x);
    }
  }

  lemma RowViolationKinds(rows: seq<ObjectiveRow>, n: nat, maxMu: real, x: Violation)
    requires n > 0 && x in RowViolations(rows, n, maxMu)
    ensures x.ReturnThresholdTooHigh? || x.HhiThresholdTooLow?
  {
    hide RowViolations;
    var row := RowViolationSource(rows, n, maxMu, x);
  }

  lemma InOneOfFive(a: seq<Violation>, b: seq<Violation>, c: seq<Violation>, d: seq<Violation>, e: seq<Violation>, x: Violation)
    ensures x in a + b + c + d + e <==> x in a || x in b || x in c || x in d || x in e
  {
  }

  lemma RejectedRow(req: Request, m: Market, x: Violation, w: Vec)
    requires m.mu != [] && x in RowViolations(Enabled(req.objectives), |m.mu|, MaxOf(m.mu)) && OnSimplex(|m.mu|, w)
    ensures exists k :: 0 <= k < |req.objectives| && !MeetsRow(req.objectives[k], |m.mu|, V(m.mu), w)
  {
    hide MaxOf, MeetsRow;
    var row := RowViolationSource(Enabled(req.objectives), |m.mu|, MaxOf(m.mu), x);
    EnabledRows(req.objectives, row);
    RowRejectionIsSound(row, m.mu, x, w);
    var k :| 0 <= k < |req.objectives| && req.objectives[k] == row;
  }

  // ---- Single limits: the verdict is exact ----

  function OnlyCap(limit: real): Request {
    Request(Some(limit), None, None, [], [])
  }

  function OnlyFloor(limit: real): Request {
    Request(None, Some(limit), None, [], [])
  }

  function OnlyRow(row: ObjectiveRow): Request {
    Request(None, None, None, [], [row])
  }

  /** A weight cap alone is rejected exactly when no portfolio meets it. */
  lemma CapVerdictIsExact(m: Market, v: MinVariance, limit: real)
    requires m.mu != []
    ensures Violations(OnlyCap(limit), m.mu, v) != [] <==> !exists w: Vec :: Feasible(OnlyCap(limit), m, w)
  {
    var n := |m.mu|;
    WeightCapExact(n, limit);
    hide MaxOf, OnSimplex;
    assert Violations(OnlyCap(limit), m.mu, v) == WeightCapCheck(OnlyCap(limit), n);
    assert forall w: Vec :: Feasible(OnlyCap(limit), m, w) <==> OnSimplex(n, w) && forall i :: 0 <= i < n ==> w(i) <= limit;
  }

  /** A return floor alone is rejected exactly when no portfolio meets it. */
  lemma FloorVerdictIsExact(m: Market, v: MinVariance, limit: real)
    requires m.mu != []
    ensures Violations(OnlyFloor(limit), m.mu, v) != [] <==> !exists w: Vec :: Feasible(OnlyFloor(limit), m, w)
  {
    var n := |m.mu|;
    ReturnFloorExact(m.mu, limit);
    hide MaxOf, OnSimplex, Dot;
    assert Violations(OnlyFloor(limit), m.mu, v) == MinReturnCheck(OnlyFloor(limit), MaxOf(m.mu));
    assert forall w: Vec :: Feasible(OnlyFloor(limit), m, w) <==> OnSimplex(n, w) && Dot(n, V(m.mu), w) >= limit;
  }

  /** So is a threshold on the return or on the concentration, as the one objective. */
  lemma ThresholdVerdictIsExact(m: Market, v: MinVariance, row: ObjectiveRow)
    requires m.mu != [] && row.enabled && row.threshold.Some? && row.weight > 0.0
    requires (row.name == "return" && row.direction == Some(Maximize))
          || (row.name == "diversification_hhi" && row.direction == Some(Minimize))
    ensures Violations(OnlyRow(row), m.mu, v) != [] <==> !exists w: Vec :: Feasible(OnlyRow(row), m, w)
  {
    var n, limit := |m.mu|, row.threshold.value;
    ReturnFloorExact(m.mu, limit);
    HhiCapExact(n, limit);
    OneRow(row, n, MaxOf(m.mu));
    hide MaxOf, OnSimplex, Dot, Enabled, TotalWeight, RowViolations;
    assert Violations(OnlyRow(row), m.mu, v) == RowViolation(row, n, MaxOf(m.mu));
    assert forall w: Vec :: Feasible(OnlyRow(row), m, w) <==> OnSimplex(n, w) && MeetsRow(row, n, V(m.mu), w);
  }

  lemma OneRow(row: ObjectiveRow, n: nat, maxMu: real)
    requires n > 0 && row.enabled
    ensures Enabled([row]) == [row] && TotalWeight([row]) == row.weight
    ensures RowViolations([row], n, maxMu) == RowViolation(row, n, maxMu)
  {
    assert [row][..0] == [];
    assert RowViolations([], n, maxMu) == [];
  }

  /** Behind the schema the check of objective weights is a second guard: it says nothing about feasibility.
      On this request, which the schema does not admit, it fires although the equal-weight portfolio is feasible. */
  lemma NoPositiveWeightIsNotInfeasibility()
    ensures var req := Request(None, None, None, [], [ObjectiveRow("return", Some(Maximize), None, 0.0, true)]);
            var m := Market([0.1, 0.1], [[1.0, 0.0], [0.0, 1.0]], ["", ""]);
            !Admitted(req) && Violations(req, m.mu, Absent) == [NoPositiveWeight] && Feasible(req, m, Equal(2))
  {
    var row := ObjectiveRow("return", Some(Maximize), None, 0.0, true);
    var req := Request(None, None, None, [], [row]);
    assert Enabled(req.objectives) == [row] by {
      assert req.objectives[..0] == [];
    }
    assert TotalWeight([row]) == 0.0 by { assert [row][..0] == []; }
    assert RowViolations([row], 2, MaxOf([0.1, 0.1])) == [] by { assert [row][..0] == []; }
    EqualOnSimplex(2);
  }

  /** Passing the volatility check does not make the cap attainable without short positions. */
  lemma VolatilityCheckIsIncomplete(mu: seq<real>, sectorOf: seq<string>)
    requires |mu| == 2
    ensures var s := [[1.0, 2.0], [2.0, 5.0]];
            var b := [[5.0, -2.0], [-2.0, 1.0]];
            Sound(Market(mu, s, sectorOf), Some(b)) &&
            !BelowRoot(0.8, 1.0, MinVarianceOf(2, Some(b))) &&
            forall w: Vec :: OnSimplex(2, w) ==> Quad(2, M(s), w) > 0.8 * 0.8
  {
    hide Quad;
    var s, b := M([[1.0, 2.0], [2.0, 5.0]]), M([[5.0, -2.0], [-2.0, 1.0]]);
    forall i, k | 0 <= i < 2 && 0 <= k < 2
      ensures Sum(2, Product(s, b, i, k)) == if i == k then 1.0 else 0.0
    {
      TwoTerms(Product(s, b, i, k));
    }
    TwoTerms(RowSum(2, b));
    TwoTerms(Sums.Row(b, 0));
    TwoTerms(Sums.Row(b, 1));
    assert Sum(2, RowSum(2, b)) == 2.0;
    forall w: Vec ensures Quad(2, s, w) >= 0.0 {
      TwoAssetVariance(w);
    }
    forall w: Vec | OnSimplex(2, w) ensures Quad(2, s, w) > 0.8 * 0.8 {
      TwoAssetVariance(w);
    }
  }

  lemma TwoTerms(f: Vec)
    ensures Sum(2, f) == f(0) + f(1)
  {
    assert Sum(1, f) == Sum(0, f) + f(0);
  }

  /** The form of that covariance is a sum of two squares. */
  lemma TwoAssetVariance(w: Vec)
    ensures Quad(2, M([[1.0, 2.0], [2.0, 5.0]]), w) >= 0.0
    ensures OnSimplex(2, w) ==> Quad(2, M([[1.0, 2.0], [2.0, 5.0]]), w) >= 1.0
  {
    var s := M([[1.0, 2.0], [2.0, 5.0]]);
    TwoTerms(w);
    TwoTerms(Times(Sums.Row(s, 0), w));
    TwoTerms(Times(Sums.Row(s, 1), w));
    TwoTerms(Times(w, Apply(2, s, w)));
    TwoSquares(w(0), w(1));
  }

  lemma TwoSquares(a: real, b: real)
    ensures a * (a + 2.0 * b) + b * (2.0 * a + 5.0 * b) >= 0.0
    ensures a + b == 1.0 && b >= 0.0 ==> a * (a + 2.0 * b) + b * (2.0 * a + 5.0 * b) >= 1.0
  {
    var c := a + 2.0 * b;
    assert a * (a + 2.0 * b) + b * (2.0 * a + 5.0 * b) == c * c + b * b;
    assert c * c >= 0.0 && b * b >= 0.0;
    if a + b == 1.0 && b >= 0.0 {
      assert c == 1.0 + b;
      assert c * c == 1.0 + 2.0 * b + b * b;
    }
  }

  // ---- Sector limits ----

  /** Asset i lies in a sector that one of the limits names. */
  predicate Limited(sectors: seq<SectorLimit>, sector: string) {
    exists k :: 0 <= k < |sectors| && sectors[k].sector == sector
  }

  /** The weight of the assets in limited sectors. */
  function Covered(sectors: seq<SectorLimit>, sectorOf: seq<string>, w: Vec): Vec {
    i => if 0 <= i < |sectorOf| && sectorOf[i] != "" && Limited(sectors, sectorOf[i]) then w(i) else 0.0
  }

  /** The covered weight is at most the sum of the limits, even when sectors are listed twice. */
  lemma {:induction false} CoveredAtMostLimits(sectors: seq<SectorLimit>, sectorOf: seq<string>, w: Vec)
    requires forall i :: 0 <= i < |sectorOf| ==> w(i) >= 0.0
    requires forall k :: 0 <= k < |sectors| ==> sectors[k].maxWeight >= 0.0 && MeetsSector(sectors[k], sectorOf, w)
    ensures Sum(|sectorOf|, Covered(sectors, sectorOf, w)) <= TotalLimit(sectors)
  {
    var n := |sectorOf|;
    if sectors == [] {
      SumZero(n, Covered(sectors, sectorOf, w));
    } else {
      var rest, last := sectors[..|sectors| - 1], sectors[|sectors| - 1];
      RestMeets(sectors, sectorOf, w);
      CoveredAtMostLimits(rest, sectorOf, w);
      hide MeetsSector, Covered, InSector;
      CoveredStep(sectors, sectorOf, w);
      SectorAtMostLimit(last, sectorOf, w);
    }
  }

  /** One more limit covers at most the weight of its sector more. */
  lemma CoveredStep(sectors: seq<SectorLimit>, sectorOf: seq<string>, w: Vec)
    requires sectors != [] && forall i :: 0 <= i < |sectorOf| ==> w(i) >= 0.0
    ensures var n, last := |sectorOf|, sectors[|sectors| - 1];
      Sum(n, Covered(sectors, sectorOf, w))
        <= Sum(n, Covered(sectors[..|sectors| - 1], sectorOf, w)) + Sum(n, InSector(sectorOf, last.sector, w))
  {
    hide Covered, InSector;
    var n, rest, last := |sectorOf|, sectors[..|sectors| - 1], sectors[|sectors| - 1];
    var both := Axpy(Covered(rest, sectorOf, w), 1.0, InSector(sectorOf, last.sector, w));
    forall i | 0 <= i < n ensures Covered(sectors, sectorOf, w)(i) <= both(i) {
      CoveredAt(sectors, sectorOf, w, i);
    }
    SumMonotone(n, Covered(sectors, sectorOf, w), both);
    SumLinear(n, both, Covered(rest, sectorOf, w), 1.0, InSector(sectorOf, last.sector, w));
  }

  lemma RestMeets(sectors: seq<SectorLimit>, sectorOf: seq<string>, w: Vec)
    requires sectors != []
    requires forall k :: 0 <= k < |sectors| ==> sectors[k].maxWeight >= 0.0 && MeetsSector(sectors[k], sectorOf, w)
    ensures var rest := sectors[..|sectors| - 1];
      forall k :: 0 <= k < |rest| ==> rest[k].maxWeight >= 0.0 && MeetsSector(rest[k], sectorOf, w)
  {
    hide MeetsSector;
  }

  lemma CoveredAt(sectors: seq<SectorLimit>, sectorOf: seq<string>, w: Vec, i: nat)
    requires sectors != [] && i < |sectorOf| && w(i) >= 0.0
    ensures Covered(sectors, sectorOf, w)(i)
         <= Covered(sectors[..|sectors| - 1], sectorOf, w)(i)
            + InSector(sectorOf, sectors[|sectors| - 1].sector, w)(i)
  {
    CoveredSplit(sectors, sectorOf[i]);
  }

  lemma CoveredSplit(sectors: seq<SectorLimit>, sector: string)
    requires sectors != []
    ensures Limited(sectors, sector) ==>
      Limited(sectors[..|sectors| - 1], sector) || sectors[|sectors| - 1].sector == sector
  {
    if Limited(sectors, sector) {
      var k :| 0 <= k < |sectors| && sectors[k].sector == sector;
      if k < |sectors| - 1 {
        assert sectors[..|sectors| - 1][k].sector == sector;
      }
    }
  }

  lemma SectorAtMostLimit(limit: SectorLimit, sectorOf: seq<string>, w: Vec)
    requires limit.maxWeight >= 0.0 && MeetsSector(limit, sectorOf, w)
    ensures Sum(|sectorOf|, InSector(sectorOf, limit.sector, w)) <= limit.maxWeight
  {
    if SectorIsEmpty(sectorOf, limit.sector) {
      SumZero(|sectorOf|, InSector(sectorOf, limit.sector, w));
    }
  }

  /** When every asset lies in a limited sector and the limits sum to less than one, no portfolio
      is feasible; in particular whenever the sector warning is raised on such a market. */
  lemma SectorLimitsCanBeInfeasible(req: Request, m: Market, w: Vec)
    requires |m.sectorOf| == |m.mu|
    requires forall k :: 0 <= k < |req.sectors| ==> req.sectors[k].maxWeight >= 0.0
    requires forall i :: 0 <= i < |m.sectorOf| ==> m.sectorOf[i] != "" && Limited(req.sectors, m.sectorOf[i])
    requires TotalLimit(req.sectors) < 1.0
    ensures !Feasible(req, m, w)
  {
    hide MeetsSector, MeetsRow, Limited;
    if Feasible(req, m, w) {
      CoveredAtMostLimits(req.sectors, m.sectorOf, w);
      SumEqual(|m.mu|, Covered(req.sectors, m.sectorOf, w), w);
    }
  }

  lemma SectorWarningImpliesInfeasible(req: Request, m: Market, v: MinVariance, w: Vec)
    requires m.mu != [] && SectorLimitsLow in Warnings(req, m.mu, v)
    requires |m.sectorOf| == |m.mu|
    requires forall k :: 0 <= k < |req.sectors| ==> req.sectors[k].maxWeight >= 0.0
    requires forall i :: 0 <= i < |m.sectorOf| ==> m.sectorOf[i] != "" && Limited(req.sectors, m.sectorOf[i])
    ensures !Feasible(req, m, w)
  {
    hide BelowRoot, MaxOf, Feasible, Limited;
    SectorLimitsCanBeInfeasible(req, m, w);
  }
}
