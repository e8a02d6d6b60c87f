/** The quantum stage around the two solvers: the target size, the size guard, the best of the
    sampled bitstrings, and the portfolios built from whatever the solvers return. */
module Dispatcher {
  import opened Reals
  import opened Options
  import opened Sums
  import opened Selections
  import opened Qubo
  import opened Penalty
  import opened Ising
  import opened SelectionChain
  import opened Cardinality

  // ---- The cost Hamiltonian drops tiny coefficients ----

  const NEGLIGIBLE := 0.0000000001

  function Significant(c: real): real {
    if Abs(c) > NEGLIGIBLE then c else 0.0
  }

  function SignificantAll(s: seq<real>): (r: seq<real>)
    ensures |r| == |s| && forall i :: 0 <= i < |s| ==> r[i] == Significant(s[i])
  {
    seq(|s|, i requires 0 <= i < |s| => Significant(s[i]))
  }

  /** The Hamiltonian handed to the circuit: only coefficients above 1e-10 in size. */
  function CostHamiltonian(m: Model): (c: Model)
    requires |m.pairs| == |m.couplings|
    ensures |c.pairs| == |c.couplings|
  {
    Model(SignificantAll(m.fields), m.pairs, SignificantAll(m.couplings))
  }

  lemma {:induction false} PairsChange(pairs: seq<Pair>, couplings: seq<real>, z: seq<int>)
    requires |pairs| == |couplings| && IsSpin(z)
    requires forall k :: 0 <= k < |pairs| ==> pairs[k].0 < |z| && pairs[k].1 < |z|
    ensures var d, cap := PairEnergy(pairs, couplings, Z(z)) - PairEnergy(pairs, SignificantAll(couplings), Z(z)),
                          NEGLIGIBLE * |pairs| as real;
            -cap <= d <= cap
  {
    hide Significant, Z, SignificantAll, PairEnergy;
    if pairs != [] {
      var last := |pairs| - 1;
      var kept, x := SignificantAll(couplings), Z(z)(pairs[last].0) * Z(z)(pairs[last].1);
      PairsChange(pairs[..last], couplings[..last], z);
      assert kept[..last] == SignificantAll(couplings[..last]);
      LastPair(pairs, couplings, Z(z));
      LastPair(pairs, kept, Z(z));
      TermChange(couplings[last], z, pairs[last].0, pairs[last].1);
      OneMoreTerm(last, PairEnergy(pairs[..last], couplings[..last], Z(z)), PairEnergy(pairs[..last], kept[..last], Z(z)),
                  couplings[last] * x, kept[last] * x);
    } else {
      NoPairs(couplings, Z(z));
      NoPairs(SignificantAll(couplings), Z(z));
    }
  }

  lemma OneMoreTerm(n: nat, a: real, b: real, c: real, d: real)
    requires -(NEGLIGIBLE * n as real) <= a - b <= NEGLIGIBLE * n as real && -NEGLIGIBLE <= c - d <= NEGLIGIBLE
    ensures -(NEGLIGIBLE * (n + 1) as real) <= (a + c) - (b + d) <= NEGLIGIBLE * (n + 1) as real
  {
  }

  lemma NoPairs(couplings: seq<real>, z: Vec)
    requires couplings == []
    ensures PairEnergy([], couplings, z) == 0.0
  {
  }

  lemma LastPair(pairs: seq<Pair>, couplings: seq<real>, z: Vec)
    requires |pairs| == |couplings| && pairs != []
    ensures var last := |pairs| - 1;
      PairEnergy(pairs, couplings, z)
        == PairEnergy(pairs[..last], couplings[..last], z) + couplings[last] * (z(pairs[last].0) * z(pairs[last].1))
  {
  }

  lemma TermChange(c: real, z: seq<int>, a: nat, b: nat)
    requires IsSpin(z) && a < |z| && b < |z|
    ensures -NEGLIGIBLE <= c * (Z(z)(a) * Z(z)(b)) - Significant(c) * (Z(z)(a) * Z(z)(b)) <= NEGLIGIBLE
  {
    var s := Z(z)(a) * Z(z)(b);
    assert s == 1.0 || s == -1.0;
  }

  lemma {:induction false} FieldsChange(n: nat, fields: seq<real>, z: seq<int>)
    requires n <= |fields| == |z| && IsSpin(z)
    ensures var d, cap := Dot(n, V(fields), Z(z)) - Dot(n, V(SignificantAll(fields)), Z(z)), NEGLIGIBLE * n as real;
            -cap <= d <= cap
  {
    if n > 0 {
      FieldsChange(n - 1, fields, z);
    }
  }

  /** Minimising the Hamiltonian that is actually built costs at most 2e-10 per coefficient. */
  lemma CostGroundStateIsNearlyGround(m: Model, z: seq<int>, y: seq<int>)
    requires |m.pairs| == |m.couplings|
    requires forall k :: 0 <= k < |m.pairs| ==> m.pairs[k].0 < |m.fields| && m.pairs[k].1 < |m.fields|
    requires IsGroundState(CostHamiltonian(m), z) && IsSpin(y) && |y| == |z|
    ensures IsingEnergy(m, Z(z)) <= IsingEnergy(m, Z(y)) + 2.0 * NEGLIGIBLE * (|m.fields| + |m.pairs|) as real
  {
    hide Dot, PairEnergy, V;
    FieldsChange(|m.fields|, m.fields, z);
    FieldsChange(|m.fields|, m.fields, y);
    PairsChange(m.pairs, m.couplings, z);
    PairsChange(m.pairs, m.couplings, y);
    assert IsingEnergy(CostHamiltonian(m), Z(z)) <= IsingEnergy(CostHamiltonian(m), Z(y));
  }

  /** Every coefficient is zero or larger than 1e-10. */
  ghost predicate AllLarge(s: seq<real>) {
    forall i :: 0 <= i < |s| ==> s[i] == 0.0 || Abs(s[i]) > 0.0000000001
  }

  ghost predicate AllSmall(s: seq<real>) {
    forall i :: 0 <= i < |s| ==> Abs(s[i]) <= 0.0000000001
  }

  /** The Hamiltonian that is built is the Ising model exactly when no coefficient lies within 1e-10 of zero without
      being zero; when all do, nothing is left of it. */
  lemma CostHamiltonianIsExactExactlyWhen(m: Model, z: Vec)
    requires |m.pairs| == |m.couplings|
    ensures CostHamiltonian(m) == m <==> AllLarge(m.fields) && AllLarge(m.couplings)
    ensures AllSmall(m.fields) && AllSmall(m.couplings) ==> IsingEnergy(CostHamiltonian(m), z) == 0.0
  {
    KeptExactlyWhen(m.fields);
    KeptExactlyWhen(m.couplings);
    if AllSmall(m.fields) && AllSmall(m.couplings) {
      var c := CostHamiltonian(m);
      SumZero(|c.fields|, Times(V(c.fields), z));
      NoCouplings(c.pairs, c.couplings, z);
    }
  }

  lemma KeptExactlyWhen(s: seq<real>)
    ensures SignificantAll(s) == s <==> AllLarge(s)
  {
    var t := SignificantAll(s);
    if t == s {
      forall i | 0 <= i < |s| ensures s[i] == 0.0 || Abs(s[i]) > 0.0000000001 {
        assert t[i] == Significant(s[i]);
      }
    }
  }

  lemma {:induction false} NoCouplings(pairs: seq<Pair>, couplings: seq<real>, z: Vec)
    requires |pairs| == |couplings| && forall k :: 0 <= k < |couplings| ==> couplings[k] == 0.0
    ensures PairEnergy(pairs, couplings, z) == 0.0
  {
    if pairs != [] { NoCouplings(pairs[..|pairs| - 1], couplings[..|pairs| - 1], z); }
  }

  // ---- Sampling ----

  /** Samples with a negative entry are shifted from {-1, 1} to {0, 1}. */
  function NormaliseSamples(samples: seq<seq<int>>): (r: seq<seq<int>>)
    ensures |r| == |samples|
  {
    if exists a, i :: 0 <= a < |samples| && 0 <= i < |samples[a]| && samples[a][i] < 0 then
      seq(|samples|, a requires 0 <= a < |samples| =>
        seq(|samples[a]|, i requires 0 <= i < |samples[a]| => (samples[a][i] + 1) / 2))
    else samples
  }

  /** Eigenvalue samples come out as the complement of x = (1 - z)/2, the substitution the
      Hamiltonian was built with. */
  lemma EigenvalueSamplesReadInverted(samples: seq<seq<int>>, a: nat, i: nat)
    requires forall b :: 0 <= b < |samples| ==> IsSpin(samples[b])
    requires a < |samples| && i < |samples[a]|
    ensures |NormaliseSamples(samples)[a]| == |samples[a]|
    ensures NormaliseSamples(samples)[a][i] == if Decode(samples[a])[i] then 0 else 1
  {
  }

  predicate IsBits(sample: seq<int>) {
    forall i :: 0 <= i < |sample| ==> sample[i] == 0 || sample[i] == 1
  }

  /** Samples of bits, which is what sampling in the computational basis yields, stay as they are. */
  lemma BitSamplesAreKept(samples: seq<seq<int>>)
    requires forall b :: 0 <= b < |samples| ==> IsBits(samples[b])
    ensures NormaliseSamples(samples) == samples
  {
    forall a, i | 0 <= a < |samples| && 0 <= i < |samples[a]| ensures samples[a][i] >= 0 {
      assert IsBits(samples[a]);
    }
  }

  /** The two cases together: nonempty samples of one kind are read as the Hamiltonian encodes them, a bit as
      itself and a spin as (1 - z)/2, exactly when they are bits. */
  lemma SamplesReadRightExactlyWhen(samples: seq<seq<int>>, a: nat, i: nat)
    requires (forall b :: 0 <= b < |samples| ==> IsBits(samples[b])) || (forall b :: 0 <= b < |samples| ==> IsSpin(samples[b]))
    requires a < |samples| && i < |samples[a]|
    requires exists b, j :: 0 <= b < |samples| && 0 <= j < |samples[b]| && samples[b][j] != 1
    ensures var bit := if forall b :: 0 <= b < |samples| ==> IsBits(samples[b]) then samples[a][i]
                       else if samples[a][i] == 1 then 0 else 1;
      |NormaliseSamples(samples)[a]| == |samples[a]| &&
      (NormaliseSamples(samples)[a][i] == bit <==> forall b :: 0 <= b < |samples| ==> IsBits(samples[b]))
  {
    if forall b :: 0 <= b < |samples| ==> IsBits(samples[b]) {
      BitSamplesAreKept(samples);
    } else {
      EigenvalueSamplesReadInverted(samples, a, i);
    }
  }

  /** The first sample of lowest energy. */
  method BestSample(samples: seq<Selection>, rows: seq<seq<real>>) returns (best: Selection, ghost at: nat)
    requires samples != []
    ensures at < |samples| && best == samples[at]
    ensures forall a :: 0 <= a < |samples| ==> Energy(M(rows), best) <= Energy(M(rows), samples[a])
    ensures forall a :: 0 <= a < at ==> Energy(M(rows), best) < Energy(M(rows), samples[a])
  {
    hide Energy;
    best, at := samples[0], 0;
    var bestEnergy: Option<real> := None;
    for a := 0 to |samples|
      invariant bestEnergy.None? ==> a == 0
      invariant at < |samples| && best == samples[at]
      invariant bestEnergy.Some? ==> at < a && bestEnergy.value == Energy(M(rows), best)
      invariant forall b :: 0 <= b < a ==> Energy(M(rows), best) <= Energy(M(rows), samples[b])
      invariant bestEnergy.Some? ==> forall b :: 0 <= b < at ==> Energy(M(rows), best) < Energy(M(rows), samples[b])
    {
      var energy := Energy(M(rows), samples[a]);
      if bestEnergy.None? || energy < bestEnergy.value {
        bestEnergy, best, at := Some(energy), samples[a], a;
      }
    }
  }

  /** The coefficients of a bit vector, as the floats the repair receives. */
  function Floats(x: Selection): (f: seq<real>)
    ensures |f| == |x| && Threshold(f) == x
  {
    seq(|x|, i requires 0 <= i < |x| => Bit(x[i]))
  }

  /** If any sample is a best k-subset, the selected sample is one, and the repair keeps it. */
  lemma GoodSampleSurvives(p: Problem, rows: seq<seq<real>>, samples: seq<Selection>, best: Selection, good: nat, r: Selection)
    requires (Dominated(p) || Enforced(p)) && MatrixOf(p, rows)
    requires good < |samples| && IsBestSubset(p, samples[good]) && |best| == |rows|
    requires forall a :: 0 <= a < |samples| ==> Energy(M(rows), best) <= Energy(M(rows), samples[a])
    requires Repairs(Threshold(Floats(best)), Clamp(p.k, |p.mu|), p.mu, r)
    ensures IsBestSubset(p, best) && r == best
  {
    hide Dominated, Enforced, Energy, Entry, Objective;
    if Dominated(p) { MinimisersAreBestSubsets(p); } else { EnforcedMinimisersAreBestSubsets(p); }
    SameEnergy(p, rows, best);
    SameEnergy(p, rows, samples[good]);
    assert IsMinimiser(p, samples[good]);
    assert IsMinimiser(p, best);
    assert p.WellFormed() by { PenalisedIsWellFormed(p); }
    assert Subset(r, best) && Subset(best, r);
  }

  lemma PenalisedIsWellFormed(p: Problem)
    requires Dominated(p) || Enforced(p)
    ensures p.WellFormed()
  {
  }

  // ---- The dispatcher ----

  /** The size to select: the one requested, where 0 counts as absent, or half the universe but at least 2;
      at most n, at least 1. */
  function Target(requested: Option<int>, n: nat): (k: nat)
    ensures 1 <= k && (n >= 1 ==> k <= n)
  {
    var wanted := if requested.Some? && requested.value != 0 then requested.value
                  else if n / 2 > 2 then n / 2 else 2;
    if wanted < 1 || n < 1 then 1 else if wanted < n then wanted else n
  }

  method ResolveTarget(requested: Option<int>, n: nat) returns (k: int)
    ensures k == Target(requested, n)
  {
    k := if requested.Some? && requested.value != 0 then requested.value
         else if n / 2 > 2 then n / 2 else 2;
    k := if k < n then k else n;
    k := if k > 1 then k else 1;
  }

  /** Every target that can be met is the request itself; the rest is clamped, and no request means half. */
  lemma TargetMeaning(requested: Option<int>, n: nat)
    requires n >= 1
    ensures requested.Some? && requested.value != 0 ==>
      Target(requested, n) == (if requested.value < 1 then 1 else if requested.value > n then n else requested.value)
    ensures requested == None || requested == Some(0) ==>
      Target(requested, n) == (if n >= 4 then n / 2 else if n >= 2 then 2 else 1)
  {
  }

  /** The fallback is never asked for nothing: on every target of the dispatcher it selects exactly that many. */
  lemma GreedyMeetsTarget(requested: Option<int>, n: nat)
    requires n >= 1
    ensures GreedyCount(Target(requested, n), n) == Target(requested, n)
  {
  }

  /** With the default weights the default target is enforced on every documented problem exactly for
      universes of at most five assets. */
  lemma DefaultTargetIsEnforcedUpToFiveAssets(n: nat)
    requires n >= 1
    ensures PenaltyWorksFor(n, Target(None, n), 1.0, 1.0, 5.0) <==> n <= 5
  {
    hide PenaltyWorksFor;
    DefaultWeightsEnforceUpToTwoAssets(n, Target(None, n));
  }

  datatype Portfolio = Portfolio(chosen: Selection, positions: seq<Position>)

  datatype Outcome =
    | TooManyAssets
    | InvalidProblem
    | Ran(qaoa: Option<Portfolio>, vqe: Option<Portfolio>)

  /** Exactly k distinct assets with a k-th of the weight and of the budget each, which sum to the whole. */
  ghost predicate Balanced(f: Portfolio, n: nat, k: nat, budget: real) {
    && |f.chosen| == n && Count(f.chosen) == k && |f.positions| == k
    && EquallyShared(f.positions, budget)
    && (forall a :: 0 <= a < |f.positions| ==> f.positions[a].asset < n && f.chosen[f.positions[a].asset])
    && (forall a, b :: 0 <= a < b < |f.positions| ==> f.positions[a].asset < f.positions[b].asset)
    && TotalWeight(f.positions) == 1.0 && TotalAllocation(f.positions) == budget
  }

  /** The portfolio built from a solver's answer: the answer repaired to k assets, weighted equally. */
  ghost predicate Answers(f: Portfolio, raw: seq<real>, mu: seq<real>, k: nat, budget: real)
    requires |raw| == |mu|
  {
    Repairs(Threshold(raw), k, mu, f.chosen) && Balanced(f, |mu|, k, budget)
  }

  /** Both solvers, each answering with an arbitrary vector or failing; each answer becomes its own portfolio. */
  method RunQuantum(mu: seq<real>, sigma: seq<seq<real>>, requested: Option<int>, maxAssets: nat,
                    lr: real, lk: real, lc: real, budget: real,
                    qaoaRaw: Option<seq<real>>, vqeRaw: Option<seq<real>>)
    returns (k: nat, outcome: Outcome)
    requires qaoaRaw.Some? ==> |qaoaRaw.value| == |mu|
    requires vqeRaw.Some? ==> |vqeRaw.value| == |mu|
    ensures outcome.TooManyAssets? <==> |mu| > maxAssets
    ensures outcome.InvalidProblem? <==> |mu| <= maxAssets && !Problem(mu, sigma, k, lr, lk, lc).WellFormed()
    ensures k == Target(requested, |mu|)
    ensures outcome.Ran? ==>
      && (outcome.qaoa.Some? <==> qaoaRaw.Some?) && (outcome.vqe.Some? <==> vqeRaw.Some?)
      && (outcome.qaoa.Some? ==> Answers(outcome.qaoa.value, qaoaRaw.value, mu, k, budget))
      && (outcome.vqe.Some? ==> Answers(outcome.vqe.value, vqeRaw.value, mu, k, budget))
  {
    k := ResolveTarget(requested, |mu|);
    if |mu| > maxAssets { return k, TooManyAssets; }
    var built := BuildMatrix(Problem(mu, sigma, k, lr, lk, lc));
    if !built.Built? { return k, InvalidProblem; }
    var qaoa, vqe := None, None;
    if qaoaRaw.Some? {
      var chosen, _, positions := AfterSolve(qaoaRaw.value, k, mu, budget);
      qaoa := Some(Portfolio(chosen, positions));
    }
    if vqeRaw.Some? {
      var chosen, _, positions := AfterSolve(vqeRaw.value, k, mu, budget);
      vqe := Some(Portfolio(chosen, positions));
    }
    outcome := Ran(qaoa, vqe);
  }
}
