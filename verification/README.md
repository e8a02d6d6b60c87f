# Verified model of the hybrid portfolio optimiser

This project models the decision logic of a portfolio optimisation service and proves properties of it:
the compilation of asset selection to a quantum-ready matrix, the repair of solver answers, Pareto
post-processing, the feasibility pre-check, risk metrics, the chat session lifecycle, the agent pipeline,
the retrying worker and the progress relay.

Numbers are exact reals. Square roots never appear: volatilities are given by their squares, distances are
compared as squares. Solvers, market data, the language model, the queue, the database and every clock are
arbitrary inputs; each theorem holds for all of them.

| file | what it holds |
|---|---|
| Common, Reals, Sums, Selections, Extremes | options and directions, finite sums, quadratic forms, 0/1 selections, minima and maxima |
| Qubo, Penalty, PenaltyHeuristic, Ising, SelectionChain | objective → matrix → spins → selection, and when the minimum is a best k-subset |
| Cardinality, Dispatcher | repairing an answer to k assets, the sample loop, both solvers behind one dispatcher |
| Dominance, Knee, Frontier | Pareto flags, knee detection, the post-processing of a sweep |
| Variance, Constraints, SectorLimits, Allocation | minimum variance, the feasibility pre-check, what sector limits leave, cleaning the solver's weights |
| Metrics | drawdown, value at risk and expected shortfall, diversification ratio |
| ChatSessions, ChatService, ChatRuns | session row, operations with commit and rollback, theorems over whole runs |
| Pipeline, Worker, Relay | agent graph, retrying task, progress relay |

Code that changes state keeps that form: the matrix and spin loops fill arrays in place, frontier points,
chat sessions, the graph, the worker and the connection are classes. Each such method is proved against a
specification function, and the theorems are about that function.

## Findings

Where the code does something other than its documentation says, the model follows the code. A lemma shows
the difference.

- The penalty is documented as safe from 5·max(|Q|) on. Read on the return and risk entries, before the penalty
  is added to the matrix, a penalty of five times the largest entry enforces k exactly for k ≤ 3, and for four of
  four assets (`PenaltyHeuristic.FiveTimesTheLargestEntry`). In general the factor must exceed k, and k + 1 unless all
  assets are selected (`PenaltyHeuristic.FactorEnforcesExactlyWhen`).
- The penalty defaults to 5.0. For fixed weights a given target k is enforced on every documented input exactly when
  the penalty is positive and at least λ_ret + (2k−1)·λ_risk (`Penalty.TargetIsEnforcedExactlyWhen`). The defaults
  1, 1, 5.0 therefore enforce targets of one or two assets only, and the dispatcher's default target exactly for
  universes of at most five assets (`Dispatcher.DefaultTargetIsEnforcedUpToFiveAssets`).
- The one-pass Pareto sweeps are described as replacing the quadratic definition. They differ from it on ties
  in x, on duplicate points and on slowly drifting values (`Dominance.SweepCanDisagree`). They compute it on exactly
  the staircases (`Dominance.FlagsAreRightExactlyWhen`), which with gaps in x is a check on the y values alone
  (`Dominance.SweepAgreesExactlyWhen`).
- The volatility check ignores that weights cannot be negative. It decides every cap correctly for such portfolios
  exactly when no row of Σ⁻¹ has a negative sum (`Constraints.VolatilityCheckIsCompleteExactlyWhen`); otherwise it
  lets infeasible caps pass (`Constraints.VolatilityCheckIsIncomplete`).
- The sector warning adds up the limits as listed, so a limit on an absent sector hides that nothing fits
  (`SectorLimits.AbsentSectorHidesInfeasibility`). The exact condition is
  `SectorLimits.SectorLimitsLeaveAPortfolioExactlyWhen`.
- The drawdown's wealth path is described as starting at 1, but that starting capital is never a peak
  (`Drawdown.StartingCapitalIsNotAPeak`): a single day that loses half has no drawdown
  (`Drawdown.HalvedOnTheFirstDay`). It would change nothing exactly when some pair of days falls as deep
  (`Drawdown.StartingCapitalIsIdleExactlyWhen`).
- A chat session is marked expired while sending or confirming, but the exception that follows rolls this back;
  only a read stores it (`ChatRuns.OnlyReadsStoreExpiry`). The read answers normally, although its documentation
  announces an error.
- Weight bounds extracted in different turns are only checked together after merging. If they contradict, all
  slots count as missing and the assistant asks for tickers and budget that it has
  (`ChatRuns.ContradictionBlocksConfirmation`).
- A run is queued before its transaction commits. When the commit fails, confirming again queues a second run
  (`ChatRuns.FailedCommitCanDispatchTwice`).
- A session awaits confirmation once its required slots are filled, and keeps awaiting it when a later message takes
  one away (`ChatRuns.PendingCanBecomeIncomplete`). They stay filled exactly as long as no message stored while waiting
  replaces one by a value that does not fill it (`ChatRuns.PendingMeansCompleteExactlyWhen`).
- The graph's documentation promises an exception for a failed pipeline. It returns a report with status failed
  instead, so the worker publishes it as the result and never retries it (`Worker.GraphFailureIsNotRetried`); only
  exceptions around the graph are retried (`Worker.RetriesExactlyWhen`).

Three branches would go wrong only on inputs that the code around them is not known to produce.

- Samples of ±1 would be read inverted (`Dispatcher.EigenvalueSamplesReadInverted`), but the circuit samples in the
  computational basis, and bits are kept as they are (`Dispatcher.BitSamplesAreKept`).
- The greedy fallback promises exactly k assets and selects all of them for k = 0 (`Cardinality.GreedyCountExact`),
  but the dispatcher never asks for 0 (`Dispatcher.GreedyMeetsTarget`).
- The graph recognises an error by its text, so an error with an empty text is not recognised as one
  (`Pipeline.EventsAreFaithfulExactlyWhen`). What follows depends on the node. After the data fetch, constraint
  validation fails for want of market data and is blamed (`Pipeline.SilentFetchBlamesValidation`). After constraint
  validation, the optimisation runs without constraints (`Pipeline.SilentValidationRunsUnconstrained`), and after
  the classical optimisation the run goes on without its result (`Pipeline.SilentOptimisationLeavesNoResult`). These
  two runs are reported as completed unless another node breaks them. A failure that the node handles is announced as
  completed, and an exception that escapes it as failed although the run goes on (`Pipeline.SilentExceptionGoesOn`).
  But the exceptions that the code itself raises behind these nodes carry a text (backend/app/data/fetcher.py:119-208,
  backend/app/classical/constraints.py:149-155, backend/app/classical/optimizer.py:381-409), and the network
  calls catch their own (backend/app/data/fetcher.py:313, 357).

## Model

| member | source | states |
|---|---|---|
| `Qubo.BuildMatrix` | backend/app/quantum/qubo.py:103-156 | The in-place loops reject exactly the malformed shapes and sizes, and otherwise fill every entry of the upper-triangular matrix as documented, with zeros below the diagonal. |
| `Qubo.AddReturnPass` | backend/app/quantum/qubo.py:130-133 | The first pass changes only the diagonal, by −λ_ret·μ̂ᵢ. |
| `Qubo.AddUpperPass` | backend/app/quantum/qubo.py:139-154 | The nested loops change each diagonal and each upper entry exactly once and nothing below. |
| `Qubo.EnergyIsObjectivePlusPenalty` | backend/app/quantum/qubo.py:128-180 | For symmetric Σ and every 0/1 vector, xᵀQx is the return/risk objective plus λ_card·((Σx−k)²−k²). |
| `Qubo.FoldKeepsForm` | backend/app/quantum/qubo.py:139-143 | Folding a symmetric matrix into its upper triangle keeps its quadratic form. |
| `Penalty.NormalisedBounds` | backend/app/quantum/qubo.py:122-126 | Normalised returns and covariances stay within a bound strictly below one. |
| `Penalty.RiskChange` | backend/app/quantum/qubo.py:135-143 | Adding one asset to c others changes the risk term by at most (2c+1)·s. |
| `Penalty.StepTowardsK` | backend/app/quantum/qubo.py:119-156 | From any selection of the wrong size one added or removed asset lowers the energy by at least λ_card minus the largest change of the objective. |
| `Penalty.MinimiserIsBestSubset` | backend/app/quantum/qubo.py:119-156 | With a large enough penalty every minimiser selects exactly k assets and is a best k-subset. |
| `Penalty.MinimisersAreBestSubsets` | backend/app/quantum/qubo.py:119-156 | The minimisers are exactly the best k-subsets. |
| `Penalty.PenaltyCanFail` | backend/app/quantum/qubo.py:82-84 | Below the bound for k there is, for every number of assets, a symmetric positive semi-definite input with a minimiser of the wrong size. |
| `Penalty.CheapRemoval` | backend/app/quantum/qubo.py:119-156 | From any selection some asset can be dropped at a cost of at most λ_ret·a+λ_risk·s, because the covariance is positive semi-definite. |
| `Penalty.StepTowardsTarget` | backend/app/quantum/qubo.py:119-156 | With a penalty large enough for k, one step towards k strictly lowers the energy. |
| `Penalty.EnforcedMinimisersAreBestSubsets` | backend/app/quantum/qubo.py:119-156 | Then the minimisers of a documented problem are exactly its best k-subsets. |
| `Penalty.TargetIsEnforcedExactlyWhen` | backend/app/quantum/qubo.py:82-156 | For a given k and any number of assets the penalty always enforces k if and only if it is positive and at least λ_ret+(2k−1)·λ_risk. |
| `Penalty.PenaltyWorksExactlyWhen` | backend/app/quantum/qubo.py:82-156 | For all targets on n assets at once: if and only if it is positive and at least λ_ret+(2n−1)·λ_risk. |
| `Penalty.DefaultWeightsEnforceUpToTwoAssets` | backend/app/quantum/qubo.py:54-84 | The default weights 1, 1, 5 enforce k if and only if k ≤ 2, and all targets if and only if n ≤ 2. |
| `PenaltyHeuristic.JoinEntries` | backend/app/quantum/qubo.py:128-143 | An asset that joins a selection changes the objective by its diagonal entry and its pair entries with the assets already selected. |
| `PenaltyHeuristic.JoinWithin` | backend/app/quantum/qubo.py:128-143 | So joining c others changes it by at most c+1 times the largest return/risk entry. |
| `PenaltyHeuristic.RuleMinimiser` | backend/app/quantum/qubo.py:82-84 | A penalty above k times that entry, and above k+1 times it unless k = n, leaves only minimisers of k assets, whatever the other weights. |
| `PenaltyHeuristic.FactorTooSmallToKeep` | backend/app/quantum/qubo.py:82-84 | With a factor of at most k, some documented problem chosen by the rule has a minimiser of the wrong size. |
| `PenaltyHeuristic.FactorTooSmallToStop` | backend/app/quantum/qubo.py:82-84 | So it has with a factor of at most k+1 when k < n. |
| `PenaltyHeuristic.FactorEnforcesExactlyWhen` | backend/app/quantum/qubo.py:82-84 | A penalty chosen as a factor times the largest return/risk entry enforces k of n assets on every documented problem if and only if the factor exceeds k and, when k < n, k+1. |
| `PenaltyHeuristic.FiveTimesTheLargestEntry` | backend/app/quantum/qubo.py:82-84 | The documented factor of five does if and only if k ≤ 3, or k = n = 4. |
| `PenaltyHeuristic.FactorForEveryTarget` | backend/app/quantum/qubo.py:82-84 | A factor enforces every target on n assets if and only if it exceeds n. |
| `Ising.QuboToIsing` | backend/app/quantum/vqe_solver.py:358-383 | The row scan returns the fields, the kept pairs in scan order, and couplings whose energy is a quarter of the kept part of the form. |
| `Ising.PairsExactlyWhen` | backend/app/quantum/vqe_solver.py:366-371 | A pair is kept if and only if it lies above the diagonal and its entry is at least 1e-12 in size. |
| `Ising.PairsInScanOrder` | backend/app/quantum/vqe_solver.py:363-381 | The kept pairs come row by row, each once. |
| `Ising.IsingIdentity` | backend/app/quantum/vqe_solver.py:363-381 | Under x=(1−z)/2 the form of an upper-triangular matrix is a constant plus the spin energy plus the dropped part. |
| `Ising.DroppedBound` | backend/app/quantum/vqe_solver.py:368-371 | Skipped pairs contribute at most n(n−1)/2·1e-12. |
| `Ising.IsingMatchesQubo` | backend/app/quantum/vqe_solver.py:323-383 | Spin energy plus a fixed constant equals the matrix energy of the decoded vector within n(n−1)/2·1e-12, exactly when nothing is skipped. |
| `Ising.GroundStateDecodes` | backend/app/quantum/vqe_solver.py:323-383 | A spin ground state decodes to within n(n−1)·1e-12 of the matrix minimum. |
| `SelectionChain.PenaltyKeepsEveryPair` | backend/app/quantum/vqe_solver.py:368-371 | Under the penalty condition no pair is ever skipped. |
| `SelectionChain.GroundStatesAreMinimisers` | backend/app/quantum/vqe_solver.py:323-383 | When no pair is skipped, spins are a ground state if and only if they decode to an energy minimiser. |
| `SelectionChain.GroundStatesAreBestSubsets` | backend/app/quantum/vqe_solver.py:323-383 | End to end: spins are a ground state if and only if they decode to a best k-subset. |
| `SelectionChain.EnforcedGroundStatesAreBestSubsets` | backend/app/quantum/vqe_solver.py:323-383 | The same for a documented problem whose penalty is large enough for its own target. |
| `Dispatcher.CostGroundStateIsNearlyGround` | backend/app/quantum/vqe_solver.py:161-180 | Dropping coefficients up to 1e-10 costs at most 2e-10 per coefficient in energy. |
| `Dispatcher.CostHamiltonianIsExactExactlyWhen` | backend/app/quantum/vqe_solver.py:161-180 | The Hamiltonian that is built is the Ising model if and only if every nonzero coefficient exceeds 1e-10 in size; if none does, nothing is left. |
| `Dispatcher.EigenvalueSamplesReadInverted` | backend/app/quantum/vqe_solver.py:235-237 | Samples of ±1 come out as the complement of the bits the Hamiltonian encodes. |
| `Dispatcher.BitSamplesAreKept` | backend/app/quantum/vqe_solver.py:230-237 | Samples of bits stay as they are. |
| `Dispatcher.SamplesReadRightExactlyWhen` | backend/app/quantum/vqe_solver.py:230-237 | Samples all of one kind are read as the Hamiltonian encodes them if and only if they are bits. |
| `Dispatcher.BestSample` | backend/app/quantum/vqe_solver.py:239-249 | The loop returns the first sample of least energy. |
| `Dispatcher.GoodSampleSurvives` | backend/app/quantum/vqe_solver.py:239-262 | If any sample is a best k-subset the chosen one is too, and the repair does not touch it. |
| `Dispatcher.ResolveTarget` | backend/app/quantum/dispatcher.py:114-118 | The reassignments compute `Target`. |
| `Dispatcher.TargetMeaning` | backend/app/quantum/dispatcher.py:114-118 | A request is clamped to [1, n] and otherwise kept; a missing or zero one becomes half of the universe, two assets below four, one asset of one. |
| `Dispatcher.GreedyMeetsTarget` | backend/app/quantum/dispatcher.py:114-118 | On every target of the dispatcher the greedy fallback selects exactly that many. |
| `Dispatcher.DefaultTargetIsEnforcedUpToFiveAssets` | backend/app/quantum/dispatcher.py:114-123 | With default weights the default target is enforced if and only if n ≤ 5. |
| `Dispatcher.RunQuantum` | backend/app/quantum/dispatcher.py:104-234 | Each solver that answers gets its own portfolio, whatever the answers: its own vector repaired to k distinct assets, each with a k-th of the weight and of the budget; a failed solver gets none; too many assets or a bad shape are rejected. |
| `Cardinality.Argsort` | backend/app/quantum/qaoa_solver.py:279-279 | The returned indices are a permutation that lists the values in ascending order. |
| `Cardinality.EnforceCardinality` | backend/app/quantum/qaoa_solver.py:284-330 | The result has exactly k ones (k clamped to [0, n]), only removes or only adds, drops the worst and adds the best. |
| `Cardinality.ThresholdExchange` | backend/app/quantum/qaoa_solver.py:313-328 | Exchange argument: a selection whose own assets earn at least c and whose missing ones at most c beats every selection of its size. |
| `Cardinality.RepairIsOptimal` | backend/app/quantum/qaoa_solver.py:284-330 | No other k-subset or k-superset of the thresholded input earns more. |
| `Cardinality.RepairIsIdempotent` | backend/app/quantum/qaoa_solver.py:310-311 | Repairing a repaired selection changes nothing. |
| `Cardinality.RepairsExactlyWhen` | backend/app/quantum/qaoa_solver.py:305-330 | What a repair may return is exactly c assets of which none stands behind an asset left out, where values above one half come first and higher returns next. |
| `Cardinality.GreedySelection` | backend/app/quantum/qaoa_solver.py:259-281 | The fallback writes ones exactly at the highest returns that the slice keeps. |
| `Cardinality.GreedyIsOptimal` | backend/app/quantum/qaoa_solver.py:259-281 | For 1 ≤ k ≤ n it selects k assets and no k-subset earns more. |
| `Cardinality.GreedyCountExact` | backend/app/quantum/qaoa_solver.py:276-280 | It selects the clamped k if and only if k ≥ 1, the universe is empty or k ≤ −n. |
| `Cardinality.EqualWeights` | backend/app/quantum/qaoa_solver.py:205-226 | Weights are equal on the selection and zero elsewhere; the positions are distinct, and each of m carries 1/m of the weight and of the budget. |
| `Cardinality.AfterSolve` | backend/app/quantum/qaoa_solver.py:197-226 | Any raw answer becomes a portfolio of exactly k assets, its own repair, that splits the whole budget equally. |
| `Dominance.MirrorUndominated` | backend/app/classical/frontier.py:268-278 | The right-to-left sweep is the left-to-right one on the negated, reversed points. |
| `Dominance.SweepChain` | backend/app/classical/frontier.py:256-278 | On any list kept values rise by more than the tolerance, and every dropped point has an earlier kept one as good within it. |
| `Dominance.DisagreementsExplained` | backend/app/classical/frontier.py:232-302 | On sorted points sweep and definition differ only where two points nearly tie in x or three y values drift within the tolerance. |
| `Dominance.SweepIsRightExactlyWhen` | backend/app/classical/frontier.py:256-302 | On any list the sweep computes the definition if and only if the undominated points form a staircase that matches all others. |
| `Dominance.FlagsAreRightExactlyWhen` | backend/app/classical/frontier.py:256-302 | The same for both sweeps, the second on the mirrored points. |
| `Dominance.SweepAgreesExactlyWhen` | backend/app/classical/frontier.py:256-302 | With x gaps above the tolerance each sweep computes the definition if and only if every point that does not lead on y is matched by an earlier one that does. |
| `Dominance.SweepsMatchDefinition` | backend/app/classical/frontier.py:256-302 | With gaps in x and values equal or separated, all flags equal the all-pairs definition. |
| `Dominance.SweepCanDisagree` | backend/app/classical/frontier.py:243-266 | Concrete lists on which sweep and definition differ. |
| `Dominance.DominatorScoresLower` | backend/app/classical/frontier.py:281-301 | Dominance strictly lowers the sign-adjusted x+y, so it has no cycles. |
| `Dominance.DominatesExactlyWhen` | backend/app/classical/frontier.py:281-300 | In every pair of directions a point dominates another if and only if it loses at most 1e-9 on either axis and gains more than that on one; so it does, and only one way, when it gains more on both. |
| `Dominance.DominanceIsNotTransitive` | backend/app/classical/frontier.py:281-301 | Three points show that the tolerances break transitivity. |
| `Dominance.ReachesUndominated` | backend/app/classical/frontier.py:280-302 | From every point a chain of dominators leads to an undominated one. |
| `Dominance.SomePointIsFlagged` | backend/app/classical/frontier.py:232-302 | A nonempty list always has a flagged point, in every pair of directions. |
| `Frontier.FlagDominance` | backend/app/classical/frontier.py:232-302 | The in-place flags are those of the sweep or the definition that the directions select; knee marks stay. |
| `Frontier.SweepForward` | backend/app/classical/frontier.py:256-266 | The forward loop flags exactly the points the running best lets through. |
| `Frontier.SweepBackward` | backend/app/classical/frontier.py:268-278 | The backward loop flags exactly the mirrored ones. |
| `Frontier.CompareAll` | backend/app/classical/frontier.py:280-302 | The double loop with early exit flags exactly the undominated points. |
| `Frontier.SortByX` | backend/app/classical/frontier.py:489-490 | The result is a permutation of the points, ascending in x, with points of equal x in their old order. |
| `Frontier.MarkKnee` | backend/app/classical/frontier.py:495-503 | At most one point is marked: the knee of the flagged subset, mapped back. |
| `Frontier.KneeIsFlagged` | backend/app/classical/frontier.py:495-503 | The marked point is flagged and lies strictly between two flagged points. |
| `Frontier.PostProcess` | backend/app/classical/frontier.py:489-542 | The report permutes the solved points, flags at least one, counts both kinds to the total, and names the first best Sharpe and least risk. |
| `Frontier.MinRiskIsFirst` | backend/app/classical/frontier.py:507-510 | When x is minimised the least-risk index is always 0. |
| `Knee.FindKnee` | backend/app/classical/frontier.py:187-226 | The array computation returns exactly the knee that `IsKnee` describes. |
| `Knee.KneeIsUnique` | backend/app/classical/frontier.py:187-226 | That description determines the answer. |
| `Knee.KneeIsInterior` | backend/app/classical/frontier.py:222-226 | A knee is never an endpoint. |
| `Knee.KneeExactlyWhen` | backend/app/classical/frontier.py:199-226 | A knee is found if and only if on the normalised axes the ends are at least 1e-12 apart and some point between them is farther than 1e-6 from every point of the line through them. |
| `Knee.KneeIsFarthest` | backend/app/classical/frontier.py:216-226 | No point between the ends is farther from that line than the knee. |
| `Knee.CornerIsKneeExactlyWhen` | backend/app/classical/frontier.py:202-226 | A right-angled corner is a knee if and only if both axes span more than 1e-12. |
| `Knee.NumeratorMeasuresDistance` | backend/app/classical/frontier.py:217-220 | The cross product over the chord length is the distance to the closest point of the chord's line. |
| `Knee.KneeIgnoresUnits` | backend/app/classical/frontier.py:201-226 | Any rescaling or reflection of either axis keeps the knee. |
| `Variance.MinimumVariance` | backend/app/classical/constraints.py:74-82 | For symmetric PSD Σ with inverse, every weight vector of sum one has variance at least 1/(1ᵀΣ⁻¹1). |
| `Variance.MinimumVarianceAttained` | backend/app/classical/constraints.py:79-79 | The bound is attained. |
| `Constraints.ValidateConstraints` | backend/app/classical/constraints.py:39-155 | The branches and the row loop collect exactly the listed violations and warnings, in order; any violation rejects. Without assets it fails if and only if a limit needs one. |
| `Constraints.CheckScalars` | backend/app/classical/constraints.py:49-94 | The scalar branches append exactly their violations and warnings. |
| `Constraints.CheckRows` | backend/app/classical/constraints.py:113-146 | The objective rows append exactly theirs, after what was there. |
| `Constraints.ViolationsExactlyWhen` | backend/app/classical/constraints.py:49-146 | Each of the six violations is reported if and only if its own limit is broken, whatever else the request asks for: a cap below 1/n, a return no asset reaches, a cap below the minimum volatility, no positive weight, and each enabled row's own threshold. |
| `Constraints.ViolationsInOrder` | backend/app/classical/constraints.py:49-146 | Violations come in the order of the checks, and only rows repeat. |
| `Constraints.RowsInOrder` | backend/app/classical/constraints.py:126-146 | The rows reported are exactly the enabled ones that violate, each once and in their order in the request. |
| `Constraints.WarningsExactlyWhen` | backend/app/classical/constraints.py:59-128 | Each warning is given if and only if its own condition holds: a floor above nine tenths of every return but within reach, a cap up to a tenth above the minimum volatility, limits summing below 0.99, weights more than 0.01 off one. |
| `Constraints.WarningsInOrder` | backend/app/classical/constraints.py:59-128 | Warnings come in the order of the checks, each at most once. |
| `Constraints.VolatilityWithoutMinimum` | backend/app/classical/constraints.py:74-88 | Without an inverse only a negative volatility cap is rejected; with one whose entries sum to zero every cap is. |
| `Constraints.CapVerdictIsExact` | backend/app/classical/constraints.py:50-56 | A weight cap alone is rejected if and only if no portfolio meets it. |
| `Constraints.FloorVerdictIsExact` | backend/app/classical/constraints.py:59-64 | A return floor alone is rejected if and only if no portfolio meets it. |
| `Constraints.ThresholdVerdictIsExact` | backend/app/classical/constraints.py:130-146 | So is a return or concentration threshold as the one objective. |
| `Constraints.WeightCapExact` | backend/app/classical/constraints.py:50-56 | A weight cap is met by some portfolio if and only if it is at least 1/n. |
| `Constraints.ReturnFloorExact` | backend/app/classical/constraints.py:59-64 | A return floor is met by some portfolio if and only if it is at most the largest return. |
| `Constraints.HhiCapExact` | backend/app/classical/constraints.py:140-146 | A concentration cap is met by some portfolio if and only if it is at least 1/n. |
| `Constraints.VolatilityRejectionIsSound` | backend/app/classical/constraints.py:74-88 | When the volatility check rejects, every fully invested portfolio breaks the optimiser's variance constraint. |
| `Constraints.VolatilityVerdictIsExact` | backend/app/classical/constraints.py:74-88 | With an inverse a volatility cap is rejected if and only if no fully invested portfolio meets it, short positions allowed; the same holds without them when no row of the inverse has a negative sum. |
| `Variance.MinimumIsUnique` | backend/app/classical/constraints.py:79-79 | A fully invested portfolio of minimum variance is Σ⁻¹1 rescaled. |
| `Constraints.TightCapExactlyWhen` | backend/app/classical/constraints.py:74-88 | A cap equal to the minimum volatility passes, and a portfolio without short positions meets it if and only if no row of the inverse has a negative sum. |
| `Constraints.VolatilityCheckIsCompleteExactlyWhen` | backend/app/classical/constraints.py:74-88 | The check decides every cap correctly for portfolios without short positions if and only if no row of the inverse has a negative sum. |
| `Constraints.AdmittedWeightsPass` | backend/app/schemas/requests.py:315-357 | No request that the schema admits is rejected for its objective weights. |
| `Constraints.RejectionsAreSound` | backend/app/classical/constraints.py:49-155 | Whatever an admitted request is rejected for, no portfolio meets the constraint set the optimiser builds. |
| `Constraints.RejectionMeansInfeasible` | backend/app/classical/constraints.py:49-155 | The same violation by violation, also for requests not admitted, except for the weight check. |
| `Constraints.NoPositiveWeightIsNotInfeasibility` | backend/app/classical/constraints.py:116-121 | The weight check is a second guard behind the schema: a request it rejects, not admitted, has a feasible portfolio. |
| `Constraints.VolatilityCheckIsIncomplete` | backend/app/classical/constraints.py:74-88 | For a symmetric positive semi-definite covariance and its exact inverse, a cap that passes although no long-only portfolio meets it. |
| `Constraints.CoveredAtMostLimits` | backend/app/classical/optimizer.py:331-340 | Weights in limited sectors sum to at most the sum of the limits. |
| `Constraints.SectorLimitsCanBeInfeasible` | backend/app/classical/constraints.py:96-106 | Limits summing below one over a fully covered universe leave no portfolio. |
| `Constraints.SectorWarningImpliesInfeasible` | backend/app/classical/constraints.py:96-106 | So the warning means infeasible whenever every asset lies in a limited sector. |
| `SectorLimits.SectorLimitsLeaveAPortfolioExactlyWhen` | backend/app/classical/optimizer.py:331-340 | Sector limits alone leave a portfolio if and only if some asset is free of them or the smallest limits of the sectors present sum to at least one. |
| `SectorLimits.AbsentSectorHidesInfeasibility` | backend/app/classical/constraints.py:96-106 | Limits for which the warning is silent and no portfolio exists. |
| `Allocation.CleanedOnSimplex` | backend/app/classical/optimizer.py:411-412 | Any answer with a positive part becomes nonnegative weights of sum one. |
| `Allocation.PortfolioIsKept` | backend/app/classical/optimizer.py:411-412 | A feasible answer is unchanged. |
| `Allocation.CapMetExactlyWhen` | backend/app/classical/optimizer.py:411-412 | A cleaned weight meets a cap if and only if the clipped weight meets the cap times the clipped total. |
| `Allocation.CapSurvives` | backend/app/classical/optimizer.py:411-412 | A met weight cap survives when the answer sums to at least one. |
| `Allocation.CapBreaksExactlyWhen` | backend/app/classical/optimizer.py:411-412 | A weight at its positive cap ends above it if and only if the clipped weights sum to less than one. |
| `Allocation.CapCanBreak` | backend/app/classical/optimizer.py:411-412 | An instance of that. |
| `Allocation.MovesTwiceTheClippedMass` | backend/app/classical/optimizer.py:411-412 | Cleaning an answer of sum one moves exactly twice the clipped mass in total. |
| `Drawdown.RunningMaxMeaning` | backend/app/data/metrics.py:242-243 | Each running maximum is an earlier value and bounds all earlier ones. |
| `Drawdown.DrawdownIsWorstPair` | backend/app/data/metrics.py:238-248 | The one-pass value is the worst fall over all pairs of an earlier and a later day. |
| `Drawdown.DrawdownRange` | backend/app/data/metrics.py:222-248 | It lies in (−1, 0] and is 0 if and only if wealth never falls. |
| `Drawdown.StartingCapitalIsNotAPeak` | backend/app/data/metrics.py:238-248 | Counting the starting capital would give the deeper of the drawdown and the fall of the lowest day below it. |
| `Drawdown.StartingCapitalIsIdleExactlyWhen` | backend/app/data/metrics.py:238-248 | It changes nothing if and only if some pair of days falls as deep; in particular if the first day gains. |
| `Drawdown.HalvedOnTheFirstDay` | backend/app/data/metrics.py:238-248 | A path of one day at half the capital has drawdown 0, and −1/2 when the capital counts. |
| `ValueAtRisk.SortSorts` | backend/app/data/metrics.py:270-270 | The order statistics are the data in ascending order. |
| `ValueAtRisk.PercentileMonotone` | backend/app/data/metrics.py:270-270 | Interpolated percentiles never fall as the quantile grows. |
| `ValueAtRisk.VaRFallsWithConfidence` | backend/app/data/metrics.py:251-270 | More confidence never raises the value at risk. |
| `ValueAtRisk.VaRIsAnOrderStatistic` | backend/app/data/metrics.py:270-270 | At confidence 1−k/(n−1) more than k returns lie at or below the value at risk, and at most k at or below anything less. |
| `ValueAtRisk.VaRBlends` | backend/app/data/metrics.py:270-270 | Between two such confidences it is the linear blend of the two values. |
| `ValueAtRisk.ShortHistory` | backend/app/data/metrics.py:267-298 | Value at risk and expected shortfall of one return are that return, of none zero. |
| `ValueAtRisk.TailNonempty` | backend/app/data/metrics.py:292-296 | The shortfall tail of nonempty data is never empty. |
| `ValueAtRisk.CVaRAtMostVaR` | backend/app/data/metrics.py:273-298 | The expected shortfall is at most the value at risk. |
| `ValueAtRisk.CVaRBalancesTail` | backend/app/data/metrics.py:292-298 | The deviations of the returns at or below the value at risk from the expected shortfall cancel. |
| `ValueAtRisk.CVaRIsVaRExactlyWhen` | backend/app/data/metrics.py:292-298 | It equals the value at risk if and only if no return lies below that. |
| `ValueAtRisk.CVaRFallsWithConfidence` | backend/app/data/metrics.py:273-298 | More confidence never raises the expected shortfall. |
| `Diversification.CovarianceBound` | backend/app/data/metrics.py:151-153 | In a PSD matrix a covariance is at most the product of the two volatilities. |
| `Diversification.VarianceAtMostSquare` | backend/app/data/metrics.py:138-153 | For nonnegative weights the portfolio variance is at most the squared average volatility. |
| `Diversification.RatioAtLeastOne` | backend/app/data/metrics.py:130-156 | For any input weights the diversification ratio is at least one whenever it is defined. |
| `Diversification.RatioIsOneExactlyWhen` | backend/app/data/metrics.py:148-156 | It is defined if and only if the portfolio volatility exceeds 1e-10, is then the average volatility over that, and is one if and only if all assets held are perfectly correlated. |
| `Diversification.CleanedIsPortfolio` | backend/app/data/metrics.py:131-135 | The weights it is taken over sum to one whenever some weight is positive, and a portfolio is left as it is. |
| `ChatSessions.ChatSession.AppendMessage` | backend/app/db/models.py:490-508 | Appends one message and changes no other column. |
| `ChatSessions.ChatSession.MarkPendingConfirmation` | backend/app/db/models.py:510-519 | Changes status and slots only. |
| `ChatSessions.ChatSession.MarkConfirmed` | backend/app/db/models.py:521-529 | Changes status and run only. |
| `ChatSessions.ChatSession.MarkExpired` | backend/app/db/models.py:531-538 | Changes the status only. |
| `ChatService.Service.ProcessMessage` | backend/app/chat/service.py:509-630 | The step-by-step changes, including what a failing call leaves behind, are those of `Processed`. |
| `ChatService.Service.AssertAcceptingMessages` | backend/app/chat/service.py:472-507 | Marks a lapsed session and reports its terminal status. |
| `ChatService.Service.SendMessage` | backend/app/chat/service.py:261-306 | Guard, then message, as in `SendOutcome`. |
| `ChatService.Service.BuildRequest` | backend/app/chat/service.py:759-885 | Slots, overrides and defaults merge in that order after the limits are checked. |
| `ChatService.Service.ConfirmSession` | backend/app/chat/service.py:308-421 | Guards, dispatch and status follow `ConfirmOutcome`; only a dispatch reaches the queue. |
| `ChatService.Service.GetSession` | backend/app/chat/service.py:423-448 | Expires lazily and raises nothing. |
| `ChatService.Service.CreateSession` | backend/app/chat/service.py:201-259 | A failing first message leaves no session. |
| `ChatService.Service.Serve` | backend/app/core/dependencies.py:131-139 | A request commits its whole row or leaves the stored row as it was; the queue keeps what was sent either way. |
| `ChatRuns.ProcessedTurn` | backend/app/chat/service.py:543-630 | A processed message adds the user's words and exactly the answer the merged slots call for (`AnswerTo`), within the limit; it loses no slot key and goes pending only with both required slots. |
| `ChatRuns.TurnIsStored` | backend/app/chat/service.py:584-623 | A committed message stores the user's words and then the summary if the known slots are usable and complete, else the model's question if it asked one, else a question for exactly what is missing. |
| `ChatRuns.CreatedIsSound` | backend/app/chat/service.py:201-259 | A created session is sound and not terminal. |
| `ChatRuns.StepKeepsSound` | backend/app/chat/service.py:341-448 | Every request keeps a sound row sound. |
| `ChatRuns.EveryRowIsSound` | backend/app/chat/service.py:201-448 | In every run of a created session: a run id exists exactly when confirmed, turns alternate and end with the assistant, the message limit holds, keys are known fields, and pending rows hold both required slots. |
| `ChatRuns.ConfirmAlwaysHasSlots` | backend/app/chat/service.py:847-853 | The error for missing slots cannot occur on a sound row. |
| `ChatRuns.RunsMoveForward` | backend/app/db/models.py:481-538 | Between any two moments of a run status climbs, history only grows, no slot key is lost, and a terminal row never changes. |
| `ChatRuns.RunsEndSound` | backend/app/chat/service.py:201-448 | The row a run ends with is sound and comes after every row the session stored. |
| `ChatRuns.DispatchesAreConserved` | backend/app/chat/service.py:366-390 | Tasks queued = runs committed + deliveries whose request did not commit. |
| `ChatRuns.AtMostOneDispatch` | backend/app/chat/service.py:366-390 | Without such orphans a session dispatches at most once, and its run id is that of the task queued. |
| `ChatRuns.FailedCommitCanDispatchTwice` | backend/app/chat/service.py:905-936 | With one, confirming again queues a second task. |
| `ChatRuns.QueuedRequestsAreValid` | backend/app/chat/service.py:824-936 | Every queued request passed validation and holds every slot collected. |
| `ChatRuns.QueuedIsValid` | backend/app/chat/service.py:796-885 | Overrides win over stored slots, and stored slots over the defaults of 365 days and the quantum stage; the request holds these keys and no others; one with unknown or too many overrides is never sent. |
| `ChatRuns.ExtractionWins` | backend/app/chat/service.py:584-612 | A committed message stores extracted values over known ones and awaits confirmation if and only if it already did, or both required slots are there and no weight bounds contradict. |
| `ChatRuns.ContradictionBlocksConfirmation` | backend/app/chat/service.py:590-597 | With both required slots there, weight bounds from two turns let the session go pending if and only if the lower is below the upper; otherwise it is asked for its tickers and budget again. |
| `ChatRuns.FirstMessageSufficesExactlyWhen` | backend/app/chat/schemas.py:186-198 | A first message with tickers and a budget goes pending if and only if there are at least two tickers and the budget is positive. |
| `ChatRuns.CreatedExactlyWhen` | backend/app/chat/service.py:201-259 | A session is created if and only if the transaction commits and its first message, if any, is processed; its history is the welcome or that turn. |
| `ChatRuns.SendErrors` | backend/app/chat/service.py:472-582 | Which error a message raises, and that it raises none, each with its exact condition. |
| `ChatRuns.ConfirmedExactlyWhen` | backend/app/chat/service.py:341-421 | A confirmation reaches the queue if and only if the session is pending in time, the request can be built and the dispatch delivers; it confirms the session if and only if the dispatch also returns and the commit succeeds. |
| `ChatRuns.ConfirmErrors` | backend/app/chat/service.py:341-421 | Which error a confirmation raises, each with its exact condition. |
| `ChatRuns.LateRequest` | backend/app/chat/service.py:350-354 | At or after expiry a request sends nothing; only a committed read changes the row, to expired. |
| `ChatRuns.NothingAfterExpiry` | backend/app/chat/service.py:488-493 | From the first request at or after expiry on, nothing is stored but the status and nothing is dispatched; the session ends expired if and only if a read commits. |
| `ChatRuns.OnlyReadsStoreExpiry` | backend/app/core/dependencies.py:131-139 | A stored row turns expired exactly through a committed read at or after its expiry. |
| `ChatRuns.HistoryCountsTurns` | backend/app/chat/service.py:543-623 | History grows by exactly two messages per committed message request. |
| `ChatRuns.FullConversationIsStuck` | backend/app/chat/service.py:543-563 | A full conversation that is still collecting can only expire: it never dispatches. |
| `ChatRuns.PendingCanBecomeIncomplete` | backend/app/chat/service.py:584-623 | A pending session can lose completeness without going back. |
| `ChatRuns.MessageFillsExactlyWhen` | backend/app/chat/service.py:584-597 | After a stored message a required slot is filled if and only if the message extracts a filled value, or extracts none and it was filled; a pending session stays pending either way. |
| `ChatRuns.StepStaysCompleteExactlyWhen` | backend/app/chat/service.py:584-623 | One request keeps a pending or confirmed session complete if and only if it does not store, while pending, a value that leaves a required slot unfilled. |
| `ChatRuns.PendingMeansCompleteExactlyWhen` | backend/app/chat/schemas.py:186-198 | From creation through every run, all pending and confirmed rows have both required slots filled if and only if no message stored while pending replaces one by a value that does not fill it. |
| `Pipeline.Graph.RunNode` | backend/app/agents/nodes.py:57-608 | Fatal nodes record their error, the others complete without their result and, where optional, with a warning; all that handle their outcome record their time. |
| `Pipeline.Graph.RunWrapped` | backend/app/agents/graph.py:96-158 | Skips after an earlier failure, otherwise publishes a start and one outcome. |
| `Pipeline.Graph.Invoke` | backend/app/agents/graph.py:187-241 | The routing loop terminates with the visits, state and events of `Execute`. |
| `Pipeline.RunsAreOrdered` | backend/app/agents/graph.py:187-241 | A run visits at most seven nodes, each once, in pipeline order, and ends after the explanation or at a fatal node with an error. |
| `Pipeline.OptionalNodesAreGuarded` | backend/app/agents/graph.py:251-327 | Quantum is visited if and only if requested and within the limit on the fetched tickers, once comparison is reached; the frontier if and only if enabled after a classical result. |
| `Pipeline.RunFollowsBodies` | backend/app/agents/graph.py:187-327 | The whole way of every run in terms of what its nodes do (`Path`): quantum is visited on the number of tickers fetched, the frontier after an enabling constraint check and a successful optimisation. At the end the ticker count is the fetched one, and the classical and the quantum result are there if and only if their node was visited and succeeded. |
| `Pipeline.HaltedRunsSkip` | backend/app/agents/graph.py:97-106 | After a failure the rest of the run changes nothing and publishes nothing. |
| `Pipeline.StartedExactlyWhen` | backend/app/agents/graph.py:97-114 | With market data at hand a visited node runs if and only if no earlier one broke the run with a nonempty text. |
| `Pipeline.CompletedExactlyWhen` | backend/app/agents/nodes.py:46-51 | It is completed if and only if it ran and succeeded, or ran, is not fatal and handled its failure. |
| `Pipeline.FirstBreakIsBlamed` | backend/app/agents/graph.py:96-158 | A run that halts blames the first node that broke it with a nonempty text and records that text. |
| `Pipeline.EventsArePaired` | backend/app/agents/graph.py:108-146 | Every node that runs publishes its start and then exactly one outcome. |
| `Pipeline.EventsAreFaithfulExactlyWhen` | backend/app/agents/graph.py:96-158 | Completed list, final failure and the absence of work after a failure match the events if and only if no node that runs fails for good with an empty message. |
| `Pipeline.FailureIsGenuine` | backend/app/agents/graph.py:108-158 | Then a run fails if and only if a node that ran broke it, that node publishes last, and the recorded error is its own. |
| `Pipeline.CompletedWithoutDuplicates` | backend/app/agents/nodes.py:46-51 | The completed list of every run names no node twice. |
| `Pipeline.HaltsExactlyWhen` | backend/app/agents/graph.py:96-158 | With market data at hand, a run halts if and only if some node it visits breaks it with a nonempty text. |
| `Pipeline.FailsExactlyWhen` | backend/app/agents/graph.py:545-555 | Any run is reported as failed if and only if some node it visits breaks it with a nonempty text, or the data fetch breaks it with an empty one. |
| `Pipeline.SilentFetchBlamesValidation` | backend/app/agents/nodes.py:85-107 | When the data fetch breaks with an empty text, the run ends at constraint validation, which is blamed; the fetch is announced as completed if it handled its failure and as failed if an exception escaped it. |
| `Pipeline.SilentValidationRunsUnconstrained` | backend/app/agents/nodes.py:168-190 | When constraint validation records an empty error, it is announced as completed, the optimisation runs without its constraints and the frontier never; the report says completed unless another node breaks the run. |
| `Pipeline.SilentOptimisationLeavesNoResult` | backend/app/agents/nodes.py:255-280 | When the optimisation records an empty error, it is announced as completed and the comparison runs without a classical result; the report says completed unless another node breaks the run. |
| `Pipeline.SilentExceptionGoesOn` | backend/app/agents/graph.py:133-158 | An exception with an empty text that escapes a node is announced as failed, and the run goes on to the next node. |
| `Pipeline.NotesOfRun` | backend/app/agents/nodes.py:39-608 | Every run, failed or not, warns of what the constraint check said and of each optional node that failed, in that order, and records for exactly the nodes that ran and were not left by an exception the time they took. |
| `Pipeline.FailedExactlyWhenHalted` | backend/app/agents/graph.py:545-555 | The report says failed if and only if the run halted, and then names the failed node. |
| `Worker.OptimizationTask.ExecuteOptimization` | backend/app/workers/tasks.py:310-369 | Runs the graph, publishes its events after the first announcement, and publishes whatever report it returns as the result. |
| `Worker.OptimizationTask.RunAttempt` | backend/app/workers/tasks.py:219-283 | One attempt publishes its progress and its closing messages and says whether it runs again. |
| `Worker.OptimizationTask.Run` | backend/app/workers/tasks.py:177-283 | The retry loop publishes `Channel`, waits `Backoff` and stops. |
| `Worker.RetriesExactlyWhen` | backend/app/workers/tasks.py:219-270 | An attempt is retried if and only if an exception leaves the code around the graph, retries are left and one is queued: nothing a node does is retried. |
| `Worker.RetryCountExactly` | backend/app/workers/tasks.py:219-270 | At least r retries are made if and only if each of the first r attempts ends so. |
| `Worker.GraphFailureIsNotRetried` | backend/app/workers/tasks.py:348-369 | A graph that returns ends the job: no retry, no waiting, and one result that says failed if and only if the run halted. |
| `Worker.RetriesAreBounded` | backend/app/workers/tasks.py:252-267 | The waiting time is exactly 30·(2^r − 1) seconds after r retries. |
| `Worker.AtMostFourAttempts` | backend/app/workers/tasks.py:181-267 | At most four attempts and 210 seconds of backoff. |
| `Worker.ExactlyOneTerminal` | backend/app/workers/tasks.py:219-283 | A run publishes exactly one terminal message if and only if its last attempt neither loses its retry nor times out after publishing its result. |
| `Worker.TerminalComesLast` | backend/app/workers/tasks.py:219-283 | That message is the last on the channel. |
| `Worker.ChannelEndsWith` | backend/app/workers/tasks.py:219-283 | The last message of a job: the status of a graph that returned, QUANTUM_TIMEOUT after a time limit, AGENT_EXECUTION_ERROR after an exception with no retry left, or the announcement of a retry that could not be queued. |
| `Worker.CountdownsOfRun` | backend/app/workers/tasks.py:244-267 | The countdowns announced are 30, 60 and 120 in this order, one for each retry and one for a retry that could not be queued. |
| `Worker.InterruptedAttemptsStopShort` | backend/app/workers/tasks.py:343-362 | An interrupted attempt announces the beginning of what it would have announced, exactly as far as it got. |
| `Worker.FirstNodeStartsTwice` | backend/app/workers/tasks.py:343-362 | Worker and graph both announce the first node. |
| `Relay.Connection.HandlePoll` | backend/app/api/websocket.py:225-277 | One turn of the loop: a ping if due, then what the poll yields. |
| `Relay.Connection.Relay` | backend/app/api/websocket.py:192-277 | The loop sends the frames of `Stream`, whichever of the sends fail; the client receives those that do not. |
| `Relay.ForwardsUpToTerminal` | backend/app/api/websocket.py:243-277 | The client gets, in order, exactly the messages up to the first terminal one that arrive before the deadline and before a failure. |
| `Relay.NothingAfterTheEnd` | backend/app/api/websocket.py:204-277 | Nothing follows a result, an error or the timeout. |
| `Relay.StreamEndsWith` | backend/app/api/websocket.py:204-331 | The first poll that is late, fails, or delivers a terminal message or something that is no object ends the stream, with the timeout, the handler's error, that message, or that something and the error; nothing of the kind is sent before. |
| `Relay.NothingReceivedAfterTheEnd` | backend/app/api/websocket.py:318-333 | Nor does the client receive anything after such a frame, whatever it misses. |
| `Relay.EndsByDeadline` | backend/app/api/websocket.py:204-223 | A stream whose polls reach the deadline has ended. |
| `Relay.PingsAreSpaced` | backend/app/api/websocket.py:222-235 | Pings are at least 30 seconds apart, the first that long after the start. |
| `Relay.KeepsAlive` | backend/app/api/websocket.py:222-246 | With polls at most d apart the ping frames are less than 30+d seconds apart, from the start on, and the last one is less than 30 seconds old while the stream lasts. |
| `Relay.ClientSeesWholeRun` | backend/app/api/websocket.py:198-277 | Worker to client: a run that tells its end once and whose channel is delivered in time arrives whole, and the stream ends there. |

## Left out

- Floating-point rounding, NaN and infinities; exponentials (the drawdown takes any positive wealth path).
- The solvers behind CVXPY, Qiskit and PennyLane, market data, and the language model: their answers are arbitrary inputs.
- The optimiser's volatility expression in multi-objective mode: its equality with √(wᵀΣw) is not stated.
- Thresholds on measures other than return and concentration: the pre-check does not look at them.
- Constraints.VolatilityCheckIsCompleteExactlyWhen: takes the minimum volatility as a number whose square is the minimum variance, since square roots are not modelled.
- The thread pools of the sweep and of the dispatcher: results are taken as they come, in order.
- The ε-constraint sweep itself, the measures of a frontier point and their rounding.
- Sector lookup, tickers and prices as data: a portfolio position is an asset index with weight and allocation.
- Decoding of bit strings, the dictionary export of the matrix, Sharpe, Sortino and Calmar ratios.
- Constraints.RejectionsAreSound: takes an exact inverse of a symmetric positive semi-definite matrix.
- PenaltyHeuristic.FiveTimesTheLargestEntry: reads max(|Q|) on the entries before the penalty is added, since the penalty is itself part of Q.
- Knee.KneeIgnoresUnits: needs both ranges above 1e-12 before and after, since flatter axes are zeroed.
- Diversification.RatioAtLeastOne: needs a symmetric positive semi-definite covariance.
- Each chat request reads the clock once, as the code does; requests of one session run one after the other, so concurrent confirmations are not covered.
- The texts of prompts and summaries, the validator of optimisation requests (an arbitrary predicate), tokens, and the case that a session does not exist.
- Pipeline.Graph.RunNode: takes the duration of a node as given, and the publisher of events never raises.
- Rows of finished runs: the worker stores a run as completed whatever the graph's status.
- Redelivery of a task after a worker crash, and lost publications.
- Relay.Connection.Relay: takes the polls up to some moment as a list; authentication and closing the socket are not covered.
