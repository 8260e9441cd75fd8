# plfit, verified

plfit fits power-law distributions to samples. Under its command line sit a handful of algorithms
that stand on their own: a limited-memory BFGS optimiser with three line searches, Walker's alias
sampler, golden section search, a Mersenne Twister, a binomial sampler, and the search for the cutoff
from which a sample follows a power law. This project states what each of them is for and proves it,
in exact real arithmetic, for all inputs and over whole runs.

`double` is modelled as `real`. `sqrt` is a function with its defining property on non-negative
arguments. Objective functions, distance scores, exponent estimates, progress callbacks and random
draws are parameters, so every theorem holds for all of them.

| file | models |
|---|---|
| `Interpolation.dfy`, `TrialInterval.dfy`, `MoreThuente.dfy` | the Moré–Thuente line search: minimiser formulas, one update of the interval, the whole search as a state machine and as the loop |
| `BracketRun.dfy` | whole Moré–Thuente searches, both stages: when no update takes a negative root or leaves the bracket |
| `ParabolaSearch.dfy` | Moré–Thuente searches on parabolas, which succeed with their second evaluation |
| `Backtracking.dfy`, `OwlQn.dfy` | the backtracking searches, plain and orthant-wise |
| `Vectors.dfy`, `Kernels.dfy` | vector and matrix algebra, the plain and the unrolled kernels, padding |
| `QuasiNewton.dfy`, `TwoLoop.dfy` | the inverse Hessian as a matrix, and the two loops over the ring buffer |
| `LbfgsDriver.dfy`, `Objectives.dfy`, `LbfgsCodes.dfy` | `lbfgs()`: state, iteration, whole runs |
| `PaddedRun.dfy` | whole runs over padded vectors against runs without padding |
| `FailedSearch.dfy` | a run that reports the value of a point it does not return |
| `AliasSampler.dfy` | the alias table, its construction in place and sampling from it |
| `GoldenSection.dfy`, `GoldenFailure.dfy` | golden section search, and exactly which unimodal functions it rejects |
| `MersenneTwister.dfy` | the block twist against the word-at-a-time recurrence |
| `Binomial.dfy` | the binomial sampler for small means, with its cache |
| `SortedSamples.dfy`, `XminScan.dfy`, `ContinuousSearch.dfy`, `DiscreteSearch.dfy` | the cutoff searches: distinct values, sequential and parallel scan, stratified search, discrete search and its distance |
| `ParallelSearch.dfy` | the stratified search with both of its scans in parallel: all its outcomes |

Where the source changes things in place, the model does so too: arrays, classes with fields, and
loops with the source's branches, each proved against a specification. The theorems are about those
specifications.

## What is shown

*Line search.* From a valid bracket every one of the four interpolation cases keeps a valid bracket
(`UpdateKeepsBracket`), and the next trial is stated case by case; the formulas return true minimisers of the interpolating cubics and parabolas.
Over any search the recorded values stay those of the function, also across the modified function of
the first stage; three completed steps leave at most 0.66 of the width. Searches along a downhill line
with non-zero slopes never take the root of a negative number, nor leave their bracket, exactly when
`ftol` is below one and `gtol` at least four times `ftol` (`CleanTolerances`); the defaults are 1e-4 and 0.9.
A search succeeds exactly at an acceptable step that none of its limits stands in the way of
(`AnswerExact`), and passes over none. The backtracking steps have a closed form (`StepsClosedForm`).

*Optimiser.* The two loops compute the product with the matrix built by `H' = VᵀHV + ρssᵀ` from the
newest corrections; that matrix is symmetric, positive definite under positive curvature, and
satisfies the secant equation. Over every run the accepted costs never rise (under L1 regularisation:
when it covers all coordinates but the padding), every exit returns the starting point or an accepted iterate, the past-improvement test compares with exactly `past`
iterations ago, and in the Wolfe, strong Wolfe and `gtol < 1` Moré–Thuente modes every stored curvature is
positive and no search is ever started uphill. A run over vectors padded to a multiple of eight is, on
the true lanes, a run over the unpadded vectors (`PaddedRunIsRun`).

*Sampling.* The finished alias table encodes the weights exactly, and the two loops that "fix
numerical stability issues" change nothing. The block twist delivers the recurrence without end. The
binomial sampler inverts the distribution function, and its first pass succeeds for all draws exactly
up to n = 111.

*Golden section.* The bracket contracts golden step by golden step onto the minimiser of a unimodal
function; on which unimodal functions a search fails is decided by `FailsExactly`.

*Cutoff searches.* Each search is an argmin over an exactly described set of cutoffs, and the
shortcuts are compared with the plain scan by an if-and-only-if. So are the parallel searches with the
sequential ones, over all schedules.

## Where the code and its documentation differ

- `README.rst` says parallel and sequential mode give the same results. One scan does so for every
  schedule exactly when no later chunk is led by an equally good probe with another record
  (`ParallelEqualsSequential`); with ties two threads can return another one (`ScheduleFor`). The default
  search scans twice, and a tie between coarse strata moves the window of the second scan: all schedules
  agree exactly when every window they can lead to has the same first best record without rivals
  (`ParallelSearchAgrees`), and even the distance can differ (`DistanceDependsOnSchedule`).
- A comment in `plfit_discrete` wants three distinct values left "if possible". They are left exactly
  when the value third from the top occurs once (`ThreeValuesLeft`, `TwoValuesTried`).
- `gss.h` says a failure means that the function is not U-shaped. A strictly unimodal function fails too,
  exactly when, going from the lower end towards the higher one, the first of the search's points whose
  value does not fall is not below the lower end and is reached before the bracket is narrow
  (`FailsExactly`). The points are known before the call. With equal values at both ends it never fails
  (`EqualEndsAccepted`); a V with a steep arm does (`SteepVIsRejected`).
- The interval update takes the root of a discriminant that should be non-negative. With `gtol` below four
  times `ftol` it is negative in the third update of some search (`SpoiledRun`, on finitely many values and
  slopes, which some smooth function has); `StageStep` names the exact step at which this happens.
- `lbfgs.h` has a code for a bracket that has become too narrow. It is never returned: in that case, as when
  the evaluations are used up inside a bracket, the best step is evaluated again, lies on the edge of the
  bracket, and is reported as a rounding error (`ErrorExact`).
- The draw documented as lying in [0;1) divides by the largest word and can be 1 (`UniformRange`), and
  then an item of weight zero can be sampled (`ZeroWeightDrawn`, `ZeroWeightDrawnAtOne`).
- A generator seeded from another one continues its seeder's stream, so two generators seeded in a row
  overlap after 624 words (`SeededStreamOverlaps`).
- `lbfgs.h` documents `ptr_fx` as the final value for the variables. After a failed line search the point
  is restored and `fx` is not: it is the value at the last trial point. So it is right exactly when the
  search was refused before its first evaluation, or that value equals the one at the restored point
  (`Optimizer.Iterate`); `ReportsRejectedValue` is a run that ends at 0, with value 0, and reports 5.

## Model

| member | source | states |
|---|---|---|
| Interpolation.CubicMinimizerInside | src/lbfgs.c:1142-1157 | if the function falls from u towards v and rises at v, or is higher there, the discriminant is non-negative and the result lies strictly between u and v |
| Interpolation.CubicMinimizerOptimal | src/lbfgs.c:1142-1157 | ... and it minimises the Hermite cubic over the whole segment |
| Interpolation.CubicMinimizer2Optimal | src/lbfgs.c:1170-1190 | when the slope shrinks and the cubic turns beyond v, the second formula returns its minimiser over everything up to there |
| Interpolation.CubicMinimizer2Bound | src/lbfgs.c:1170-1190 | ... and when it does not turn there, the far bound |
| Interpolation.QuadMinimizerInside | src/lbfgs.c:1201-1203 | strictly between the points when v is higher |
| Interpolation.QuadMinimizerOptimal | src/lbfgs.c:1201-1203 | minimises the interpolating parabola over the whole line |
| Interpolation.SecantZero | src/lbfgs.c:1213-1215 | the secant formula finds the zero of the interpolated slope |
| Interpolation.GammaSquared | src/lbfgs.c:1147-1151 | the scaling by s is harmless: gamma squared is theta squared minus the product of the slopes |
| TrialInterval.UpdateTrialInterval | src/lbfgs.c:1246-1413 | everything written through the pointer arguments, as one function of the old state |
| TrialInterval.UpdateKeepsBracket | src/lbfgs.c:1246-1413 | from a valid bracket: no error, the new interval is nested in the old one and ends at the tried point, the best value is the lower of the two, the new trial is strictly inside, the bracket is valid again |
| TrialInterval.UpdateExtends | src/lbfgs.c:1267-1413 | before bracketing: either a valid bracket appears, or the best point moves on, still downhill, and the next trial lies further on |
| TrialInterval.StatusExact | src/lbfgs.c:1267-1280 | which status is returned when; an error changes nothing |
| TrialInterval.HigherTrial | src/lbfgs.c:1287-1303 | after a higher value the next trial is the cubic minimiser if that is closer to the best step than the quadratic one, otherwise half way between the two, up to 0.66 of the interval |
| TrialInterval.OppositeTrial | src/lbfgs.c:1304-1319 | after a turned slope it is whichever of cubic minimiser and secant zero is further from the tried point |
| TrialInterval.ShrinkingTrial | src/lbfgs.c:1320-1336 | with a shrinking slope it is the further of the two outside a bracket and the nearer inside one, up to the bounds |
| TrialInterval.GrowingTrial | src/lbfgs.c:1337-1352 | otherwise the far bound outside a bracket, and the minimiser of the cubic to the other end inside one |
| TrialInterval.SafeguardNearest | src/lbfgs.c:1389-1409 | the safeguards pick the allowed point nearest to the proposal |
| TrialInterval.ProposalDistance | src/lbfgs.c:1281-1347 | after a higher value the proposal is no further from the best step than the cubic minimiser; in cases 2 and 3 it is as far from the trial as the farther of the two minimisers, or the nearer one when case 3 is bracketed |
| TrialInterval.SafeguardInside | src/lbfgs.c:1389-1409 | clipping and the two-thirds rule keep a sensible proposal strictly inside and within 0.66 of the width |
| TrialInterval.HigherEndNeeded | src/lbfgs.c:1142-1157 | a concrete bracket with a lower far end on which the discriminant is negative |
| MoreThuente.StepContinues | src/lbfgs.c:983-1059 | a search that goes on evaluated the clipped step, strictly inside the bracket |
| MoreThuente.FallBackFails | src/lbfgs.c:1007-1035 | an out-of-interval trial always ends the search with an error |
| MoreThuente.UpdateErrorIsFinal | src/lbfgs.c:1030-1035 | an error of the interval update ends the search at the next evaluation |
| MoreThuente.SuccessExact | src/lbfgs.c:1026-1056 | an evaluation succeeds exactly when the step has sufficient decrease and a small slope, lies strictly inside a sound and wide enough bracket if there is one, is not stopped at max_step or min_step, and is not the last permitted one; a step that the search goes on from was not acceptable |
| MoreThuente.SuccessMeaning | src/lbfgs.c:1053-1056 | a success is at the clipped trial, before the last permitted evaluation |
| MoreThuente.ErrorExact | src/lbfgs.c:998-1056 | which error is returned when; an unusual end in a bracket always evaluates the best step and is a rounding error, so LBFGSERR_WIDTHTOOSMALL is never returned |
| MoreThuente.ClipNearest | src/lbfgs.c:998-1000 | the step is the permitted one nearest to the trial |
| MoreThuente.StageExact | src/lbfgs.c:1062-1067 | when the first stage ends |
| MoreThuente.ModifiedTrial | src/lbfgs.c:1073-1097 | a step through the modified function chooses the trial that this function itself would get |
| MoreThuente.InRangeInvariant | src/lbfgs.c:998-1005 | every step remembered or tried lies in [0, max_step] |
| MoreThuente.ExactInvariant | src/lbfgs.c:1069-1109 | the recorded values and slopes are those of the function, also after the modified function was used and undone |
| MoreThuente.StageOneInvariant | src/lbfgs.c:1062-1109 | while stage 1 lasts, the best step has sufficient decrease and a slope below ftol times the first |
| MoreThuente.ModifiedKeepsBest | src/lbfgs.c:1070-1097 | an update through the modified function never moves the best step |
| MoreThuente.BracketedStep | src/lbfgs.c:1111-1120 | the interval is nested; bisection happens exactly when more than 0.66 of the width of two steps before is left; a bisected interval is then halved |
| MoreThuente.ThreeStepsContract | src/lbfgs.c:998-1120 | three consecutive completed steps leave at most 0.66 of the width, unless the trial was raised to min_step |
| MoreThuente.ReachableInvariant | src/lbfgs.c:932-1122 | all invariants hold in every state of every search |
| BracketRun.TurnBack | src/lbfgs.c:1281-1409 | after a higher value or a slope turned uphill, best and tried point form a valid bracket, for a best step of either kind |
| BracketRun.LowerFarEnd | src/lbfgs.c:1142-1157 | towards a far end that is no higher and downhill too, the cubic has a root between the ends exactly when it turns inside |
| BracketRun.MoveOnGrowing | src/lbfgs.c:1337-1409 | case 4 is harmless exactly when the far end is higher, or uphill, or the cubic turns inside |
| BracketRun.StageStep | src/lbfgs.c:983-1121 | in either stage a step of a sound search takes no negative root and keeps the trial inside exactly unless the far-end cubic is spoiled, and the search stays sound |
| BracketRun.NeverSpoiled | src/lbfgs.c:983-1121 | with gtol at least four times ftol and ftol below one that never happens |
| BracketRun.SoundRun | src/lbfgs.c:932-1122 | ... so every step of every search along a downhill line with non-zero slopes is clean, both stages included |
| BracketRun.SpoiledRun | src/lbfgs.c:932-1122 | for every smaller gtol there is a search whose third update takes the root of a negative number |
| BracketRun.CleanTolerances | src/lbfgs.c:932-1122 | no search takes such a root or leaves its bracket exactly when ftol < 1 and 4 ftol <= gtol |
| MoreThuente.UpdateFunction | src/lbfgs.c:1069-1109 | the update through the modified function or the function itself, as a step of the machine |
| MoreThuente.LineSearchMoreThuente | src/lbfgs.c:932-1122 | the loop runs the machine and ends at x = xp + stp s with its value and gradient; the return is non-negative, and then the number of evaluations, exactly for an acceptable step that nothing stands in the way of |
| MoreThuente.AnswerExact | src/lbfgs.c:1026-1056 | the same of the answer alone, with the only four errors an evaluated step can end in |
| MoreThuente.EarlierRejected | src/lbfgs.c:1053-1056 | no acceptable step is passed over |
| MoreThuente.OneAnswer | src/lbfgs.c:932-1122 | a search has one answer |
| ParabolaSearch.ParabolaInTwo | src/lbfgs.c:932-1122 | on a parabola, from any first step beyond twice the minimiser, the search returns 2 at the exact minimiser |
| Backtracking.LineSearchBacktracking | src/lbfgs.c:762-854 | returns the first acceptable of the trial steps, for each of the three modes, or says which limit stopped it |
| Backtracking.StepsClosedForm | src/lbfgs.c:782-852 | in every mode the k-th trial step is the first one times 2.1 for each earlier trial that was too short and times one half for each other |
| Backtracking.ArmijoHalves | src/lbfgs.c:787-815 | in Armijo mode the trial steps are successive halves |
| Kernels.VecCpy | src/arithmetic_ansi.h:60-67 | y becomes x |
| Kernels.VecNCpy | src/arithmetic_ansi.h:69-76 | y becomes minus x |
| Kernels.VecAdd | src/arithmetic_ansi.h:78-85 | y becomes y + c x |
| Kernels.VecDiff | src/arithmetic_ansi.h:87-94 | z becomes x - y |
| Kernels.VecScale | src/arithmetic_ansi.h:96-103 | y becomes c y |
| Kernels.VecDot | src/arithmetic_ansi.h:114-121 | the dot product |
| Kernels.Vec2Norm | src/arithmetic_ansi.h:123-127 | the root of the dot product of x with itself |
| Kernels.Vec2NormInv | src/arithmetic_ansi.h:129-133 | the reciprocal of a non-zero norm |
| Kernels.NormFacts | src/arithmetic_ansi.h:123-127 | the norm is the non-negative root, zero exactly for the zero vector |
| SseKernels.VecCpy | src/arithmetic_sse_double.h:84-97 | same contract as the plain loop, eight elements a turn |
| SseKernels.VecNCpy | src/arithmetic_sse_double.h:99-120 | same contract, eight a turn |
| SseKernels.VecAdd | src/arithmetic_sse_double.h:122-138 | same contract, four a turn |
| SseKernels.VecDiff | src/arithmetic_sse_double.h:140-161 | same contract, eight a turn |
| SseKernels.VecScale | src/arithmetic_sse_double.h:163-175 | same contract, four a turn |
| SseKernels.VecDot | src/arithmetic_sse_double.h:225-245 | four running sums and the horizontal add give the dot product |
| SseKernels.SquareSums | src/arithmetic_sse_double.h:247-262 | the four running sums of the norm loops add up to the dot product of x with itself |
| SseKernels.Vec2Norm | src/arithmetic_sse_double.h:247-268 | the norm, as the plain kernel computes it |
| SseKernels.Vec2NormInv | src/arithmetic_sse_double.h:271-294 | the same |
| Padding.RoundOutVariables | src/lbfgs.c:217-224 | the least multiple of eight not below n |
| Padding.DotPadded | src/lbfgs.c:284-287 | over zero padding the dot product is that of the true vectors |
| Padding.KernelsPadded | src/arithmetic_sse_double.h:99-175 | every kernel keeps zero padding and is the plain result on the true lanes |
| QuasiNewton.ApplyIsMatrix | src/lbfgs.c:561-602 | the recursion over the corrections is multiplication by the matrix built from (ys/yy) I by one update a pair |
| QuasiNewton.InverseHessianSymmetric | src/lbfgs.c:561-602 | that matrix is symmetric |
| QuasiNewton.InverseHessianPositive | src/lbfgs.c:561-602 | ... and positive definite when all curvatures are positive |
| QuasiNewton.SecantEquation | src/lbfgs.c:542-602 | ... and maps the newest y to the newest s |
| QuasiNewton.DirectionDescends | src/lbfgs.c:573-602 | so minus H times a non-zero gradient points downhill |
| TwoLoop.RingIndex | src/lbfgs.c:583-601 | the slot of the back-th newest correction is inside the buffer |
| TwoLoop.FirstLoop | src/lbfgs.c:581-590 | the downward loop, with the alphas it stores |
| TwoLoop.SecondLoop | src/lbfgs.c:594-602 | the upward loop ends with the whole recursion applied |
| TwoLoop.ApplyTwoLoop | src/lbfgs.c:581-602 | d becomes H d for the H of exactly the newest corrections, oldest first; nothing but the alphas changes in the buffer |
| OwlQn.X1Norm | src/lbfgs.c:1419-1433 | the L1 norm over the regularised range |
| OwlQn.L1Coordinate | src/lbfgs.c:1425-1430 | that norm adds up magnitudes: zero on the zero vector, and each coordinate counts with its distance from zero |
| OwlQn.RegularisedCoordinate | src/lbfgs.c:897-903 | the regularised value adds c for every unit that a coordinate of the range is away from zero, and nothing for the others |
| OwlQn.PseudoSlopeLeast | src/lbfgs.c:1435-1476 | the pseudo-gradient is the subgradient of f + c abs(x) of least magnitude, and the only one |
| OwlQn.ComputePseudoGradient | src/lbfgs.c:1435-1476 | the loop computes it, and copies the gradient outside the range |
| OwlQn.Project | src/lbfgs.c:1478-1492 | coordinates of the wrong sign become zero, others stay |
| OwlQn.ConstrainDirection | src/lbfgs.c:604-613 | the direction restricted to components that run against the pseudo-gradient |
| OwlQn.RestrictExact | src/lbfgs.c:604-613 | which components that leaves: those outside the range and those of opposite sign to the pseudo-gradient |
| OwlQn.TrialExact | src/lbfgs.c:881-891 | each coordinate of a trial point: the full step, or zero where that would leave the orthant |
| OwlQn.HalvedClosedForm | src/lbfgs.c:870-926 | the k-th trial step is the first one halved k times |
| OwlQn.TrialInOrthant | src/lbfgs.c:881-891 | every projected trial stays in the chosen orthant |
| OwlQn.TrialDescends | src/lbfgs.c:906-911 | with all coordinates regularised but those that do not move, no trial climbs along the pseudo-gradient |
| OwlQn.LineSearchBacktrackingOwlqn | src/lbfgs.c:858-928 | returns the first halved step whose projected point decreases enough, or the limit that stopped it |
| LbfgsDriver.ParamsAccepted | src/lbfgs.c:288-367 | exactly which parameters are accepted |
| LbfgsDriver.ParamsRejected | src/lbfgs.c:288-367 | an error code names a parameter out of its range, the one tested first |
| LbfgsDriver.CurvatureOfStep | src/lbfgs.c:542-559 | yᵀs is the step times the increase of the slope |
| LbfgsDriver.SlopeIncreases | src/lbfgs.c:819-836 | a slope that passes a Wolfe or gtol test has increased strictly |
| LbfgsDriver.RingPush | src/lbfgs.c:547-571 | storing a correction makes the buffer hold the newest min(m, k) |
| LbfgsDriver.RingNewest | src/lbfgs.c:569-583 | what the loops visit is exactly the newest corrections |
| LbfgsDriver.ScaleIsLeastSquares | src/lbfgs.c:592 | the scale ys / yy is the multiple with which y comes closest to s |
| LbfgsDriver.DirectionDescent | src/lbfgs.c:573-602 | the direction of the run is a descent direction under positive curvature |
| LbfgsDriver.OwlqnMonotone | src/lbfgs.c:906-924 | an accepted orthant-wise step does not raise the regularised objective |
| LbfgsDriver.Optimizer.TraceGrows | src/lbfgs.c:464-485 | appending an accepted point keeps the costs of all accepted points in non-increasing order |
| LbfgsDriver.SmoothLineSearch | src/lbfgs.c:465-474 | refused exactly uphill, before any evaluation; otherwise it ends with its code at a trial step, successfully exactly when the mode accepts that and, for Moré–Thuente, nothing stands in the way |
| LbfgsDriver.OrthantLineSearch | src/lbfgs.c:465-474 | never refused; it ends at the first projected halved step that is accepted, or with the limit that stopped it |
| LbfgsDriver.Optimizer.LastValue | src/lbfgs.c:465-485 | after any search fx is the cost of the point evaluated last |
| LbfgsDriver.Optimizer.Search | src/lbfgs.c:465-485 | a failed search restores x and g but not fx and step; an accepted one does not raise the cost and never starts uphill in the curvature modes |
| LbfgsDriver.Optimizer.RingRecords | src/lbfgs.c:519-534 | the slot of the newest cost in `pf` holds the cost of exactly `past` iterations ago until it is overwritten |
| LbfgsDriver.Optimizer.PastTest | src/lbfgs.c:514-534 | stops exactly when the cost changed by less than delta, relative to its present value, over the last `past` iterations |
| LbfgsDriver.Optimizer.StalledExact | src/lbfgs.c:514-534 | that test without its quotient |
| LbfgsDriver.Optimizer.ConvergedExact | src/lbfgs.c:500-512 | the gradient test without norms and quotients |
| LbfgsDriver.Optimizer.CheckStop | src/lbfgs.c:495-540 | which of the four tests decides, in their order: client, gradient norm, past improvement, iteration count |
| LbfgsDriver.Optimizer.Advance | src/lbfgs.c:487-619 | the tests, and if none stops the run the correction and the next direction; the invariant holds again |
| LbfgsDriver.Optimizer.StoreCorrection | src/lbfgs.c:547-571 | the correction joins the history; in the curvature modes its curvature is positive |
| LbfgsDriver.Optimizer.NewDirection | src/lbfgs.c:573-618 | the quasi-Newton direction of the newest corrections, constrained to the orthant, and a first step of one |
| LbfgsDriver.Optimizer.Iterate | src/lbfgs.c:464-619 | one turn keeps the invariant; x is the last accepted point, an accepted trial along d; costs never rose; padding stays zero; no increasing gradient and no zero division in the curvature modes; after a failed search fx is the cost of x exactly when nothing was evaluated or the last trial costs the same |
| FailedSearch.ReportsRejectedValue | src/lbfgs.c:479-485 | the run on t + 6 t^2 from 0 with one Armijo trial a search ends at 0 and reports 5 |
| LbfgsDriver.Optimizer.EvaluateFirst | src/lbfgs.c:415-440 | value, gradient, pseudo-gradient and steepest descent direction belong together |
| LbfgsDriver.Optimizer.Start | src/lbfgs.c:442-463 | already minimised exactly when the gradient test holds; otherwise the invariant holds and the first step is one over the length of d |
| LbfgsDriver.Run | src/lbfgs.c:464-619 | the same for every prefix of every run |
| LbfgsDriver.Lbfgs | src/lbfgs.c:249-645 | a bad parameter is reported and changes nothing; otherwise every exit returns the caller's point or an accepted iterate, with non-increasing costs along the way, and says why it stopped; without regularisation the points form a run from the given start |
| PaddedRun.SearchPadded | src/lbfgs.c:465-474 | padding changes neither the trial steps of a line search nor which of them it accepts |
| PaddedRun.DirectionPadded | src/lbfgs.c:573-602 | ... nor the quasi-Newton direction on the true lanes |
| PaddedRun.TurnPadded | src/lbfgs.c:464-619 | one padded iteration is one iteration on the true vectors |
| PaddedRun.PaddedRunIsRun | src/lbfgs.c:284-287 | ... and a whole padded run is a run of the unpadded problem, first step included |
| AliasSampler.PairStep | src/sampling.c:240-251 | one pairing keeps every item's mass: its own stick plus what finished bins gave it |
| AliasSampler.NothingLeft | src/sampling.c:240-251 | when a stack runs empty, every unfinished bin holds exactly one and no short stick is left |
| AliasSampler.PairUp | src/sampling.c:240-261 | pairing inside the initial stacks, and clean-up loops that change nothing |
| AliasSampler.CleanUp | src/sampling.c:253-261 | what the clean-up loops write: one, at what is left on the stacks |
| AliasSampler.FillStacks | src/sampling.c:229-237 | the stacks list the short and long sticks, within their allocation |
| AliasSampler.Build | src/sampling.c:197-261 | the finished table encodes the weights |
| AliasSampler.WalkerAliasSampler.Init | src/sampling.c:170-267 | every item i gets mass n ps[i] / sum |
| AliasSampler.WalkerAliasSampler.Sample | src/sampling.c:282-309 | each draw picks an owner of its bin |
| AliasSampler.YieldInterval | src/sampling.c:303 | the u in [0, 1) for which a bin yields an item form one interval, of the length that the next row adds up |
| AliasSampler.SamplingIsExact | src/sampling.c:299-305 | over uniform bins and uniform u an item is drawn with exactly its share |
| AliasSampler.ZeroWeightDrawn | src/sampling.c:301-303 | an item of weight zero is drawn exactly when u is one and the bin's alias is that item |
| AliasSampler.ZeroWeightDrawnAtOne | src/sampling.c:301-303 | a table on which this happens |
| GoldenSection.GoldenStep | src/gss.c:122-142 | whichever side is dropped the triple is golden again and the width shrinks by 0.618033 to 0.618034 in that one step |
| GoldenSection.MinimiserInBracket | src/gss.c:137-141 | an interior point no higher than the ends locks the minimiser of a unimodal function in |
| GoldenSection.NarrowDown | src/gss.c:122-142 | the loop ends, within the contraction bound, with the first bracket of the sequence that is narrow; in stop mode its interior point is the best of all evaluated |
| GoldenSection.AfterProper | src/gss.c:122-142 | the bracket after any number of turns is golden, inside the interval, and narrower than the one before |
| GoldenSection.FailsWithin | src/gss.c:114-131 | a search that is narrow after k turns fails exactly when its first probe or that of one of these turns is high |
| GoldenSection.Gss | src/gss.c:88-152 | exactly which points are evaluated, the midpoint of the final bracket last, and the best of them; success leaves at most epsilon around the minimiser of a unimodal function; an uncancelled search fails, or warns in warn mode, exactly when one of its probes, known from the function alone, is not below both original ends |
| GoldenFailure.FailsExactly | src/gss.h:108-112 | a strictly unimodal function fails exactly when the first listed point that does not fall, from the lower end on, is not below that end and is reached in time |
| GoldenFailure.EqualEndsAccepted | src/gss.h:108-112 | with equal ends a strictly unimodal function never fails |
| GoldenFailure.SteepVIsRejected | src/gss.h:108-112 | the search on a steep V, which is strictly unimodal, returns the failure code for every epsilon below one |
| MersenneTwister.Restart | src/mt.c:43-74 | restarted from any block of its stream the recurrence goes on unchanged |
| MersenneTwister.Rng.TwistBlock | src/mt.c:57-71 | the twist in place turns one block of the stream into the next |
| MersenneTwister.TwistBits | src/mt.c:48 | the twisted word has the top bit of one word and the other 31 bits of the next |
| MersenneTwister.MagicBits | src/mt.c:49 | the constant enters exactly when the last bit is set |
| MersenneTwister.MixParts | src/mt.c:57-71 | the new word is the far one, changed by the twisted word shifted down and by the constant |
| MersenneTwister.Rng.Random | src/mt.c:51-74 | the k-th call returns word k of the recurrence, for all k |
| MersenneTwister.Rng.FromRng | src/mt.c:25-41 | seeding takes the seeder's next 624 words |
| MersenneTwister.SeededStreamOverlaps | src/mt.c:34-38 | the new generator replays its seeder |
| MersenneTwister.SeedTwo | src/mt.c:34-38 | two generators seeded in a row run 624 words apart on one stream |
| MersenneTwister.UniformRange | src/mt.c:88-90 | draws lie in [0, 1] and equal one exactly for the largest word |
| MersenneTwister.Rng.Uniform01 | src/mt.c:88-90 | ... for the next word of the stream |
| Binomial.PmfStep | src/rbinom.c:198-199 | the multiplicative recurrence turns one binomial probability into the next |
| Binomial.CdfTotal | src/rbinom.c:188-201 | the probabilities add up to one (the binomial theorem) |
| Binomial.InvertOnce | src/rbinom.c:189-200 | a returned ix brackets u by the distribution function; a break means u is beyond 112 terms |
| Binomial.InversionUnique | src/rbinom.c:189-200 | no other value brackets u |
| Binomial.FirstPassSucceeds | src/rbinom.c:195-196 | every u below one is inverted in the first pass exactly when n is at most 111 |
| Binomial.InvertDraws | src/rbinom.c:188-201 | the first draw that can be inverted decides |
| Binomial.PmfFlip | src/rbinom.c:203-204 | counting failures turns the distribution for p into that for 1 - p |
| Binomial.CdfFlip | src/rbinom.c:203-204 | ... and the distribution functions |
| Binomial.BinomialGenerator.Rbinom | src/rbinom.c:65-204 | argument checks and trivial cases; the large-mean branch exactly when n pp and n (1 - pp) are both at least 30; otherwise the first draw within reach selects the result from Binomial(n, pp), counted from below for pp up to one half and from above otherwise, whatever earlier calls cached |
| Binomial.ExplicitRatio | src/rbinom.c:150-158 | the explicit loops compute pmf(ix) / pmf(m) |
| SortedSamples.TailIsCount | src/plfit.c:541 | a tail has as many elements as there are samples at or above its first value exactly when it starts a block |
| SortedSamples.SmallerCount | src/plfit.c:1001-1007 | what is not counted are the smaller samples |
| SortedSamples.UniquesExact | src/plfit.c:147-206 | each value occurs at exactly one listed position, its first; values increase strictly |
| SortedSamples.UniqueElementPointers | src/plfit.c:147-206 | the growing array lists exactly the block starts, with the guard inside the allocation |
| XminScan.ScanIsFirstMinimum | src/plfit.c:537-549 | the sequential scan keeps the first of the best probes |
| XminScan.StepKeepsInv | src/plfit.c:511-564 | taking a chunk, evaluating a probe and merging keep the invariant of the parallel block |
| XminScan.RunKeepsInv | src/plfit.c:511-564 | it holds in every state of every run, for any number of threads |
| XminScan.FinishedIsMinimum | src/plfit.c:548-564 | when all threads have merged, the global record belongs to a best probe |
| XminScan.ParallelMinimum | src/plfit.c:511-564 | for every schedule the final distance is the sequential minimum |
| XminScan.ScheduleFor | src/plfit.c:534-554 | any best probe that leads its chunk is returned by some schedule of two threads |
| XminScan.ParallelEqualsSequential | src/plfit.c:511-564 | every schedule of one scan returns the sequential record exactly when no such probe has another record |
| XminScan.UniqueMinimumAgrees | src/plfit.c:511-564 | in particular when the best probe is unique |
| ParallelSearch.CanReturnExactly | src/plfit.c:511-564 | the records one parallel scan can return, over all schedules: those of the best probes that lead their chunk |
| ParallelSearch.CanFindExactly | src/plfit.c:637-697 | the records the stratified search can end with: those of the windows around the best strata that lead their chunk |
| ParallelSearch.ParallelSearchAgrees | README.rst:206-208 | all schedules of the default search return the sequential record exactly when all those windows hold it, without rivals |
| ParallelSearch.ParallelDistanceAgrees | README.rst:206-208 | ... and the sequential distance exactly when those windows have the same least one |
| ParallelSearch.SequentialCanFind | src/plfit.c:637-697 | the sequential record is always among the possible ones |
| ParallelSearch.DistanceDependsOnSchedule | README.rst:206-208 | a sample and scores on which the sequential distance is 1 and a schedule finds 0 |
| ContinuousSearch.LinearScan | src/plfit.c:488-571 | the scan of all probes but the last |
| ContinuousSearch.StratifiedScan | src/plfit.c:637-697 | the coarse scan, the stratum it selects and the scan around it |
| ContinuousSearch.Search | src/plfit.c:573-715 | stratified from 50 distinct values on, with the linear scan as fall-back |
| ContinuousSearch.CoarseWinner | src/plfit.c:657-678 | exactly one stratum has the value found, never the last; none has when nothing was found |
| ContinuousSearch.WindowInside | src/plfit.c:671-676 | the fine window is non-empty, inside the array, and scans the winner again |
| ContinuousSearch.WindowExact | src/plfit.c:665-692 | below 50 distinct values the search is linear; otherwise exactly which cutoffs the fine scan looks at |
| ContinuousSearch.CoarseExact | src/plfit.c:649-656 | the coarse scan looks at every tenth distinct value but the last of them |
| ContinuousSearch.StratifiedBounds | src/plfit.c:683-692 | the result is no better than the linear scan and no worse than the coarse one |
| ContinuousSearch.StratifiedIsLinear | src/plfit.c:637-697 | it is the record of the linear scan exactly when the first best cutoff lies in the window, or the coarse scan found nothing |
| ContinuousSearch.BestIsTail | src/plfit.c:459-476 | the record has exponent and distance of the tail of all samples at or above its cutoff, and their number; a larger value remains |
| DiscreteSearch.KsTest | src/plfit.c:975-1014 | the loop computes the distance |
| DiscreteSearch.KsIsMaximum | src/plfit.c:975-1014 | the distance is the largest magnitude, over all samples, of the fitted term plus the share of smaller samples |
| DiscreteSearch.Bounds | src/plfit.c:1209-1228 | where the scan starts and where it is told to stop |
| DiscreteSearch.EndXminExact | src/plfit.c:1216-1228 | the stop is the second largest value, or just the first when there are at most two |
| DiscreteSearch.NextCutoff | src/plfit.c:1230-1232 | skipping ends at the next block start, with m equal to its position |
| DiscreteSearch.TryCutoff | src/plfit.c:1234-1248 | one evaluation, on the n - m samples from there on, keeps the best record of the cutoffs so far |
| DiscreteSearch.ScanCutoffs | src/plfit.c:1209-1252 | the record after exactly the cutoffs described below, or the first estimation error |
| DiscreteSearch.Search | src/plfit.c:1177-1252 | the scan, or an error for invalid parameters |
| DiscreteSearch.OptionsExact | src/plfit.c:1190-1202 | which options are refused |
| DiscreteSearch.TriedExact | src/plfit.c:1216-1252 | a value is tried exactly when it is the smallest that is at least one, or two larger values exist, or one does and the value before it is repeated |
| DiscreteSearch.TriedIncreases | src/plfit.c:1229-1252 | the values are tried in strictly increasing order |
| DiscreteSearch.LargestNotTried | src/plfit.c:1216-1229 | the largest value is tried only when it is the only one |
| DiscreteSearch.ThreeValuesLeft | src/plfit.c:1216-1232 | three distinct values remain at every cutoff exactly when the third from the top occurs once |
| DiscreteSearch.TwoValuesTried | src/plfit.c:1216-1232 | a sample on which only two remain |
| DiscreteSearch.BestIsTail | src/plfit.c:1234-1248 | the result is the first best of the tried cutoffs, with exponent and distance of the tail of all samples at or above it, and their number |

## Left out

- IEEE rounding, NaN, infinities and overflow: the theorems are about exact arithmetic. A division by
  zero gives some value (`Quot`), the root of a negative number is unspecified, and a curvature of
  exactly zero, by which `lbfgs` divides, ends the modelled run as `Undefined`; the theorems say when
  neither can happen.
- Memory: allocation failure, alignment and release. The correction vectors and the saved point and
  gradient are values held by the buffer and the object, not arrays.
- LbfgsDriver.Lbfgs: does not model m = 0, for which the C code divides by m; a bound on the number of iterations
  looked at stands for a run without `max_iterations`, whose end nothing guarantees.
- Kernels.Vec2NormInv: does not model the infinity that the zero vector gives, nor does SseKernels.Vec2NormInv;
  `lbfgs` stops before it could ask for that (`Optimizer.Start`).
- PaddedRun.PaddedRunIsRun: does not cover runs with L1 regularisation.
- BracketRun.CleanTolerances: does not cover a search that meets a slope of exactly zero at a trial it rejects, or
  whose first step is below `min_step`.
- MoreThuente.LineSearchMoreThuente: the step argument of the evaluation callback is ignored, as objective
  functions have none.
- GoldenSection.Gss: does not model epsilon ≤ 0, for which the loop need not end. On a failure the C function leaves
  its two outputs alone; here they carry the best point so far.
- Binomial.BinomialGenerator.Rbinom: does not model the rejection method for means of 30 and more, a loop that ends with
  probability one only; the result is then `LargeMean`. Draws that run out give `OutOfDraws`.
- ContinuousSearch.Search: sorting is taken as given, as in DiscreteSearch.Search. The theorems assume
  what the estimator demands, positive samples; for others the C code reuses an old exponent.
- AliasSampler.WalkerAliasSampler.Init: does not model weights that add up to zero, by which the C code divides.
- MersenneTwister.Rng.FromWords: does not model how `rand()` makes the first words.
- The golden-section branch of `plfit_continuous`, which stores the last evaluation and adds one to
  the count (src/plfit.c:616-635).
- Finite-size correction, likelihoods, p-values and resampling after the search; Pareto and zeta
  sampling; the Hurwitz zeta and Kolmogorov functions; statistics, options, error handling.
- `vecset` and `vecmul`, which would add only easy members, and the single-precision kernels.
- The programs `plfit` and `plgen`, option parsing, language bindings and tests.
