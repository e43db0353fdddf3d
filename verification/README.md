# Verified model of the SANKHYA certificate spine

SANKHYA solves linear, mixed-integer and convex quadratic programs. This project models the part
of it that decides whether an answer, or a proof that there is no answer, is right, and the part
that builds test models whose answer is known in advance.

Numbers are exact reals with every tolerance of the code kept as a named constant or a
parameter. A bound is minus infinity, a finite value, or plus infinity. A matrix is a list of
sparse columns, or of sparse rows where the code builds rows. Random draws are arbitrary
functions into the ranges they are drawn from, so a statement about a generator is about every
draw. The solver itself is a function from a model to a verdict of which only truthfulness is
used: an infeasible verdict is right, and a point that is returned satisfies the model.

## What is established

- **Proofs of infeasibility.** The C++ Farkas checker, at its own thresholds, pushes every feasible
  point beyond a norm of 10,000, and proves there is none when no coefficient was dropped; at zero
  tolerance its verdict is exact. Everything it accepts the independent Python checker accepts.
- **Irreducible subsystems.** The deletion filter, run against any truthful solver, reports
  conclusively only irreducible infeasible sets with a witness for every element, and it is conclusive
  whenever the solver decides the sub-models it asks about and the candidates clash. Of every run,
  conclusive or not, an element is left out only on a verdict of infeasibility without it. What it reports
  passes the independent check, and what that check accepts is infeasible and, unless it names an
  impossible bound beside other elements, irreducible.
- **Proofs of unboundedness.** Accepted rays keep points feasible and make the objective run away,
  for an LP with explicit slack at the real thresholds and for a convex QP minimisation at zero
  tolerance, although only two products are tested.
- **Optimality.** The verifier's strong-duality test with its accounting is exact, bounds the distance to
  the optimum, and at zero tolerance is equivalent to the optimality conditions, for LP and convex
  QP. The solver's own quality measures are related to it in both directions.
- **What the tests say.** Each test with tolerances - the two certificate checkers, the two ray checkers, the
  nine verdicts, the subsystem's violations and the solver's five measures - is an if-and-only-if over the file
  and the model, without the running maxima it is computed with.
- **Exact algorithms.** Rational elimination returns the rank, which for a balanced transportation
  problem is one below its number of rows; merit order with exhaustive commitment solves the
  unit-commitment MILP to within its guards; the decimal printer is exact and total on what it is given.
- **Generators.** The robustness, large-LP and refinery constructions are optimal at their stated
  point for every draw, and the transformations keep the optimum. The refinery's feasible points are
  exactly the plans the refinery can follow. Each line of an MPS file means what the format says.
  Writing an instance as MPS and reading it back restores its matrix, feasible points and objective,
  and the verifier accepts the generated optimum of the file.
- **The arena.** Ranges handed out are aligned, inside their blocks and disjoint over every sequence
  of operations.

## Where code and comment disagree

The model follows the code.

- `src/core/certificate.cpp:86-88` says that dropping small coefficients can only make a proof harder
  to pass. A smaller reachable side makes the margin larger; `Farkas.DroppingCanAcceptAFeasibleModel`
  is an accepted certificate of a feasible model. `Farkas.AcceptedIsProofIff` is the exact condition under
  which an accepted certificate is a contradiction, and the norm bound above holds in every case.
- `src/core/certificate.cpp:194-214` tests the curvature of a ray without turning it into minimise space,
  so for a maximisation a ray of a bounded problem can be accepted
  (`Rays.MaximisationRayCanBeWrong`). For a minimisation a curvature within the tolerance passes too
  (`Rays.MinimisationRayCanBeWrong`). The exact condition in both cases is `Rays.AcceptedRayRunsAwayIffFlat`.
- `tools/verify_solution_checks.py:303-309` scales the row test of a ray by the ray alone, the C++ code by the
  largest row term, and `tools/verify_solution_checks.py:315-321` has the smaller curvature margin, so the two ray
  checkers do not always agree (`RayChecks.SolverRayCanBeRejected`, `RayChecks.SolverCurvatureCanBeRejected`; exact
  condition `RayChecks.SolverRayIsAccepted`).
- `src/core/model.cpp:357-370` measures complementarity against the nearest bound, and not at all at a distance of
  1e30, so all measures can be zero away from the optimum (`Quality.ZeroMeasuresAreNotEnough`,
  `Quality.FarAwayIsNotMeasured`; exact condition `Quality.ZeroMeasuresAreKkt`).
- `include/sankhya/arena.hpp:68-73` says a reset keeps the largest block. It keeps the last one
  (`Arenas.ResetCanKeepTheSmallest`). Which requests keep the largest block last is
  `Arenas.RequestKeepsLargestIff` and, over whole runs, `Arenas.GrowingRequestsKeepLargest`.
- `bench/runners/generate_refinery_lp.py:140-152` says the remainder goes to the first crude that runs. It
  goes to crude 0 whenever there is one, running or not (`RefineryPlan.RemainderCanGoToAnIdleCrude`;
  exact condition `RefineryPlan.RemainderGoesToFirstRunningIff`). The total is right either way.

## Model

| member | source | states |
|---|---|---|
| LpModel.SumSwap | tools/verify_solution_checks.py:29-46 | the exchange of summation y.(Ax) = (A'y).x over sparse columns, with A'y summed column by column and Ax accumulated entry by entry |
| LpModel.TimesCombine | tools/verify_solution_checks.py:38-46 | the accumulated product is linear: A(su + tv) = s Au + t Av in every row |
| LpModel.ContributionIsLowerBound | tools/verify_solution_checks.py:12-26 | a multiplier times a value inside its bounds is never below what the bound it prices contributes |
| LpModel.AddNothing | tools/verify_solution_checks.py:42-43 | skipping a column at zero changes no activity |
| Farkas.FarkasProvesInfeasible | src/core/certificate.cpp:31-121 | the C++ checker accepts exactly the certificates that satisfy its tests: some multiplier, real row bounds, a bounded aggregate, and a margin above 1e-7 at the largest scale |
| Farkas.AggregateRows | src/core/certificate.cpp:47-67 | the first loop: real row bounds or refusal, and the required side of the aggregate |
| Farkas.AggregateColumns | src/core/certificate.cpp:70-81 | the second loop: A'y together with its largest term |
| Farkas.BoxReach | src/core/certificate.cpp:83-106 | the third loop: refusal exactly when a used direction is unbounded, otherwise what the box allows |
| Farkas.RequiredIsForced | src/core/certificate.cpp:44-67 | every feasible point makes the aggregate at least the required side |
| Farkas.BoxAllows | src/core/certificate.cpp:83-106 | no point of the box makes the aggregate exceed the reachable side by more than the dropped coefficients times the point's norm |
| Farkas.AcceptedMeansFarAway | src/core/certificate.cpp:83-116 | with the real thresholds, any feasible point of a model with an accepted certificate has 1-norm above 10,000 over the columns whose coefficient was dropped |
| Farkas.AcceptedMeansInfeasible | src/core/certificate.cpp:31-121 | when no nonzero coefficient was dropped, an accepted certificate proves that no feasible point exists |
| Farkas.ExactAtZeroTolerance | src/core/certificate.cpp:31-121 | at zero tolerance the accepted certificates are exactly those whose rows are priced on real bounds and whose aggregate no point of the column box satisfies, except that a box empty by itself is not noticed |
| Farkas.ContradictionIsShortfall | src/core/certificate.cpp:83-116 | no point of the box satisfies the aggregate exactly when the box is empty or every coefficient is bounded and their reach stays below what is required |
| Farkas.ReachSplits | src/core/certificate.cpp:86-97 | reading small coefficients as zero takes their reach out of the comparison, which enlarges the margin exactly when that reach is positive |
| Farkas.AcceptedIsProofIff | src/core/certificate.cpp:83-116 | an accepted certificate is a contradiction if and only if every coefficient read as zero meets a bound where it leans and their reach does not use up the margin, or the box is empty |
| Farkas.DroppingCanAcceptAFeasibleModel | src/core/certificate.cpp:86-97 | dropping a small coefficient can make a proof pass: a certificate accepted although the model has a feasible point, and refused when the coefficient is kept |
| CertificateMeaning.AcceptsMeans | src/core/certificate.cpp:31-121 | at any tolerances the C++ test accepts if and only if some multiplier is nonzero, each leans on a bound its row has, every coefficient of A'y that is not negligible has the bound it prefers, and the shortfall exceeds the tolerance absolutely, relative to either side and relative to every term of A'y |
| CertificateMeaning.ProvesMeans | src/core/certificate.cpp:31-121 | the C++ thresholds are 1e-11 and 1e-7, those of the Python checker 1e-11 and 1e-9 |
| CertificateMeaning.RequiredIsPrice | src/core/certificate.cpp:47-67 | the required side is the product of the multipliers with the bounds they lean on |
| CertificateMeaning.ReachableIsKept | src/core/certificate.cpp:83-106 | the reachable side is the product of the coefficients that are not negligible with the bounds they prefer |
| CertificateMeaning.CheckerAcceptsMeans | tools/verify_solution_checks.py:213-258 | the Python test, at any tolerances, in the same terms |
| CertificateMeaning.SupportMeans | tools/verify_solution_checks.py:101-117 | a certificate stays inside a set if and only if no row outside it is priced and the coefficients that would lean on a bound outside it are negligible |
| CertificateMeaning.ViolationMeans | tools/verify_solution_checks.py:136-143 | an element's violation is within a tolerance if and only if neither bound is missed by more than it, absolutely or relative to the value or to a bound |
| Elements.WitnessedIsIis | src/core/iis.cpp:135-139 | a set with no common point and one witness per element is irreducible: every proper subset has a common point |
| Elements.RelaxedMeansSatisfies | src/core/iis.cpp:86-107 | a point is feasible for the restricted model exactly when it satisfies the elements that were kept |
| Elements.RelaxedAsksOnlyForFeasibility | src/core/iis.cpp:105-108 | with the costs cleared, every feasible point of a linear sub-model is optimal |
| Elements.LeansOnlyInside | src/core/iis.cpp:213-221 | a certificate of the restricted model has its support, and every bound its aggregate leans on, inside the kept elements |
| Elements.SameAggregate | src/core/iis.cpp:216-221 | restricted and original model give a certificate the same required side, reachable side and scale, so one that proves the first proves the second |
| DeletionFilter.SelectCandidates | src/core/iis.cpp:40-81 | the candidate rows and bounds are exactly those in the support of the certificate |
| DeletionFilter.CandidatesAreLeast | src/core/iis.cpp:36-81 | the candidates are the least set of elements inside which the support of the certificate lies |
| DeletionFilter.Restrict | src/core/iis.cpp:86-107 | the sub-model is the original with every non-candidate row and bound freed and the costs zeroed |
| DeletionFilter.TrialVerdict | src/core/iis.cpp:145-156 | what one truthful trial says about the working set without the candidate: no common point, or a witness of necessity |
| DeletionFilter.FilterRows | src/core/iis.cpp:158-177 | the row loop is the sweep over the rows: each candidate is dropped exactly on an infeasible verdict on the working set without it; the sub-model stays the restriction to the working set, and every surviving row has a point for all the others when no solve ended undecided |
| DeletionFilter.FilterLowers | src/core/iis.cpp:179-194 | the lower-bound loop is the sweep over the lower bounds, from where the rows left off |
| DeletionFilter.FilterUppers | src/core/iis.cpp:196-211 | the upper-bound loop is the sweep over the upper bounds |
| DeletionFilter.Filter | src/core/iis.cpp:125-211 | the three loops are one sweep over all candidates, with evidence for each surviving element when no solve ended undecided |
| DeletionFilter.TrialDecides | src/core/iis.cpp:143-177 | a candidate is in the final set if and only if its own trial did not end infeasible, and a trial that ends undecided makes the run inconclusive |
| DeletionFilter.SweepStaysInfeasible | src/core/iis.cpp:125-140 | over any order of trials, dropping elements on true verdicts leaves a set without a common point |
| DeletionFilter.EvidenceShrinks | src/core/iis.cpp:135-139 | evidence found against an earlier, larger working set is evidence against every later one |
| DeletionFilter.Certify | src/core/iis.cpp:213-236 | the final certificate is established exactly when the last solve is infeasible and hands over one that proves the original model; it then leans only on the reported elements |
| DeletionFilter.CertificateTransfers | src/core/iis.cpp:216-221 | a certificate accepted on the restricted model is accepted on the original and reaches nothing outside it |
| DeletionFilter.CandidatesCarryTheProof | src/core/iis.cpp:86-89 | the solver's certificate proves the candidate-only sub-model as well |
| DeletionFilter.CandidatesHaveNoCommonPoint | src/core/iis.cpp:86-89 | with no nonzero coefficient dropped, the candidates alone have no common point |
| DeletionFilter.CollectWitnesses | src/core/iis.cpp:238-269 | the reported order and the witnesses match, every element has one, and together they make the set irreducible |
| DeletionFilter.Compute | src/core/iis.cpp:36-269 | of every run, conclusive or not: what is reported is what the sweep leaves; an element is left out only on an infeasible verdict on a set without it, and kept only when its own trial was not infeasible; the set has no common point when the candidates have none; the certificate is the final one whenever established and the caller's otherwise; and the run is inconclusive exactly when a solve ended undecided or no final certificate was established. A conclusive run reports an irreducible infeasible set with a witness for every element and a certificate inside it; with a solver that decides the sub-models, a run is inconclusive exactly when the candidates have a common point |
| DeletionFilter.UndecidedRunKeepsAll | src/core/iis.cpp:141-156 | a run in which no solve ends infeasible reports all candidates, the caller's certificate, no witness, and is inconclusive |
| DeletionFilter.SomeSolverDecides | src/core/iis.cpp:213-236 | a truthful solver that decides every sub-model of a run exists if and only if each irreducible part of the candidates has a certificate that passes |
| DeletionFilter.IrreducibleCandidatesAreProvable | src/core/iis.cpp:86-89 | that is so whenever the candidates are already irreducible |
| DeletionFilter.ContradictionIsDecided | src/core/iis.cpp:36-269 | a model, certificate and truthful solver for which every sub-model is decided and the candidates have no common point |
| DeletionFilter.ComputeIis | src/core/iis.cpp:29-279 | only the certificate and the subsystem fields of the solution change, and only for an infeasible verdict with a certificate and the option on; the certificate left is the one given or a proof inside the reported set |
| Solutions.Solution.VerifyAndKeepCertificate | src/core/certificate.cpp:222-251 | which certificate survives: the one given if it proves, its negation if that proves, none otherwise; a ray only if it proves |
| Solutions.KeptCertificateProves | src/core/certificate.cpp:222-241 | any certificate that is kept pushes every feasible point beyond the 10,000 norm bound |
| Solutions.Solution.RecomputeQuality | src/core/model.cpp:247-441 | the recomputed fields are the quality measures of the point and duals held, or unchanged when their lengths do not fit; the gaps are those to the stated dual bound |
| Reports.Report.Check | tools/verify_solution.py:50-63 | a check appends one line and keeps the failure count equal to the number of failed lines |
| Reports.NoFailuresIffAllPass | tools/verify_solution.py:50-63 | the failure count is zero exactly when every line passed |
| CertificateChecks.VerifyFarkas | tools/verify_solution_checks.py:180-264 | the lines the certificate check appends, for every certificate including none and for each early return |
| CertificateChecks.VerifyAggregate | tools/verify_solution_checks.py:223-263 | the lines about the aggregate: bounded above, then a contradiction by more than the margin |
| CertificateChecks.AccumulateTranspose | tools/verify_solution_checks.py:29-35 | the loop computes A'y |
| CertificateChecks.AccumulateTimes | tools/verify_solution_checks.py:38-46 | the loop computes Ax although it skips columns at zero |
| CertificateChecks.FarkasLinesPass | tools/verify_solution_checks.py:180-264 | the report is clean exactly when no certificate is offered or the one offered is accepted |
| CertificateChecks.CheckersAgree | tools/verify_solution_checks.py:226-261 | whatever the C++ checker accepts this checker accepts, despite other loops, scales and margins |
| CertificateChecks.CheckerIsSound | tools/verify_solution_checks.py:180-201 | with nothing dropped, a certificate this checker accepts proves infeasibility |
| CertificateChecks.CheckedMeansFarAway | tools/verify_solution_checks.py:235-261 | at its real thresholds, any feasible point of a model with an accepted certificate has norm times the largest term above 100, the norm over the columns read as zero |
| IisChecks.VerifyIis | tools/verify_solution_checks.py:49-177 | the lines the subsystem check appends, with each of its early returns |
| IisChecks.CheckInside | tools/verify_solution_checks.py:100-126 | the support test: true exactly when the certificate's rows and the bounds its aggregate leans on all belong to the set |
| IisChecks.CheckWitness | tools/verify_solution_checks.py:145-173 | no failure is recorded exactly when the witness violates its own element and no other |
| IisChecks.CheckWitnesses | tools/verify_solution_checks.py:145-177 | all witnesses pass, or some failure is recorded |
| IisChecks.IisLinesPass | tools/verify_solution_checks.py:78-177 | the report on a claimed set is clean exactly when every name exists, the certificate is inside it and every witness passes |
| IisChecks.ConclusiveIsAccepted | src/core/iis.cpp:213-269 | end to end: whatever the filter reports conclusively passes the certificate check, and the subsystem check exactly when each witness violates its element by more than the tolerance, which at zero tolerance they do unless a row has an infinite bound on the wrong side |
| IisChecks.AcceptedIsIrreducible | tools/verify_solution_checks.py:49-65 | whatever the two checks accept at zero tolerance, with nothing dropped, is infeasible on its own; it is irreducible if and only if an element with an infinite bound on the wrong side, if it names one, is the whole set |
| Quadratic.DotHessianTimes | tools/verify_solution_mps.py:40-52 | y.(Qx), with Q expanded from its lower triangle, is the bilinear form in which each off-diagonal entry counts twice |
| Quadratic.FormAtUnits | src/core/certificate.cpp:190-207 | between two coordinates the form is the entry of Q: a stored off-diagonal entry stands on both sides of the diagonal |
| Quadratic.FormSymmetric | tools/verify_solution_mps.py:40-52 | the expanded form is symmetric |
| Quadratic.FormExpand | tools/verify_solution_mps.py:54-62 | the form of u + tv expands into its three parts |
| Quadratic.ZeroCurvatureMeansNull | src/core/certificate.cpp:194-207 | for a positive semidefinite Q, d'Qd = 0 implies that Qd is orthogonal to every direction |
| Quadratic.ObjectiveAlong | src/core/model.cpp:101-128 | the objective along a direction is a parabola with the linear and quadratic coefficients the checkers test |
| Rays.RayProvesUnbounded | src/core/certificate.cpp:123-220 | the C++ ray checker accepts exactly the rays that satisfy its tests at its thresholds |
| Rays.MeasureActivity | src/core/certificate.cpp:152-163 | the loop computes A d and its largest term, skipping columns that do not move |
| Rays.MeasureCurvature | src/core/certificate.cpp:194-207 | the lower-triangle curvature sum equals the full quadratic form d'Qd |
| Rays.LinearRay | src/core/certificate.cpp:130-192 | from any feasible point of an LP and for every t >= 0: column bounds exceeded by at most t*1e-7*max(abs(d)), row bounds by at most t*1e-7*max(1, largest row term), objective lower by at least t*1e-7*max(1, largest cost term), and by more when t > 0 |
| Rays.RayStaysFeasible | src/core/certificate.cpp:140-175 | at zero tolerance an accepted ray never leaves the feasible set |
| Rays.AcceptedRayRunsAwayIffFlat | src/core/certificate.cpp:177-214 | at any tolerance, the solver's included, and convex in minimise space, the objective runs away along an accepted ray exactly when its curvature is zero |
| Rays.AcceptedRayOfMinimisation | src/core/certificate.cpp:123-220 | for a convex minimisation every ray accepted at zero tolerance is a proof: the points stay feasible and the objective falls below every bound |
| Rays.MaximisationRayCanBeWrong | src/core/certificate.cpp:194-214 | the curvature is not turned into minimise space, so a ray of a bounded concave maximisation is accepted |
| Rays.MinimisationRayCanBeWrong | src/core/certificate.cpp:208-214 | a curvature within the tolerance passes, so a ray of a bounded convex minimisation is accepted |
| RayMeaning.AcceptsMeans | src/core/certificate.cpp:123-220 | at any tolerance the C++ test accepts if and only if the direction is not zero, moves no column or row against a bound it has beyond the tolerance, relative to its largest step or to a term of A d, and the objective falls by more than the tolerance, absolutely and relative to every term of c.d, without curving back |
| RayMeaning.CleanRayIsAccepted | src/core/certificate.cpp:123-220 | a direction that raises nothing bounded above and lowers nothing bounded below, whose objective falls by more than 1e-7 and more than 1e-7 of every cost term, with no curvature, is accepted |
| RayMeaning.AcceptedIsRecession | src/core/certificate.cpp:123-220 | at zero tolerance, in a model with a feasible point, a direction is accepted if and only if it can be followed for ever from every feasible point, c.d falls and d'Qd is not positive |
| RayMeaning.CheckerAcceptsMeans | tools/verify_solution_checks.py:284-321 | the Python test of a ray, at any tolerances, in the same terms |
| RayChecks.VerifyRay | tools/verify_solution_checks.py:267-322 | the lines the Python ray check appends, with none offered, a zero ray, and each of the tests |
| RayChecks.RayLinesPass | tools/verify_solution_checks.py:288-321 | the report is clean exactly when the ray is accepted |
| RayChecks.AgreeAtZeroTolerance | tools/verify_solution_checks.py:267-281 | at zero tolerance the two ray checkers are the same test |
| RayChecks.SolverRayIsAccepted | tools/verify_solution_checks.py:293-321 | this checker accepts a ray the C++ checker proved if and only if its row activities are also still at the ray's own scale and, for a QP, its curvature also passes the smaller margin |
| RayChecks.SolverRayCanBeRejected | tools/verify_solution_checks.py:303-309 | the condition can fail: a proved ray with a row of large cancelling terms is rejected |
| RayChecks.SolverCurvatureCanBeRejected | tools/verify_solution_checks.py:315-321 | the curvature condition can fail: the ray of a barely curved minimisation that the C++ checker proves is rejected |
| Kkt.GapIdentity | tools/verify_solution.py:507-511 | primal minus dual is exactly the sum over rows and columns of multiplier times (value minus priced bound) |
| Kkt.WeakDuality | tools/verify_solution.py:498-551 | correctly signed prices bound every feasible objective by the dual objective, Dorn's dual for a convex QP |
| Kkt.AboveTangent | tools/verify_solution.py:546-551 | a convex objective lies above its tangent, which is what subtracting x'Qx/2 accounts for |
| Kkt.TightHasNoGap | tools/verify_solution.py:408-429 | multipliers that are zero off their tight bound leave no gap |
| Kkt.KktIsOptimal | tools/verify_solution.py:315-323 | a feasible point with tight prices is optimal, LP or convex QP, either sense |
| OptimalityChecks.Verify | tools/verify_solution.py:158-168 | the report lines of a point with an optimality claim: column bounds, rows, agreement, objective and the dual checks, in order |
| OptimalityChecks.Examine | tools/verify_solution.py:158-254 | every verdict is the one the measures define, an infinite bound on the wrong side being an infinite violation |
| OptimalityChecks.ExamineDuals | tools/verify_solution.py:315-558 | the dual verdicts: reduced costs, both sign checks, complementarity and strong duality |
| OptimalityChecks.MeasureRows | tools/verify_solution.py:204-213 | the loop computes Ax and each row's largest term although it skips columns at zero |
| OptimalityChecks.MeasureHessian | tools/verify_solution_mps.py:40-52 | the loop computes Qx from the lower triangle |
| VerdictMeaning.VerdictMeans | tools/verify_solution.py:158-558 | at the verifier's own tolerances each of the nine verdicts holds if and only if its condition does, written over the file and the model: with 1e-6 for activities, reduced costs and products, 1e-9 for the objective, and the three arguments for the rest |
| VerdictMeaning.ColumnBoundsMean | tools/verify_solution.py:158-168 | the column check passes if and only if no bound is an infinity on the wrong side and each value is outside its bounds by at most the tolerance, absolutely or relative to the value |
| VerdictMeaning.RowActivityMeans | tools/verify_solution.py:204-223 | the row check passes if and only if no bound is an infinity on the wrong side and each activity is outside its bounds by at most the tolerance, absolutely or relative to some term of the row |
| VerdictMeaning.ActivityMeans | tools/verify_solution.py:226-233 | every stated activity is the recomputed one to within the tolerance |
| VerdictMeaning.ObjectiveMeans | tools/verify_solution.py:242-256 | an objective is stated and is offset + c.x + x'Qx/2 to within the tolerance, absolutely or relative to it |
| VerdictMeaning.ReducedCostsMean | tools/verify_solution.py:338-356 | for a linear model every stated reduced cost is c_j - a_j.y in minimise space to within the tolerance, absolutely or relative to one of its terms |
| VerdictMeaning.ColumnSignsMean | tools/verify_solution.py:383-394 | unless its bounds are equal, a reduced cost that prices a missing bound is at most the tolerance, absolutely or relative to the cost or a term of a_j.y |
| VerdictMeaning.RowSignsMean | tools/verify_solution.py:396-406 | likewise for row prices, relative to the largest of them |
| VerdictMeaning.ComplementarityLineMeans | tools/verify_solution.py:408-449 | unless its bounds are equal, a multiplier times the distance to one of its bounds is at most the tolerance; without a bound the multiplier itself is |
| VerdictMeaning.ShareMeans | tools/verify_solution.py:526-536 | what one multiplier accounts for: the whole of it within the dual tolerance, otherwise no more than any bound makes of it and exactly what one of them or the priced one does |
| VerdictMeaning.DualObjectiveIsPrice | tools/verify_solution.py:498-505 | the dual objective is the product of the multipliers with the bounds they price, in the model's sense, plus the constant, minus x'Qx/2 |
| VerdictMeaning.StrongDualityMeans | tools/verify_solution.py:552-558 | the gap beyond the accounted shares is at most the tolerance, absolutely or relative to the objective |
| OptimalityTheorems.GapIsAccountedPlusUnexplained | tools/verify_solution.py:507-545 | for a feasible point with exact, correctly signed duals the gap is the accounted part plus the unexplained part |
| OptimalityTheorems.AccountingIsExact | tools/verify_solution.py:507-558 | the strong-duality test passes if and only if the sum, over multipliers above the dual tolerance, of abs(multiplier) times (distance to priced bound minus distance to nearest) is at most duality_tol * scale |
| OptimalityTheorems.AcceptedIsNearOptimal | tools/verify_solution.py:498-558 | with the other checks exact, the objective is within duality_tol * max(1, abs(objective)) + accounted of every feasible point, for an LP of either sense and a QP convex in minimise space |
| OptimalityTheorems.ExactAcceptanceIsOptimal | tools/verify_solution.py:158-558 | at zero tolerances an accepted point is a global optimum |
| OptimalityTheorems.ExactAcceptanceIsKkt | tools/verify_solution.py:158-558 | at zero tolerances acceptance is equivalent to the optimality conditions together with truthful statements in the file |
| Quality.MeasurePrimal | src/core/model.cpp:252-304 | the primal loops compute the largest violation and the largest scaled violation |
| Quality.MeasureDual | src/core/model.cpp:306-435 | the dual loops compute the largest inconsistency, wrong sign and product |
| Quality.ScaledPrimalIsSmaller | src/core/model.cpp:274-302 | the scaled primal measure never exceeds the absolute one and is zero exactly when it is |
| Quality.ZeroExcessIsFeasible | src/core/model.cpp:280-302 | the primal measure is zero exactly at feasible points |
| Quality.ZeroItemIsTight | src/core/model.cpp:335-370 | an item with no wrong sign and no product is tight exactly when it is neither at the wrong end of its bounds nor 1e30 or more away from both |
| Quality.ConsistentMeansReduced | src/core/model.cpp:371-397 | the consistency residual is zero exactly when the reduced costs are c - A'y |
| Quality.ZeroMeasuresAreKkt | src/core/model.cpp:252-435 | for an LP, all measures zero with no multiplier at a wrong end or 1e30 or more from its bounds is equivalent to the optimality conditions |
| Quality.ZeroMeasuresAreNotEnough | src/core/model.cpp:357-370 | all measures can be zero at a point that is not optimal: minimise -x over [0, 1] at x = 0 |
| Quality.FarAwayIsNotMeasured | src/core/model.cpp:363-370 | and with no multiplier at a wrong end: minimise x over x >= 0 at x = 1e30, whose distance to the bound is not recorded |
| Quality.AcceptedHasZeroMeasures | src/core/model.cpp:335-370 | for an LP, acceptance by the verifier at zero tolerance makes every primal and dual measure zero |
| QualityMeaning.InfeasibilityMeans | src/core/model.cpp:274-304 | the absolute primal measure is at most a tolerance if and only if no column or row misses a bound of magnitude below 1e30 by more |
| QualityMeaning.ScaledInfeasibilityMeans | src/core/model.cpp:263-304 | the scaled one likewise, each miss relative to the value of the column or to a term of the row |
| QualityMeaning.DualInfeasibilityMeans | src/core/model.cpp:384-435 | the absolute dual measure is at most a tolerance if and only if the stated reduced costs of a linear model are c - A'y to within it and no multiplier beyond it prices a bound of no use |
| QualityMeaning.ScaledDualMeans | src/core/model.cpp:321-435 | the scaled dual measure is at most a tolerance if and only if, for each column and row, consistency and sign are within the tolerance of its price scale and the product with the slack within the tolerance of that scale times the scale of the value |
| QualityMeaning.PriceScaleMeans | src/core/model.cpp:321-330 | a column's price scale is the largest of 1, its cost and the terms of a_j.y |
| QualityMeaning.ComplementarityMeasureMeans | src/core/model.cpp:357-370 | the complementarity measure is at most a tolerance if and only if each multiplier times the distance to one of its usable bounds is, where there is one nearer than 1e30 |
| ExactRank.ExactRank | data/casestudies/matrix_stats.py:46-65 | the result is the rank: that many independent vectors span exactly the row space of the input |
| ExactRank.FindPivot | data/casestudies/matrix_stats.py:52-54 | the first usable pivot at or below the current rank, or none |
| ExactRank.SubtractFrom | data/casestudies/matrix_stats.py:60-61 | updating only the columns from the pivot's rightward is the whole row operation, because the pivot row is zero to the left |
| ExactRank.ClearColumn | data/casestudies/matrix_stats.py:55-61 | clearing a column keeps the row space and extends the eliminated form by one pivot |
| ExactRank.ExchangeKeepsSpan | data/casestudies/matrix_stats.py:55 | swapping rows keeps the row space |
| ExactRank.SubtractKeepsSpan | data/casestudies/matrix_stats.py:59-61 | subtracting a multiple of another row keeps the row space |
| ExactRank.PivotsAreRank | data/casestudies/matrix_stats.py:50-65 | in an eliminated matrix the number of pivots is the rank |
| ExactRank.RankCountsRows | data/casestudies/matrix_stats.py:46-47 | some rank-many rows of the input are independent and span its row space, and no independent set in it is larger |
| LinearAlgebra.Steinitz | data/casestudies/matrix_stats.py:46-65 | more vectors than the spanning set has are dependent |
| LinearAlgebra.RankIsUnique | data/casestudies/matrix_stats.py:46-65 | the rank is one number |
| Dispatch.FillInMeritOrder | data/casestudies/dispatch_oracle.py:51-58 | the greedy loop raises units to their maximum in price order until the load is met, and leaves the rest at their minimum |
| Dispatch.MeritOrderIsCheapest | data/casestudies/dispatch_oracle.py:51-62 | an output in merit order is cheapest among all outputs in range with the same total |
| Dispatch.MeritOrderHasPrice | data/casestudies/dispatch_oracle.py:51-62 | an output in merit order has a price, one of its unit costs, at which no other output in range can buy or sell its difference in total and gain |
| Dispatch.DispatchPattern | data/casestudies/dispatch_oracle.py:40-62 | None if and only if one of the three guarded tests fails, and then nothing serves the load; otherwise an output in range, cheapest for its total, at its true cost, short of every serving dispatch by at most the stop guard and dearer by at most that guard times the largest amount a unit is paid |
| Dispatch.RefusedMeans | data/casestudies/dispatch_oracle.py:44-50 | the three tests refuse exactly the patterns of which no output in range reaches the load to within the guard, or all stay below the reserve by more than it |
| Dispatch.ExactDispatch | data/casestudies/dispatch_oracle.py:40-62 | with the guards at zero the greedy output is a minimum-cost dispatch of its pattern |
| Dispatch.PatternsAreAll | data/casestudies/dispatch_oracle.py:69 | the enumeration lists every commitment pattern |
| Dispatch.Search | data/casestudies/dispatch_oracle.py:65-76 | at any guards the running best costs at most 1e-9, and the slack of the stop guard, more than any serving dispatch of any pattern |
| Dispatch.MilpIsServed | data/casestudies/generate.py:137-153 | every feasible point of the unit-commitment MILP is a dispatch of its pattern at the same cost |
| Dispatch.ServedIsMilp | data/casestudies/generate.py:137-153 | every dispatch of a pattern is a feasible point of the MILP at the same cost |
| Dispatch.SearchIsOptimal | data/casestudies/dispatch_oracle.py:65-82 | at any guards no point of the MILP is cheaper than the best by more than 1e-9 and the slack of the stop guard, which is zero when no unit cost is negative; no result means the MILP is infeasible; with exact guards the best is itself a point of the MILP at its cost |
| RowLp.KktIsOptimal | bench/runners/robustness.py:93-100 | a point with tight prices is optimal for a program written row by row |
| RowLp.AppendedRow | bench/runners/robustness.py:175 | one more row is one more condition on the same points, with the same objective |
| Robustness.KktInstance | bench/runners/robustness.py:90-138 | whatever is drawn, the LP is the one the draws determine, satisfies the optimality conditions at the drawn point, which is optimal, and states that point's objective |
| Robustness.ChoosePoint | bench/runners/robustness.py:101-103 | the point is the drawn levels, with 3 in the first place when every level is zero |
| Robustness.ChooseRow | bench/runners/robustness.py:105-114 | a row is its drawn coefficients, or its one drawn fallback when they are all zero, so no row is empty |
| Robustness.ChoosePrices | bench/runners/robustness.py:122-123 | prices and reduced costs are the drawn ones: prices positive exactly on active rows, reduced costs zero where the point is positive |
| Robustness.PlaceRows | bench/runners/robustness.py:129-133 | active rows are tight at the point and the others below it by the drawn slack |
| Robustness.ConstructionHolds | bench/runners/robustness.py:95-100 | costs computed over the dense matrix satisfy the conditions of the sparse rows that are written |
| Robustness.Redundancy | bench/runners/robustness.py:182-197 | the added rows are the weighted sums of two active rows each, leave exactly the same points feasible, are tight at the optimum, and keep it optimal |
| Robustness.CombineRows | bench/runners/robustness.py:189-196 | wi times one active row plus wj times another, merged column by column, is implied by them and tight where they are |
| Robustness.AddToActivity | bench/runners/robustness.py:192-195 | adding into a dictionary of coefficients adds to the activity, whether the key was present or not |
| Robustness.NearParallel | bench/runners/robustness.py:161-174 | each twin is an active row with its smallest column shifted; twins only remove points, never the stated one, and are tight there, so the optimum is unchanged |
| Robustness.SmallestKey | bench/runners/robustness.py:171 | the smallest column of a row, which exists because no row is empty |
| Robustness.Conditioning | bench/runners/robustness.py:144-158 | the result is the base rescaled by the alternating row and column scales, so every optimum corresponds at the same objective |
| Scaling.ScalingKeepsFeasibility | bench/runners/robustness.py:146-158 | a point is feasible for the rescaled program exactly when the stretched point is for the original, at the same objective |
| Scaling.ScaledUnits | bench/runners/robustness.py:146-158 | row i and its bounds count r_i times what they counted, and column j is counted in units of t_j |
| Scaling.StretchShrink | bench/runners/robustness.py:147-153 | the change of variables is a bijection |
| Scaling.ScalingKeepsOptimum | bench/runners/robustness.py:14-17 | optima correspond in both directions at the same objective |
| Scaling.RescaledOptimum | data/casestudies/generate.py:245-251 | the same for a program written by columns |
| LargeLp.Build | bench/runners/generate_large_lp.py:99-154 | for every sparsity pattern and every draw, the built LP satisfies the optimality conditions, the drawn point is optimal and the stated optimum is its objective; prices, reduced costs, right-hand sides and bounds are the drawn ones |
| LargeLp.Activities | bench/runners/generate_large_lp.py:126-132 | the loop computes Ax although it skips columns at zero |
| LargeLp.PriceColumns | bench/runners/generate_large_lp.py:137-144 | c = A'y + d although rows without a price are skipped |
| CaseStudies.SupplyChain | data/casestudies/generate.py:181-223 | one column per plant and depot with its freight and two unit entries, supply and demand equalities |
| TransportRank.FeasibleIsShipping | data/casestudies/generate.py:200-223 | the feasible points are the nonnegative shipments in which every plant sends its supply and every depot receives its demand, and the objective is their freight |
| CaseStudies.IllConditioned | data/casestudies/generate.py:231-275 | the same columns and rows, each in its own units |
| CaseStudies.IllConditionedKeepsOptimum | data/casestudies/generate.py:243-251 | for every network and positive scales the ill-conditioned model has the same optimal objective, with x' = x / t, in both directions |
| TransportRank.LastRowIsRedundant | data/casestudies/generate.py:187-192 | the last demand row is a combination of the other rows |
| TransportRank.RankIsOneBelowRows | data/casestudies/generate.py:187-192 | for every network with a plant and a depot the rank of the constraint matrix is exactly one below its number of rows |
| Refinery.Instance.AddColumn | bench/runners/generate_refinery_lp.py:86-91 | the new state of the instance and the index returned |
| Refinery.Instance.AddRow | bench/runners/generate_refinery_lp.py:93-99 | the new state of the instance and the index returned |
| Refinery.Verify | bench/runners/generate_refinery_lp.py:297-329 | the self-check passes exactly when all its assertions hold |
| Refinery.PassesIsKkt | bench/runners/generate_refinery_lp.py:297-329 | the self-check is equivalent to the optimality conditions of the LP it is about |
| Refinery.PassingPlanIsOptimal | bench/runners/generate_refinery_lp.py:30-41 | any instance that passes has its plan optimal among all feasible plans |
| Refinery.PriceRows | bench/runners/generate_refinery_lp.py:263-275 | no assertion of the generator fails, each multiplier has the sign its row's sense demands, and where the row is tight its size is the drawn one |
| Refinery.PricedIsTight | bench/runners/generate_refinery_lp.py:262-279 | exactly the rows that hold with equality at the plan get a multiplier, of a size from 1 to 9 |
| Refinery.PriceColumns | bench/runners/generate_refinery_lp.py:282-293 | each reduced cost is the drawn price, with the sign its column's bounds demand |
| Refinery.Price | bench/runners/generate_refinery_lp.py:260-294 | from any plan that holds, the priced instance passes the self-check and every number in it is short |
| Refinery.EveryNumberPrints | bench/runners/generate_refinery_lp.py:349-379 | every coefficient, right-hand side, upper bound and cost, as a reduced fraction, is printable |
| RefineryPlan.ChooseYields | bench/runners/generate_refinery_lp.py:110-117 | each crude's yields are positive hundredths |
| RefineryPlan.YieldsSumToAtMostOne | bench/runners/generate_refinery_lp.py:108-115 | a crude's yields add up to its last cut point, at most one hundred hundredths |
| RefineryPlan.ChooseThroughput | bench/runners/generate_refinery_lp.py:139-155 | whole nonnegative throughputs: tight periods run their scaled-down parts with the remainder on the first crude, capacity exactly; loose ones are scaled down below it, or unchanged when they fit |
| RefineryPlan.GiveRemainder | bench/runners/generate_refinery_lp.py:147-152 | the whole remainder goes to the first crude, and the total is capacity exactly |
| RefineryPlan.RemainderGoesToFirstRunningIff | bench/runners/generate_refinery_lp.py:145-152 | the remainder lands on the first crude that runs if and only if there is none, or crude 0 times capacity reaches the total drawn |
| RefineryPlan.RemainderCanGoToAnIdleCrude | bench/runners/generate_refinery_lp.py:145-152 | three crudes drawing 0, 7 and 4 at capacity 60: crude 0 does not run and receives the barrel left over |
| RefineryPlan.StockCrudes | bench/runners/generate_refinery_lp.py:156-162 | purchases are what the tank is short of plus the drawn extra, so no stock is negative and each balance holds |
| RefineryPlan.SaleIsRoundedShare | bench/runners/generate_refinery_lp.py:172-178 | the rounded sale is on the hundredth grid, never negative, never more than available, and within a hundredth of the share |
| RefineryPlan.SellProduct | bench/runners/generate_refinery_lp.py:168-180 | over all periods: every sale is its rounded share, no stock is negative, everything stays on the hundredth grid |
| RefineryPlan.MakePlan | bench/runners/generate_refinery_lp.py:127-180 | whatever is drawn, the plan is the one the draws determine, every balance holds and no quantity is negative |
| RefineryPlan.PlanCrudes | bench/runners/generate_refinery_lp.py:138-162 | over all periods: throughputs and purchases follow the draws, stocks carry over and are never negative |
| RefineryPlan.PlanProducts | bench/runners/generate_refinery_lp.py:163-180 | every product's output is its yields of the run, its sales the rounded shares drawn, its stock never negative |
| RefineryColumns.SizeTanks | bench/runners/generate_refinery_lp.py:183-184 | each tank is its largest stock plus the drawn slack, so every stock fits |
| RefineryColumns.AddColumns | bench/runners/generate_refinery_lp.py:191-202 | every period's columns are at the planned values with their bounds, each at its own index |
| RefineryRows.RowIsOk | bench/runners/generate_refinery_lp.py:204-258 | every row of every family holds at the plan, names each column once, and has only short numbers |
| RefineryRows.BalanceHolds | bench/runners/generate_refinery_lp.py:206-212 | a balance row holds when stock = previous + in - out |
| RefineryRows.CapacityRowOk | bench/runners/generate_refinery_lp.py:231-235 | a row over the throughputs, its zeros left out, holds when its right-hand side covers the load |
| RefineryRows.BalanceMeans | bench/runners/generate_refinery_lp.py:206-212 | at any point a balance row holds if and only if the stock is what was carried over plus what comes in minus what goes out |
| RefineryMeaning.RowMeans | bench/runners/generate_refinery_lp.py:204-258 | at any point a row of each family holds if and only if its condition in the plant's terms does: crude and product balances, total run within capacity, output the yields of the run, unit loads within the plan's load plus the drawn slack, contaminant (quality times yield times run) within the plan's plus the drawn slack, sales at least the plan's minus the drawn cut |
| RefineryMeaning.FeasibleIsPlan | bench/runners/generate_refinery_lp.py:182-258 | the feasible points of the instance are exactly the plans that meet every such condition and keep runs within capacity, stocks within the tanks and sales within the demand, which is the plan's sale plus the drawn slack |
| RefineryBuild.BuildRow | bench/runners/generate_refinery_lp.py:205-258 | the row built for each family is the one specified |
| RefineryBuild.AddPeriodRows | bench/runners/generate_refinery_lp.py:205-258 | a period appends its rows family after family and changes nothing else |
| RefineryBuild.Build | bench/runners/generate_refinery_lp.py:102-294 | for every in-range draw no assertion fails, plan, tanks, rows, columns and prices are those the draws determine, the feasible points are exactly the plans the refinery can follow, exactly the tight rows are priced, the self-check passes, every number is short, and the plan is optimal |
| Decimals.Decimal | bench/runners/generate_refinery_lp.py:332-346 | refuses exactly the fractions whose denominator does not divide 10^12; otherwise the text read as a decimal is the very number given |
| Decimals.ShortOfWhole | bench/runners/generate_refinery_lp.py:332-343 | a number whose hundred-thousandfold is whole always prints |
| Decimals.ReducedDenominatorDivides | bench/runners/generate_refinery_lp.py:338 | in lowest terms, a denominator divides every power of ten that clears the fraction |
| Decimals.AssembledValue | bench/runners/generate_refinery_lp.py:343-346 | padding, then stripping trailing zeros and the point, keeps the value |
| Decimals.StrippedText | bench/runners/generate_refinery_lp.py:345 | the two strips remove the trailing zeros of the fraction and, if nothing is left, the point; never a digit of the whole part |
| Mps.WriteMps | bench/runners/robustness.py:222-274 | the lines written, section by section, with RANGES and BOUNDS present only when they have a line |
| Mps.GatherByColumn | bench/runners/robustness.py:236-243 | the row dictionaries regrouped by column, costs first, zeros left out |
| Mps.ParseMps | tools/verify_solution_mps.py:129-339 | the model read is the state after all lines with each row resolved to normalised bounds; none when a line cannot be read |
| MpsReading.BoundLineMeans | tools/verify_solution_mps.py:263-311 | for each of the six bound types, what the column admits from below and from above after the line, and that nothing else changes; any other type cannot be read, a missing value is zero and the name of the set says nothing |
| MpsReading.UnknownColumnIsRefused | tools/verify_solution_mps.py:267-269 | a bound of a column that was never named cannot be read |
| MpsReading.RowMeans | tools/verify_solution_mps.py:314-336 | for each row type, right-hand side b and range R, the activities the resolved row admits: G from b up by the size of R, L from b down by it, E between b and b + R, and one-sided or exact without a range; limits of 1e30 and more are infinite |
| MpsReading.ColumnMeans | tools/verify_solution_mps.py:331-338 | the values a resolved column admits, with its cost, entries and the constant |
| MpsReading.RhsLineMeans | tools/verify_solution_mps.py:220-242 | a right-hand side of r on the objective lowers the constant by r, one of a row replaces the row's, one of a dropped row says nothing, any other name cannot be read |
| MpsReading.RangeLineMeans | tools/verify_solution_mps.py:220-242 | a range of a row replaces the row's; one of the objective or a dropped row says nothing |
| MpsReading.RowLineMeans | tools/verify_solution_mps.py:171-195 | the first N row is the objective, later ones are dropped, and an L, G or E row comes last with right-hand side zero and no range |
| MpsReading.ColumnLineMeans | tools/verify_solution_mps.py:197-218 | a coefficient of the objective adds to the cost, one of a row is one more entry, one of a dropped row says nothing, any other name cannot be read |
| MpsReading.NewColumnMeans | tools/verify_solution_mps.py:69-81 | a new column costs nothing, has no entries and admits exactly the nonnegative values |
| MpsReading.SetNameSaysNothing | tools/verify_solution_mps.py:220-226 | a line of right-hand sides or ranges reads the same without the name of its set |
| MpsReading.LineSplits | tools/verify_solution_mps.py:226-242 | a line with several pairs reads as one line for some of them and one for the others |
| MpsReading.ColumnLineSplits | tools/verify_solution_mps.py:209-215 | so does a line of coefficients |
| MpsReading.FileSplits | tools/verify_solution_mps.py:129-339 | a file reads the same with such a line split, wherever it stands |
| MpsReading.NothingAfterEnd | tools/verify_solution_mps.py:160-161 | no line after ENDATA changes what was read |
| Mps.NamesDiffer | bench/runners/robustness.py:234-247 | generated names are distinct and never collide with the set names or the objective |
| Mps.NormalisedIsIdentity | tools/verify_solution_mps.py:331-338 | a bound survives normalisation exactly when it is infinite or of magnitude below 1e30 |
| MpsRoundTrip.RowsRead | tools/verify_solution_mps.py:171-195 | reading the ROWS lines gives the row index, types and empty right-hand sides |
| MpsRoundTrip.ColumnsRead | tools/verify_solution_mps.py:197-218 | reading the COLUMNS lines gives the column index, costs and entries |
| MpsRoundTrip.SameNonzeros | tools/verify_solution_mps.py:209-215 | the entries read are exactly the nonzeros written, in their places and as often as they were written |
| MpsRoundTrip.RhsRead | tools/verify_solution_mps.py:220-242 | reading the RHS lines gives every right-hand side, zero where none was written |
| MpsRoundTrip.RangesRead | tools/verify_solution_mps.py:220-242 | reading the RANGES lines gives every range |
| MpsRoundTrip.AllBoundsRead | tools/verify_solution_mps.py:263-311 | reading the BOUNDS lines gives every column's bounds |
| MpsRoundTrip.BoundsComeBack | tools/verify_solution_mps.py:277-285 | a column's bounds come back exactly unless its lower bound is zero and its upper bound negative |
| MpsRoundTrip.RowComesBack | tools/verify_solution_mps.py:314-330 | type, right-hand side and range together restore both bounds of an ordered row |
| MpsRoundTrip.WrittenIsRead | tools/verify_solution_mps.py:129-339 | the reader accepts every file the writer writes |
| MpsRoundTrip.RereadRestores | bench/runners/robustness.py:222-274 | whatever the reader makes of the file of a program with ordered rows restores its costs, nonzeros and bounds |
| MpsRoundTrip.RoundTrip | bench/runners/robustness.py:222-274 | the lines are those of the written file, and what is returned is what the reader makes of them: costs, nonzeros, row bounds and column bounds, up to the normalisation of huge bounds |
| MpsRoundTrip.ModerateBoundsComeBack | tools/verify_solution_mps.py:331-338 | with ordered bounds of magnitude below 1e30 every bound comes back as it was |
| MpsMeaning.GatheredColumn | bench/runners/robustness.py:236-243 | a gathered column times any prices is what the rows add up to in that column |
| MpsMeaning.SameActivities | bench/runners/robustness.py:222-274 | Ax computed from the columns read equals Ax computed from the rows written |
| MpsMeaning.RereadMeansTheSame | bench/runners/robustness.py:222-274 | with ordered bounds below 1e30, what is read from the written file has the same activities, feasible points and objective as the program |
| MpsMeaning.RereadHasTheSameOptima | bench/runners/robustness.py:222-274 | what is read from the written file has the same optimal points as the program |
| MpsMeaning.StatedPointIsAccepted | tools/verify_solution.py:158-558 | what is read from the file of a program, judged at zero tolerance at a point with tight prices, is accepted |
| MpsMeaning.GenerateAndVerify | bench/runners/robustness.py:90-138 | generator, writer, reader and verifier together: the instance and prices are the drawn ones, the lines are those of its file, the model is what the reader makes of them, and the verifier's verdict on it at the stated optimum is acceptance whenever the right-hand sides are below 1e30 |
| Bits.AlignUpIsLeastMultiple | include/sankhya/arena.hpp:102-104 | the bit-mask gives the least multiple of a power of two at or above the value |
| Arenas.Arena.constructor | include/sankhya/arena.hpp:30 | a new arena holds nothing |
| Arenas.Arena.AddBlock | include/sankhya/arena.hpp:106-111 | a new block is last, empty and distinct from the others; what was handed out stays valid |
| Arenas.Arena.AllocateBytes | include/sankhya/arena.hpp:38-49 | an aligned range of the requested size inside the last block, disjoint from everything handed out since the last reset; a new block exactly when it does not fit, of the size the request asks for |
| Arenas.Arena.AllocateZeroed | include/sankhya/arena.hpp:59-66 | the range is cleared and no other live byte changes |
| Arenas.Arena.ReservedCoversLast | include/sankhya/arena.hpp:93-97 | live bytes never exceed reserved bytes, which are the sum of the block sizes |
| Arenas.Arena.Reset | include/sankhya/arena.hpp:68-82 | nothing is live, and the last block alone is kept |
| Arenas.Arena.Release | include/sankhya/arena.hpp:84-91 | no block is kept and every count is zero |
| Arenas.ResetCanKeepTheSmallest | include/sankhya/arena.hpp:68-72 | the block kept can be smaller than one that was dropped |
| Arenas.RequestKeepsLargestIff | include/sankhya/arena.hpp:38-49 | a request leaves a largest block last exactly when it opens one that no other exceeds, or opens none and a largest one was last already |
| Arenas.GrowingRequestsKeepLargest | include/sankhya/arena.hpp:68-82 | over every run of requests that ask for ever larger blocks, with any resets and releases, a reset keeps a largest block |
| Arenas.SmallRequestsKeepLargest | include/sankhya/arena.hpp:68-82 | so it does when every request fits a block of the standard size |
| Arenas.TwoRequestsLoseTheLargestIff | include/sankhya/arena.hpp:68-73 | two requests of a fresh arena make the reset drop the larger block exactly when the second does not fit beside the first and asks for less |

## Left out

- The engines: simplex, first-order, interior point, LU and LDL factorisations, presolve, cuts and branch
  and bound are not part of this model; a solve is a truthful oracle.
- IEEE rounding, NaN and negative zero: all arithmetic is exact, and nothing is claimed about float error.
- Message texts, logging, profiling, timers and option plumbing, including the sub-solve options and time
  limit of the deletion filter.
- Names of rows and columns outside the MPS pair: a row or column is its index. Missing names in a solution
  file and the structure check on them are not modelled.
- `verify` of the Python verifier for integer models, limits and other statuses that claim no optimality, its
  solution pool, basis and ranging checks, and the dual bound.
- OptimalityChecks.Verify: covers a pure LP or QP with status optimal; the integrality, pool, basis and
  ranging lines are not produced.
- Quality.ZeroMeasuresAreKkt: assumes bounds below 1e30 in magnitude, as readers produce; larger ones count as
  infinite in the measures only.
- Solutions.Solution.RecomputeQuality: the integrality measure is not modelled, since the models here have no
  integer columns.
- ExactRank: the copy of the input and its reading from floats are not modelled beyond exact values.
- Dispatch: printing, the name-keyed dictionary (units are numbered) and the order of equal-cost units other than
  the stable sort.
- Dispatch.SearchIsOptimal: that the best is itself a point of the MILP is stated with the float guards at zero, since
  with positive guards the output may miss the load or the reserve by them.
- Robustness: running the solver and recording results; `cost_ratio` and `degeneracy` are calls of the same
  construction with other parameters, covered by `Robustness.KktInstance` for every parameter.
- LargeLp: where the nonzeros of a column go (random sampling and the staircase) is an arbitrary input, and the
  MPS text of this generator is not modelled.
- CaseStudies: the lot-sizing and other case studies and the fixed-format text they are written in.
- RefineryPlan: sampling without repetition of unit loads, specifications and commitments is an arbitrary input
  of the right shape; crude quantities are stored by period rather than by crude.
- RefineryMeaning: row and column names are their positions; the file text around the printed numbers is not
  modelled.
- Mps: works on fields, not characters: column alignment, comments, blank lines, the spelling of headers, upper
  and lower case, and the text of numbers (taken as exact) are not modelled.
- Mps.ParseMps: OBJSENSE, QUADOBJ, MARKER, the integer bound types, names with blanks, the fixed-format retry and
  infinite coefficients are not modelled; such input is refused.
- MpsRoundTrip.RoundTrip: assumes rows with lower bound at most upper bound, as the writer's width does.
- Arenas: sizes are naturals with the requested size and alignment together at most half the address space, as
  for any C++ object; exhaustion of memory, move construction and typed allocation are not modelled.
- Threads, devices, the command line, the C interface, downloads, CSV and Markdown output, and other scripts.
