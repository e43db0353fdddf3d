/** What the verifier's acceptance of an optimality claim proves. */
module OptimalityTheorems {
  import opened Prelude
  import opened Vectors
  import opened LpModel
  import opened Quadratic
  import opened Kkt
  import opened OptimalityChecks

  /** The earlier checks hold exactly: the point is feasible, the reduced costs are c + Qx - A'y,
      and every multiplier leans on a bound that exists. */
  ghost predicate ExactPoint(m: Model, p: Point)
    requires m.Valid() && p.Fits(m)
  {
    var y, d := Prices(m, p), Reduced(m, p);
    && Feasible(m, p.x)
    && d == ReducedCosts(m, p.x, y)
    && AllPriced(y, m.rowLower, m.rowUpper)
    && AllPriced(d, m.colLower, m.colUpper)
  }

  // ---- The accounting, item by item ---------------------------------------------------

  /** What the accounting leaves unexplained of one multiplier above the dual tolerance:
      the distance to the bound it prices beyond the distance to the nearest one. */
  function Unexplained(mult: real, v: real, lo: Bound, hi: Bound, scale: real, dualTol: real): real {
    if Abs(mult) <= dualTol * scale then 0.0
    else match NearestDistance(v, lo, hi)
      case None => 0.0
      case Some(nearest) => Abs(mult) * (Distance(v, PricedBound(mult, lo, hi)) - nearest)
  }

  /** A multiplier's part of the gap is its size times the distance to the bound it prices. */
  lemma GapIsDistance(mult: real, v: real, lo: Bound, hi: Bound)
    requires Within(lo, v, hi) && PricesRealBound(mult, lo, hi) && mult != 0.0
    ensures PricedGap(mult, v, lo, hi) == Abs(mult) * Distance(v, PricedBound(mult, lo, hi))
  {
    if mult > 0.0 {
      assert mult * v - mult * lo.v == mult * (v - lo.v);
    } else {
      assert mult * v - mult * hi.v == -mult * (hi.v - v);
    }
  }

  lemma NearestIsNearer(mult: real, v: real, lo: Bound, hi: Bound)
    requires PricesRealBound(mult, lo, hi) && mult != 0.0
    ensures NearestDistance(v, lo, hi).Some?
    ensures NearestDistance(v, lo, hi).value <= Distance(v, PricedBound(mult, lo, hi))
  {
  }

  lemma MinOfProducts(f: real, distance: real, nearest: real)
    requires f >= 0.0 && nearest <= distance
    ensures f * distance == Min(f * distance, f * nearest) + f * (distance - nearest)
  {
    MulLe(f, nearest, distance);
  }

  lemma GapSplits(mult: real, v: real, lo: Bound, hi: Bound, scale: real, dualTol: real)
    requires Within(lo, v, hi) && PricesRealBound(mult, lo, hi) && scale >= 1.0 && dualTol >= 0.0
    ensures PricedGap(mult, v, lo, hi) == Share(mult, v, lo, hi, scale, dualTol)
      + Unexplained(mult, v, lo, hi, scale, dualTol)
  {
    if mult == 0.0 {
      MulLe(dualTol, 0.0, scale);
    } else {
      hide Distance, NearestDistance, PricedBound, PricedGap, Min, Within;
      GapIsDistance(mult, v, lo, hi);
      NearestIsNearer(mult, v, lo, hi);
      MinOfProducts(Abs(mult), Distance(v, PricedBound(mult, lo, hi)), NearestDistance(v, lo, hi).value);
    }
  }

  function ColumnUnexplained(m: Model, x: seq<real>, y: seq<real>, d: seq<real>, dualTol: real): (r: seq<real>)
    requires m.Valid() && |x| == |d| == |m.cols| && |y| == m.numRows
    ensures |r| == |x|
    ensures forall j :: 0 <= j < |x| ==>
      r[j] == Unexplained(d[j], x[j], m.colLower[j], m.colUpper[j], PriceScale(m, x, y, j), dualTol)
  {
    seq(|x|, j requires 0 <= j < |x| =>
        Unexplained(d[j], x[j], m.colLower[j], m.colUpper[j], PriceScale(m, x, y, j), dualTol))
  }

  function RowUnexplained(m: Model, x: seq<real>, y: seq<real>, dualTol: real): (r: seq<real>)
    requires m.Valid() && |x| == |m.cols| && |y| == m.numRows
    ensures |r| == m.numRows
    ensures forall i :: 0 <= i < m.numRows ==>
      r[i] == Unexplained(y[i], Times(m, x)[i], m.rowLower[i], m.rowUpper[i], DualNorm(y), dualTol)
  {
    seq(m.numRows, i requires 0 <= i < m.numRows =>
      Unexplained(y[i], Times(m, x)[i], m.rowLower[i], m.rowUpper[i], DualNorm(y), dualTol))
  }

  function TotalUnexplained(m: Model, x: seq<real>, y: seq<real>, d: seq<real>, dualTol: real): real
    requires m.Valid() && |x| == |d| == |m.cols| && |y| == m.numRows
  {
    Sum(ColumnUnexplained(m, x, y, d, dualTol)) + Sum(RowUnexplained(m, x, y, dualTol))
  }

  lemma ColumnGapsSplit(m: Model, x: seq<real>, y: seq<real>, d: seq<real>, dualTol: real)
    requires m.Valid() && |d| == |m.cols| && |y| == m.numRows && InBox(m, x) && AllPriced(d, m.colLower, m.colUpper)
    requires dualTol >= 0.0
    ensures Sum(PricedGaps(d, x, m.colLower, m.colUpper))
            == Sum(ColumnShares(m, x, y, d, dualTol)) + Sum(ColumnUnexplained(m, x, y, d, dualTol))
  {
    hide PriceScale, Share, Unexplained, PricedGap;
    var g, s, u := PricedGaps(d, x, m.colLower, m.colUpper), ColumnShares(m, x, y, d, dualTol),
        ColumnUnexplained(m, x, y, d, dualTol);
    forall j | 0 <= j < |x| ensures g[j] == 1.0 * s[j] + 1.0 * u[j] {
      GapSplits(d[j], x[j], m.colLower[j], m.colUpper[j], PriceScale(m, x, y, j), dualTol);
    }
    SumToLinear(s, u, g, 1.0, 1.0, |x|);
  }

  lemma RowGapsSplit(m: Model, x: seq<real>, y: seq<real>, dualTol: real)
    requires m.Valid() && |y| == m.numRows && Feasible(m, x) && AllPriced(y, m.rowLower, m.rowUpper) && dualTol >= 0.0
    ensures Sum(PricedGaps(y, Times(m, x), m.rowLower, m.rowUpper))
            == Sum(RowShares(m, x, y, dualTol)) + Sum(RowUnexplained(m, x, y, dualTol))
  {
    hide DualNorm, Share, Unexplained, PricedGap;
    var a := Times(m, x);
    var g, s, u := PricedGaps(y, a, m.rowLower, m.rowUpper), RowShares(m, x, y, dualTol),
        RowUnexplained(m, x, y, dualTol);
    DualNormAtLeastOne(y);
    forall i | 0 <= i < m.numRows ensures g[i] == 1.0 * s[i] + 1.0 * u[i] {
      GapSplits(y[i], a[i], m.rowLower[i], m.rowUpper[i], DualNorm(y), dualTol);
    }
    SumToLinear(s, u, g, 1.0, 1.0, m.numRows);
  }

  lemma DualNormAtLeastOne(y: seq<real>)
    ensures DualNorm(y) >= 1.0
  {
  }

  // ---- The main results ---------------------------------------------------------------

  /** The gap, in the model's sense, is the accounted part plus the unexplained part. */
  lemma GapIsAccountedPlusUnexplained(m: Model, p: Point, dualTol: real)
    requires m.Valid() && p.Fits(m) && ExactPoint(m, p) && dualTol >= 0.0
    ensures var y, d := Prices(m, p), Reduced(m, p);
      Abs(Objective(m, p.x) - DualObjective(m, p.x, y, d))
      == Accounted(m, p.x, y, d, dualTol) + TotalUnexplained(m, p.x, y, d, dualTol)
  {
    hide Prices, Reduced, Objective, DualObjective, ReducedCosts, PricedGaps, ColumnShares, RowShares,
      ColumnUnexplained, RowUnexplained, Times, AllPriced;
    var y, d := Prices(m, p), Reduced(m, p);
    GapIdentity(m, p.x, y);
    ColumnGapsSplit(m, p.x, y, d, dualTol);
    RowGapsSplit(m, p.x, y, dualTol);
    GapsAreNonneg(m, p.x, y, d);
    SenseOfGap(m.Sense(), Objective(m, p.x), DualObjective(m, p.x, y, d),
               Sum(PricedGaps(y, Times(m, p.x), m.rowLower, m.rowUpper))
                   + Sum(PricedGaps(d, p.x, m.colLower, m.colUpper)));
  }

  lemma GapsAreNonneg(m: Model, x: seq<real>, y: seq<real>, d: seq<real>)
    requires m.Valid() && |d| == |m.cols| && |y| == m.numRows && Feasible(m, x)
    requires AllPriced(y, m.rowLower, m.rowUpper) && AllPriced(d, m.colLower, m.colUpper)
    ensures Sum(PricedGaps(y, Times(m, x), m.rowLower, m.rowUpper)) >= 0.0
    ensures Sum(PricedGaps(d, x, m.colLower, m.colUpper)) >= 0.0
  {
    PricedGapsNonneg(y, Times(m, x), m.rowLower, m.rowUpper);
    PricedGapsNonneg(d, x, m.colLower, m.colUpper);
  }

  lemma SenseOfGap(s: real, primal: real, dual: real, gap: real)
    requires (s == 1.0 || s == -1.0) && s * primal - s * dual == gap && gap >= 0.0
    ensures Abs(primal - dual) == gap
  {
    if s == 1.0 {
      assert 1.0 * primal - 1.0 * dual == primal - dual;
    } else {
      assert -1.0 * primal - -1.0 * dual == dual - primal;
    }
  }

  lemma GapTestIs(primal: real, dual: real, accounted: real, unexplained: real, tolerance: real)
    requires Abs(primal - dual) == accounted + unexplained
    ensures GapAccountedFor(primal, dual, accounted, tolerance) <==> unexplained <= tolerance * Max(1.0, Abs(primal))
  {
  }

  /** The strong-duality test is exact. When the other checks hold exactly it passes if and only
      if the multipliers above the dual tolerance leave no more than duality_tol * scale
      unexplained, each |multiplier| * (distance to its priced bound - distance to the nearest). */
  lemma AccountingIsExact(m: Model, p: Point, t: Tolerances)
    requires m.Valid() && p.Fits(m) && ExactPoint(m, p) && t.Valid()
    ensures StrongDualityOk(m, p, t) <==>
      TotalUnexplained(m, p.x, Prices(m, p), Reduced(m, p), t.dual) <= t.duality * Max(1.0, Abs(Objective(m, p.x)))
  {
    hide Prices, Reduced, Objective, DualObjective, Accounted, TotalUnexplained, ExactPoint;
    var y, d := Prices(m, p), Reduced(m, p);
    GapIsAccountedPlusUnexplained(m, p, t.dual);
    GapTestIs(Objective(m, p.x), DualObjective(m, p.x, y, d), Accounted(m, p.x, y, d, t.dual),
              TotalUnexplained(m, p.x, y, d, t.dual), t.duality);
  }

  /** What acceptance is worth: with the other checks exact, the objective at x is within
      duality_tol * max(1, |objective|) + accounted of every feasible point, for an LP of either
      sense and for a quadratic objective that is convex in minimise space. */
  lemma AcceptedIsNearOptimal(m: Model, p: Point, t: Tolerances, z: seq<real>)
    requires m.Valid() && p.Fits(m) && ExactPoint(m, p) && ConvexInMinimiseSpace(m) && StrongDualityOk(m, p, t)
    requires Feasible(m, z)
    ensures MinimiseObjective(m, p.x) <= MinimiseObjective(m, z)
              + (t.duality * Max(1.0, Abs(Objective(m, p.x)))
                 + Accounted(m, p.x, Prices(m, p), Reduced(m, p), t.dual))
  {
    hide Prices, Reduced, DualObjective, Accounted, ReducedCosts, AllPriced, Objective, ConvexInMinimiseSpace;
    var y, d := Prices(m, p), Reduced(m, p);
    WeakDuality(m, p.x, y, z);
    SenseOfBound(m.Sense(), Objective(m, p.x), DualObjective(m, p.x, y, d), MinimiseObjective(m, z),
                 t.duality * Max(1.0, Abs(Objective(m, p.x))) + Accounted(m, p.x, y, d, t.dual));
  }

  lemma SenseOfBound(s: real, primal: real, dual: real, other: real, slack: real)
    requires (s == 1.0 || s == -1.0) && Abs(primal - dual) <= slack && other >= s * dual
    ensures s * primal <= other + slack
  {
    if s == 1.0 {
      assert s * primal == primal && s * dual == dual;
    } else {
      assert s * primal == -primal && s * dual == -dual;
    }
  }

  // ---- Zero tolerance -----------------------------------------------------------------

  lemma WorstIsZero(s: seq<real>)
    requires Worst(s) <= 0.0
    ensures forall i :: 0 <= i < |s| ==> s[i] <= 0.0
  {
    MaxToBound(s, |s|, 0.0);
  }

  lemma NoExcess(lo: Bound, v: real, hi: Bound, scale: real)
    requires scale >= 1.0 && !lo.PosInf? && !hi.NegInf? && Excess(lo, v, hi) / scale <= 0.0
    ensures Within(lo, v, hi)
  {
    RatioSign(Excess(lo, v, hi), scale);
  }

  lemma RatioSign(a: real, scale: real)
    requires scale >= 1.0
    ensures a / scale <= 0.0 <==> a <= 0.0
  {
    if a > 0.0 { assert a / scale > 0.0; }
  }

  lemma ExactPrimal(m: Model, p: Point)
    requires m.Valid() && p.Fits(m)
    requires ColumnBoundsOk(m, p, EXACT) && RowActivityOk(m, p, EXACT)
    ensures Feasible(m, p.x)
  {
    hide Excess;
    WorstIsZero(ColumnExcesses(m, p.x));
    WorstIsZero(RowExcesses(m, p.x));
    forall j | 0 <= j < |p.x| ensures Within(m.colLower[j], p.x[j], m.colUpper[j]) {
      assert ColumnExcesses(m, p.x)[j] <= 0.0;
      NoExcess(m.colLower[j], p.x[j], m.colUpper[j], Max(1.0, Abs(p.x[j])));
    }
    forall i | 0 <= i < m.numRows ensures Within(m.rowLower[i], Times(m, p.x)[i], m.rowUpper[i]) {
      assert RowExcesses(m, p.x)[i] <= 0.0;
      NoExcess(m.rowLower[i], Times(m, p.x)[i], m.rowUpper[i], RowScales(m, p.x)[i]);
    }
  }

  lemma ExactReducedCosts(m: Model, p: Point)
    requires m.Valid() && p.Fits(m) && ReducedCostsOk(m, p, EXACT)
    ensures Reduced(m, p) == ReducedCosts(m, p.x, Prices(m, p))
  {
    if m.hessian == [] {
      hide ReducedCosts, PriceScale, Prices, Reduced;
      var y, d := Prices(m, p), Reduced(m, p);
      WorstIsZero(ReducedCostErrors(m, p.x, y, d));
      forall j | 0 <= j < |p.x| ensures d[j] == ReducedCosts(m, p.x, y)[j] {
        assert ReducedCostErrors(m, p.x, y, d)[j] <= 0.0;
        RatioSign(Abs(ReducedCosts(m, p.x, y)[j] - d[j]), PriceScale(m, p.x, y, j));
      }
    }
  }

  lemma NoSignViolation(mult: real, lo: Bound, v: real, hi: Bound, scale: real)
    requires scale >= 1.0 && Within(lo, v, hi) && SignViolation(mult, lo, hi) / scale <= 0.0
    ensures PricesRealBound(mult, lo, hi)
  {
    RatioSign(SignViolation(mult, lo, hi), scale);
  }

  lemma ExactSigns(m: Model, p: Point)
    requires m.Valid() && p.Fits(m) && Feasible(m, p.x) && ColumnSignsOk(m, p, EXACT) && RowSignsOk(m, p, EXACT)
    ensures AllPriced(Prices(m, p), m.rowLower, m.rowUpper) && AllPriced(Reduced(m, p), m.colLower, m.colUpper)
  {
    hide SignViolation, PriceScale, Prices, Reduced, DualNorm;
    var y, d := Prices(m, p), Reduced(m, p);
    WorstIsZero(ColumnSignViolations(m, p.x, y, d));
    WorstIsZero(RowSignViolations(m, y));
    forall j | 0 <= j < |d| ensures PricesRealBound(d[j], m.colLower[j], m.colUpper[j]) {
      assert ColumnSignViolations(m, p.x, y, d)[j] <= 0.0;
      NoSignViolation(d[j], m.colLower[j], p.x[j], m.colUpper[j], PriceScale(m, p.x, y, j));
    }
    DualNormAtLeastOne(y);
    forall i | 0 <= i < m.numRows ensures PricesRealBound(y[i], m.rowLower[i], m.rowUpper[i]) {
      assert RowSignViolations(m, y)[i] <= 0.0;
      NoSignViolation(y[i], m.rowLower[i], Times(m, p.x)[i], m.rowUpper[i], DualNorm(y));
    }
  }

  /** A complementary multiplier of a feasible value accounts for nothing at zero tolerance. */
  lemma NoShare(mult: real, v: real, lo: Bound, hi: Bound, scale: real)
    requires Within(lo, v, hi) && PricesRealBound(mult, lo, hi) && Complementarity(mult, v, lo, hi) <= 0.0
    ensures Share(mult, v, lo, hi, scale, 0.0) == 0.0
  {
    if mult != 0.0 {
      NearestIsNearer(mult, v, lo, hi);
      var f, nearest := Abs(mult), NearestDistance(v, lo, hi).value;
      var distance := Distance(v, PricedBound(mult, lo, hi));
      assert lo != hi ==> NearestSlack(v, lo, hi) == Some(nearest);
      assert lo == hi ==> nearest == 0.0;
      assert f * nearest <= 0.0;
      MulLe(f, 0.0, nearest);
      MulLe(f, nearest, distance);
    }
  }

  lemma ExactAccounting(m: Model, p: Point)
    requires m.Valid() && p.Fits(m) && ExactPoint(m, p) && ComplementarityOk(m, p, EXACT)
    ensures Accounted(m, p.x, Prices(m, p), Reduced(m, p), 0.0) == 0.0
  {
    hide Prices, Reduced, PriceScale, Share, Complementarity, DualNorm, Times, ReducedCosts;
    var y, d, a := Prices(m, p), Reduced(m, p), Times(m, p.x);
    WorstIsZero(Complementarities(y, a, m.rowLower, m.rowUpper));
    WorstIsZero(Complementarities(d, p.x, m.colLower, m.colUpper));
    forall j | 0 <= j < |p.x| ensures ColumnShares(m, p.x, y, d, 0.0)[j] == 0.0 {
      assert Complementarities(d, p.x, m.colLower, m.colUpper)[j] <= 0.0;
      NoShare(d[j], p.x[j], m.colLower[j], m.colUpper[j], PriceScale(m, p.x, y, j));
    }
    forall i | 0 <= i < m.numRows ensures RowShares(m, p.x, y, 0.0)[i] == 0.0 {
      assert Complementarities(y, a, m.rowLower, m.rowUpper)[i] <= 0.0;
      NoShare(y[i], a[i], m.rowLower[i], m.rowUpper[i], DualNorm(y));
    }
    SumToZero(ColumnShares(m, p.x, y, d, 0.0), |p.x|);
    SumToZero(RowShares(m, p.x, y, 0.0), m.numRows);
  }

  /** At zero tolerances a verified optimality claim is a proof of optimality. */
  lemma ExactAcceptanceIsOptimal(m: Model, p: Point)
    requires m.Valid() && p.Fits(m) && ConvexInMinimiseSpace(m)
    requires Judge(m, p, EXACT).Accepts()
    ensures ExactPoint(m, p) && IsOptimal(m, p.x)
  {
    hide ColumnBoundsOk, RowActivityOk, ReducedCostsOk, ColumnSignsOk, RowSignsOk, ComplementarityOk, StrongDualityOk,
      ActivityAgrees, ObjectiveAgrees, Accounted, Objective, Prices, Reduced, AllPriced, ConvexInMinimiseSpace;
    ExactPrimal(m, p);
    ExactReducedCosts(m, p);
    ExactSigns(m, p);
    ExactAccounting(m, p);
    forall z | Feasible(m, z) ensures MinimiseObjective(m, p.x) <= MinimiseObjective(m, z) {
      AcceptedIsNearOptimal(m, p, EXACT, z);
    }
  }

  // ---- Zero-tolerance acceptance is exactly the optimality conditions -----------------

  /** The file states the row activities, objective and reduced costs its point really has. */
  ghost predicate StatesTheTruth(m: Model, p: Point)
    requires m.Valid() && p.Fits(m)
  {
    && p.rowActivity == Times(m, p.x) && p.objective == Some(Objective(m, p.x))
    && Reduced(m, p) == ReducedCosts(m, p.x, Prices(m, p))
  }

  lemma NoGapIsTight(mult: seq<real>, v: seq<real>, lo: seq<Bound>, hi: seq<Bound>)
    requires |mult| == |v| == |lo| == |hi| && AllPriced(mult, lo, hi) && AllWithin(lo, v, hi)
    requires Sum(PricedGaps(mult, v, lo, hi)) == 0.0
    ensures AllTight(mult, v, lo, hi)
  {
    forall i | 0 <= i < |v| ensures PricedGaps(mult, v, lo, hi)[i] >= 0.0 {
      ContributionIsLowerBound(mult[i], lo[i], v[i], hi[i]);
    }
    SumToNonneg(PricedGaps(mult, v, lo, hi), |v|);
    forall i | 0 <= i < |v| ensures Tight(mult[i], v[i], lo[i], hi[i]) {
      assert PricedGaps(mult, v, lo, hi)[i] == 0.0;
      ZeroGapIsTight(mult[i], v[i], lo[i], hi[i]);
    }
  }

  lemma ZeroGapIsTight(mult: real, v: real, lo: Bound, hi: Bound)
    requires PricesRealBound(mult, lo, hi) && PricedGap(mult, v, lo, hi) == 0.0
    ensures Tight(mult, v, lo, hi)
  {
    if mult > 0.0 {
      assert mult * (v - lo.v) == 0.0;
    } else if mult < 0.0 {
      assert mult * (v - hi.v) == 0.0;
    }
  }

  lemma AcceptedIsKkt(m: Model, p: Point)
    requires m.Valid() && p.Fits(m) && Judge(m, p, EXACT).Accepts()
    ensures KktHolds(m, p.x, Prices(m, p)) && StatesTheTruth(m, p)
  {
    hide ColumnBoundsOk, RowActivityOk, ReducedCostsOk, ColumnSignsOk, RowSignsOk, ComplementarityOk,
      Accounted, Objective, Prices, Reduced, DualObjective, ReducedCosts, TotalUnexplained, AllTight;
    var y, d := Prices(m, p), Reduced(m, p);
    ExactPrimal(m, p);
    ExactReducedCosts(m, p);
    ExactSigns(m, p);
    ExactAccounting(m, p);
    GapIdentity(m, p.x, y);
    GapsAreNonneg(m, p.x, y, d);
    NoGapIsTight(y, Times(m, p.x), m.rowLower, m.rowUpper);
    NoGapIsTight(d, p.x, m.colLower, m.colUpper);
    WorstIsZero(Differences(Times(m, p.x), p.rowActivity));
    assert forall i :: 0 <= i < m.numRows ==> Differences(Times(m, p.x), p.rowActivity)[i] <= 0.0;
    assert p.rowActivity == Times(m, p.x);
  }

  lemma AllZeroIsNoWorst(s: seq<real>)
    requires forall i :: 0 <= i < |s| ==> s[i] <= 0.0
    ensures Worst(s) <= 0.0
  {
    MaxToBound(s, |s|, 0.0);
  }

  lemma TightPasses(mult: real, v: real, lo: Bound, hi: Bound, scale: real)
    requires Tight(mult, v, lo, hi) && Within(lo, v, hi) && scale >= 1.0
    ensures SignViolation(mult, lo, hi) / scale <= 0.0
    ensures Complementarity(mult, v, lo, hi) <= 0.0
    ensures Share(mult, v, lo, hi, scale, 0.0) == 0.0
    ensures PricesRealBound(mult, lo, hi)
  {
    if mult != 0.0 { assert PricedBound(mult, lo, hi) == Fin(v) && Distance(v, Fin(v)) == 0.0; }
  }

  lemma WithinPasses(lo: Bound, v: real, hi: Bound, scale: real)
    requires Within(lo, v, hi) && scale >= 1.0
    ensures Excess(lo, v, hi) / scale <= 0.0
  {
  }

  lemma KktPassesPrimal(m: Model, p: Point)
    requires m.Valid() && p.Fits(m) && Feasible(m, p.x) && StatesTheTruth(m, p)
    ensures ColumnBoundsOk(m, p, EXACT) && RowActivityOk(m, p, EXACT) && ActivityAgrees(m, p, EXACT)
    ensures ObjectiveAgrees(m, p, EXACT) && ReducedCostsOk(m, p, EXACT)
  {
    hide Excess, Objective, Prices, Reduced, ReducedCosts, PriceScale;
    forall j | 0 <= j < |p.x| ensures ColumnExcesses(m, p.x)[j] <= 0.0 {
      WithinPasses(m.colLower[j], p.x[j], m.colUpper[j], Max(1.0, Abs(p.x[j])));
    }
    forall i | 0 <= i < m.numRows ensures RowExcesses(m, p.x)[i] <= 0.0 {
      WithinPasses(m.rowLower[i], Times(m, p.x)[i], m.rowUpper[i], RowScales(m, p.x)[i]);
    }
    var y, d := Prices(m, p), Reduced(m, p);
    forall j | 0 <= j < |p.x| ensures ReducedCostErrors(m, p.x, y, d)[j] <= 0.0 {
      RatioSign(Abs(ReducedCosts(m, p.x, y)[j] - d[j]), PriceScale(m, p.x, y, j));
    }
    AllZeroIsNoWorst(ColumnExcesses(m, p.x));
    AllZeroIsNoWorst(RowExcesses(m, p.x));
    AllZeroIsNoWorst(Differences(Times(m, p.x), p.rowActivity));
    AllZeroIsNoWorst(ReducedCostErrors(m, p.x, y, d));
  }

  lemma KktPassesDual(m: Model, p: Point)
    requires m.Valid() && p.Fits(m) && KktHolds(m, p.x, Prices(m, p)) && StatesTheTruth(m, p)
    ensures ColumnSignsOk(m, p, EXACT) && RowSignsOk(m, p, EXACT) && ComplementarityOk(m, p, EXACT)
    ensures ExactPoint(m, p)
  {
    hide Prices, Reduced, ReducedCosts, PriceScale, DualNorm, SignViolation, Complementarity, Share, Tight;
    var y, d, a := Prices(m, p), Reduced(m, p), Times(m, p.x);
    DualNormAtLeastOne(y);
    forall j | 0 <= j < |p.x|
      ensures ColumnSignViolations(m, p.x, y, d)[j] <= 0.0
        && Complementarities(d, p.x, m.colLower, m.colUpper)[j] <= 0.0
      ensures PricesRealBound(d[j], m.colLower[j], m.colUpper[j])
    {
      TightPasses(d[j], p.x[j], m.colLower[j], m.colUpper[j], PriceScale(m, p.x, y, j));
    }
    forall i | 0 <= i < m.numRows
      ensures RowSignViolations(m, y)[i] <= 0.0 && Complementarities(y, a, m.rowLower, m.rowUpper)[i] <= 0.0
      ensures PricesRealBound(y[i], m.rowLower[i], m.rowUpper[i])
    {
      TightPasses(y[i], a[i], m.rowLower[i], m.rowUpper[i], DualNorm(y));
    }
    AllZeroIsNoWorst(ColumnSignViolations(m, p.x, y, d));
    AllZeroIsNoWorst(RowSignViolations(m, y));
    AllZeroIsNoWorst(Complementarities(d, p.x, m.colLower, m.colUpper));
    AllZeroIsNoWorst(Complementarities(y, a, m.rowLower, m.rowUpper));
  }

  /** At zero tolerance the verifier accepts exactly the files that state the truth about a
      point satisfying the optimality conditions. */
  lemma ExactAcceptanceIsKkt(m: Model, p: Point)
    requires m.Valid() && p.Fits(m)
    ensures Judge(m, p, EXACT).Accepts() <==> KktHolds(m, p.x, Prices(m, p)) && StatesTheTruth(m, p)
  {
    hide ColumnBoundsOk, RowActivityOk, ReducedCostsOk, ColumnSignsOk, RowSignsOk, ComplementarityOk, ActivityAgrees,
      ObjectiveAgrees, Accounted, Objective, Prices, Reduced, DualObjective, ReducedCosts, AllTight;
    if Judge(m, p, EXACT).Accepts() { AcceptedIsKkt(m, p); }
    if KktHolds(m, p.x, Prices(m, p)) && StatesTheTruth(m, p) {
      var y, d := Prices(m, p), Reduced(m, p);
      KktPassesPrimal(m, p);
      KktPassesDual(m, p);
      ExactAccounting(m, p);
      TightHasNoGap(y, Times(m, p.x), m.rowLower, m.rowUpper);
      TightHasNoGap(d, p.x, m.colLower, m.colUpper);
      GapIdentity(m, p.x, y);
      SenseOfGap(m.Sense(), Objective(m, p.x), DualObjective(m, p.x, y, d), 0.0);
    }
  }
}
