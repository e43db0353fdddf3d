/** What the solver's own measures are: each is at most a tolerance exactly when every deviation it
    is the worst of is within it, absolutely for the plain measures and, for the scaled ones,
    relative to one of the terms the deviation came from. */
module QualityMeaning {
  import opened Vectors
  import opened LpModel
  import opened Quadratic
  import opened Farkas
  import opened Scales
  import opened OptimalityChecks
  import opened VerdictMeaning
  import opened Quality

  lemma WorstAtMost(s: seq<real>, tol: real)
    requires tol >= 0.0
    ensures Worst(s) <= tol <==> forall i :: 0 <= i < |s| ==> s[i] <= tol
  {
    MaxToBound(s, |s|, tol);
  }

  lemma MaxAtMost(a: real, b: real, tol: real)
    ensures Max(a, b) <= tol <==> a <= tol && b <= tol
  {
  }

  // ---- Primal -------------------------------------------------------------------------------------

  /** Outside no bound of magnitude below 1e30 by more than tol. */
  predicate WithinUsable(lo: Bound, v: real, hi: Bound, tol: real) {
    && (lo.Fin? && -1000000000000000000000000000000.0 < lo.v < 1000000000000000000000000000000.0 ==> lo.v - v <= tol)
    && (hi.Fin? && -1000000000000000000000000000000.0 < hi.v < 1000000000000000000000000000000.0 ==> v - hi.v <= tol)
  }

  predicate AllWithinUsable(lo: seq<Bound>, v: seq<real>, hi: seq<Bound>, tol: real)
    requires |lo| == |v| == |hi|
  {
    forall i :: 0 <= i < |v| ==> WithinUsable(lo[i], v[i], hi[i], tol)
  }

  lemma ExcessesMean(lo: seq<Bound>, v: seq<real>, hi: seq<Bound>, tol: real)
    requires |lo| == |v| == |hi| && tol >= 0.0
    ensures Worst(Excesses(lo, v, hi)) <= tol <==> AllWithinUsable(lo, v, hi, tol)
  {
    WorstAtMost(Excesses(lo, v, hi), tol);
    forall i | 0 <= i < |v| ensures Excesses(lo, v, hi)[i] <= tol <==> WithinUsable(lo[i], v[i], hi[i], tol) {}
  }

  /** The absolute measure is the least tolerance within which every column and row keeps its bounds. */
  lemma InfeasibilityMeans(m: Model, x: seq<real>, tol: real)
    requires m.Valid() && |x| == |m.cols| && tol >= 0.0
    ensures PrimalQualityOf(m, x).infeasibility <= tol <==>
      AllWithinUsable(m.colLower, x, m.colUpper, tol) && AllWithinUsable(m.rowLower, Times(m, x), m.rowUpper, tol)
  {
    hide Times, Worst, Objective, Max;
    ExcessesMean(m.colLower, x, m.colUpper, tol);
    ExcessesMean(m.rowLower, Times(m, x), m.rowUpper, tol);
    MaxAtMost(Worst(Excesses(m.colLower, x, m.colUpper)), Worst(Excesses(m.rowLower, Times(m, x), m.rowUpper)), tol);
  }

  /** The distance to a usable bound: what the scaled measure compares with its terms. */
  predicate ColumnUsable(m: Model, x: seq<real>, j: nat, tol: real)
    requires m.Valid() && |x| == |m.cols| && j < |x|
  {
    && (IsFiniteBound(m.colLower[j]) ==> SizeTolerates(x[j], tol, m.colLower[j].v - x[j]))
    && (IsFiniteBound(m.colUpper[j]) ==> SizeTolerates(x[j], tol, x[j] - m.colUpper[j].v))
  }

  ghost predicate RowUsable(m: Model, x: seq<real>, i: nat, tol: real)
    requires m.Valid() && |x| == |m.cols| && i < m.numRows
  {
    && (IsFiniteBound(m.rowLower[i]) ==> RowTolerates(m, x, i, tol, m.rowLower[i].v - Times(m, x)[i]))
    && (IsFiniteBound(m.rowUpper[i]) ==> RowTolerates(m, x, i, tol, Times(m, x)[i] - m.rowUpper[i].v))
  }

  lemma UsableRatio(lo: Bound, v: real, hi: Bound, scale: real, tol: real)
    requires scale >= 1.0 && tol >= 0.0
    ensures UsableExcess(lo, v, hi) / scale <= tol <==>
      (IsFiniteBound(lo) ==> (lo.v - v) / scale <= tol) && (IsFiniteBound(hi) ==> (v - hi.v) / scale <= tol)
  {
    hide Excess;
    ExcessRatio(UsableLower(lo), v, UsableUpper(hi), scale, tol);
  }

  lemma ScaledColumnsMean(m: Model, x: seq<real>, tol: real)
    requires m.Valid() && |x| == |m.cols| && tol >= 0.0
    ensures Worst(Scaled(Excesses(m.colLower, x, m.colUpper), OwnScale(x))) <= tol <==>
      forall j :: 0 <= j < |x| ==> ColumnUsable(m, x, j, tol)
  {
    var s := Scaled(Excesses(m.colLower, x, m.colUpper), OwnScale(x));
    WorstAtMost(s, tol);
    hide Worst, UsableExcess, SizeTolerates, Max, Abs, IsFiniteBound;
    forall j | 0 <= j < |x| ensures s[j] <= tol <==> ColumnUsable(m, x, j, tol) {
      UsableRatio(m.colLower[j], x[j], m.colUpper[j], OwnScale(x)[j], tol);
      FiniteHasValue(m.colLower[j]);
      FiniteHasValue(m.colUpper[j]);
      if m.colLower[j].Fin? { SizeRatio(x[j], tol, m.colLower[j].v - x[j]); }
      if m.colUpper[j].Fin? { SizeRatio(x[j], tol, x[j] - m.colUpper[j].v); }
    }
  }

  lemma FiniteHasValue(b: Bound)
    ensures IsFiniteBound(b) ==> b.Fin?
  {
  }

  lemma ScaledRowsMean(m: Model, x: seq<real>, tol: real)
    requires m.Valid() && |x| == |m.cols| && tol >= 0.0
    ensures Worst(Scaled(Excesses(m.rowLower, Times(m, x), m.rowUpper), RowScales(m, x))) <= tol <==>
      forall i :: 0 <= i < m.numRows ==> RowUsable(m, x, i, tol)
  {
    hide Times, RowScales;
    var a := Times(m, x);
    var s := Scaled(Excesses(m.rowLower, a, m.rowUpper), RowScales(m, x));
    WorstAtMost(s, tol);
    hide Worst, UsableExcess, RowTolerates, IsFiniteBound;
    forall i | 0 <= i < m.numRows ensures s[i] <= tol <==> RowUsable(m, x, i, tol) {
      UsableRatio(m.rowLower[i], a[i], m.rowUpper[i], RowScales(m, x)[i], tol);
      FiniteHasValue(m.rowLower[i]);
      FiniteHasValue(m.rowUpper[i]);
      if m.rowLower[i].Fin? { RowRatio(m, x, i, tol, m.rowLower[i].v - a[i]); }
      if m.rowUpper[i].Fin? { RowRatio(m, x, i, tol, a[i] - m.rowUpper[i].v); }
    }
  }

  /** The scaled measure likewise, relative to the value of a column and to the terms of a row. */
  lemma ScaledInfeasibilityMeans(m: Model, x: seq<real>, tol: real)
    requires m.Valid() && |x| == |m.cols| && tol >= 0.0
    ensures PrimalQualityOf(m, x).scaled <= tol <==>
      (forall j :: 0 <= j < |x| ==> ColumnUsable(m, x, j, tol))
      && (forall i :: 0 <= i < m.numRows ==> RowUsable(m, x, i, tol))
  {
    ScaledColumnsMean(m, x, tol);
    ScaledRowsMean(m, x, tol);
    hide Times, Worst, Objective, Max, ColumnUsable, RowUsable, Scaled, Excesses, OwnScale, RowScales;
    MaxAtMost(Worst(Scaled(Excesses(m.colLower, x, m.colUpper), OwnScale(x))),
        Worst(Scaled(Excesses(m.rowLower, Times(m, x), m.rowUpper), RowScales(m, x))), tol);
  }

  // ---- Dual ---------------------------------------------------------------------------------------

  /** A multiplier that prices a bound of no use is at most tol, unless the bounds are equal. */
  predicate SignUsable(mult: real, lo: Bound, hi: Bound, tol: real) {
    lo == hi || ((IsFiniteBound(lo) || mult <= tol) && (IsFiniteBound(hi) || -mult <= tol))
  }

  predicate SignsUsable(mult: seq<real>, lo: seq<Bound>, hi: seq<Bound>, tol: real)
    requires |mult| == |lo| == |hi|
  {
    forall i :: 0 <= i < |mult| ==> SignUsable(mult[i], lo[i], hi[i], tol)
  }

  lemma WrongSignsMean(mult: seq<real>, lo: seq<Bound>, hi: seq<Bound>, tol: real)
    requires |mult| == |lo| == |hi| && tol >= 0.0
    ensures Worst(WrongSigns(mult, lo, hi)) <= tol <==> SignsUsable(mult, lo, hi, tol)
  {
    WorstAtMost(WrongSigns(mult, lo, hi), tol);
    hide IsFiniteBound;
    forall i | 0 <= i < |mult| ensures WrongSigns(mult, lo, hi)[i] <= tol <==> SignUsable(mult[i], lo[i], hi[i], tol) {}
  }

  /** The stated reduced costs of a linear model are c - A'y to within tol. */
  predicate ReducedCostsWithin(m: Model, rowDual: seq<real>, colDual: seq<real>, tol: real)
    requires m.Valid() && |rowDual| == m.numRows && |colDual| == |m.cols|
  {
    m.hessian == [] ==> forall j :: 0 <= j < |colDual| ==>
      -tol <= m.colCost[j] - ColDot(m.cols[j], rowDual) - colDual[j] <= tol
  }

  lemma InconsistenciesMean(m: Model, rowDual: seq<real>, colDual: seq<real>, tol: real)
    requires m.Valid() && |rowDual| == m.numRows && |colDual| == |m.cols| && tol >= 0.0
    ensures Worst(Inconsistencies(m, rowDual, colDual)) <= tol <==> ReducedCostsWithin(m, rowDual, colDual, tol)
  {
    WorstAtMost(Inconsistencies(m, rowDual, colDual), tol);
    hide ColDot, Worst;
    forall j | 0 <= j < |colDual|
      ensures Inconsistencies(m, rowDual, colDual)[j] <= tol <==>
        (m.hessian == [] ==> -tol <= m.colCost[j] - ColDot(m.cols[j], rowDual) - colDual[j] <= tol) {}
  }

  lemma DualInfeasibilityMeans(m: Model, x: seq<real>, rowDual: seq<real>, colDual: seq<real>, tol: real)
    requires m.Valid() && |x| == |colDual| == |m.cols| && |rowDual| == m.numRows && tol >= 0.0
    ensures DualQualityOf(m, x, rowDual, colDual).infeasibility <= tol <==>
      && ReducedCostsWithin(m, rowDual, colDual, tol)
      && SignsUsable(Signed(m, colDual), m.colLower, m.colUpper, tol)
      && SignsUsable(Signed(m, rowDual), m.rowLower, m.rowUpper, tol)
  {
    InconsistenciesMean(m, rowDual, colDual, tol);
    WrongSignsMean(Signed(m, colDual), m.colLower, m.colUpper, tol);
    WrongSignsMean(Signed(m, rowDual), m.rowLower, m.rowUpper, tol);
    hide Worst, Max, ReducedCostsWithin, SignsUsable, Signed, Scaled, Times, RowScales, Inconsistencies, WrongSigns,
      ProductsWithSlack, Magnitude, JointScale, ColumnPriceScales, OwnScale, Repeat;
    var a, b, c := Worst(Inconsistencies(m, rowDual, colDual)),
        Worst(WrongSigns(Signed(m, colDual), m.colLower, m.colUpper)),
        Worst(WrongSigns(Signed(m, rowDual), m.rowLower, m.rowUpper));
    MaxAtMost(b, c, tol);
    MaxAtMost(a, Max(b, c), tol);
  }

  /** The multiplier times the distance to one of the usable bounds is at most tol; nothing is asked of equal
      bounds, of no usable bound, or of a value 1e30 or more from every one. */
  predicate SlackUsable(mult: real, v: real, lo: Bound, hi: Bound, tol: real) {
    || lo == hi
    || (!Near(v, lo) && !Near(v, hi))
    || (IsFiniteBound(lo) && Mul(Abs(mult), Abs(v - lo.v)) <= tol)
    || (IsFiniteBound(hi) && Mul(Abs(mult), Abs(v - hi.v)) <= tol)
  }

  /** A usable bound nearer than 1e30. */
  predicate Near(v: real, b: Bound) {
    IsFiniteBound(b) && Abs(v - b.v) < 1000000000000000000000000000000.0
  }

  lemma ProductMeans(mult: real, v: real, lo: Bound, hi: Bound, tol: real)
    requires tol >= 0.0
    ensures Product(mult, v, lo, hi) <= tol <==> SlackUsable(mult, v, lo, hi, tol)
  {
    var a, b := if lo.Fin? then Abs(v - lo.v) else 0.0, if hi.Fin? then Abs(v - hi.v) else 0.0;
    MulMin(Abs(mult), a, b, tol);
    hide Mul;
    MinIsMul(Abs(mult), a, b, tol);
  }

  lemma MinIsMul(f: real, a: real, b: real, tol: real)
    requires f >= 0.0
    ensures Mul(f, Min(a, b)) <= tol <==> Mul(f, a) <= tol || Mul(f, b) <= tol
  {
    MulMin(f, a, b, tol);
  }

  predicate SlacksUsable(mult: seq<real>, v: seq<real>, lo: seq<Bound>, hi: seq<Bound>, tol: real)
    requires |mult| == |v| == |lo| == |hi|
  {
    forall i :: 0 <= i < |v| ==> SlackUsable(mult[i], v[i], lo[i], hi[i], tol)
  }

  lemma ProductsMean(mult: seq<real>, v: seq<real>, lo: seq<Bound>, hi: seq<Bound>, tol: real)
    requires |mult| == |v| == |lo| == |hi| && tol >= 0.0
    ensures Worst(ProductsWithSlack(mult, v, lo, hi)) <= tol <==> SlacksUsable(mult, v, lo, hi, tol)
  {
    WorstAtMost(ProductsWithSlack(mult, v, lo, hi), tol);
    hide Product, SlackUsable, Worst;
    forall i | 0 <= i < |v|
      ensures Product(mult[i], v[i], lo[i], hi[i]) <= tol <==> SlackUsable(mult[i], v[i], lo[i], hi[i], tol) {
      ProductMeans(mult[i], v[i], lo[i], hi[i], tol);
    }
  }

  lemma ComplementarityMeasureMeans(m: Model, x: seq<real>, rowDual: seq<real>, colDual: seq<real>, tol: real)
    requires m.Valid() && |x| == |colDual| == |m.cols| && |rowDual| == m.numRows && tol >= 0.0
    ensures DualQualityOf(m, x, rowDual, colDual).complementarity <= tol <==>
      && SlacksUsable(Signed(m, colDual), x, m.colLower, m.colUpper, tol)
      && SlacksUsable(Signed(m, rowDual), Times(m, x), m.rowLower, m.rowUpper, tol)
  {
    ProductsMean(Signed(m, colDual), x, m.colLower, m.colUpper, tol);
    ProductsMean(Signed(m, rowDual), Times(m, x), m.rowLower, m.rowUpper, tol);
    hide Worst, Max, SlacksUsable, Signed, Scaled, Times, RowScales, Inconsistencies, WrongSigns, ProductsWithSlack,
      Magnitude, JointScale, ColumnPriceScales, OwnScale, Repeat;
    MaxAtMost(Worst(ProductsWithSlack(Signed(m, colDual), x, m.colLower, m.colUpper)),
              Worst(ProductsWithSlack(Signed(m, rowDual), Times(m, x), m.rowLower, m.rowUpper)), tol);
  }

  // ---- The scaled dual measure ----------------------------------------------------------------------

  /** The price scale of a column is the largest of 1, its cost and the terms of a_j.y, with the stated duals. */
  lemma PriceScaleMeans(m: Model, rowDual: seq<real>, j: nat, tol: real, v: real)
    requires m.Valid() && |rowDual| == m.numRows && j < |m.cols| && tol >= 0.0
    ensures Tolerated(v, tol, ColumnPriceScale(m, rowDual, j)) <==>
      || v <= tol || Tolerated(v, tol, Abs(m.colCost[j]))
      || exists k :: 0 <= k < |m.cols[j]| && Tolerated(v, tol, Abs(Term(m.cols[j][k], rowDual)))
  {
    hide Tolerated, Abs, Term, Max;
    var largest := ColumnScale(m.cols[j], rowDual, |m.cols[j]|, Abs(m.colCost[j]));
    MaxTolerates(tol, 1.0, largest, v);
    UnitTolerates(v, tol);
    ColumnScaleTolerates(m.cols[j], rowDual, |m.cols[j]|, Abs(m.colCost[j]), tol, v);
  }

  lemma ScaledMeans(s: seq<real>, scale: seq<real>, tol: real)
    requires |s| == |scale| && (forall i :: 0 <= i < |s| ==> scale[i] >= 1.0) && tol >= 0.0
    ensures Worst(Scaled(s, scale)) <= tol <==> forall i :: 0 <= i < |s| ==> s[i] <= Mul(tol, scale[i])
  {
    WorstAtMost(Scaled(s, scale), tol);
    hide Worst, Mul;
    forall i | 0 <= i < |s| ensures Scaled(s, scale)[i] <= tol <==> s[i] <= Mul(tol, scale[i]) {
      RatioAtMost(s[i], scale[i], tol);
      ToleratedIs(s[i], tol, scale[i]);
    }
  }

  lemma ToleratedIs(v: real, tol: real, size: real)
    ensures Tolerated(v, tol, size) <==> v <= Mul(tol, size)
  {
  }

  /** What the scaled measure asks of one multiplier: the sign within the tolerance of its scale, the product
      with the slack within the tolerance of that scale times the scale of the value. */
  predicate MultiplierUsable(mult: real, v: real, lo: Bound, hi: Bound, scale: real, valueScale: real, tol: real) {
    SignUsable(mult, lo, hi, Mul(tol, scale)) && SlackUsable(mult, v, lo, hi, Mul(tol, Mul(scale, valueScale)))
  }

  predicate ColumnDualUsable(m: Model, x: seq<real>, rowDual: seq<real>, colDual: seq<real>, j: nat, tol: real)
    requires m.Valid() && |x| == |colDual| == |m.cols| && |rowDual| == m.numRows && j < |x|
  {
    var scale := ColumnPriceScale(m, rowDual, j);
    && (m.hessian == [] ==> Abs(m.colCost[j] - ColDot(m.cols[j], rowDual) - colDual[j]) <= Mul(tol, scale))
    && MultiplierUsable(m.Sense() * colDual[j], x[j], m.colLower[j], m.colUpper[j], scale, Max(1.0, Abs(x[j])), tol)
  }

  predicate RowDualUsable(m: Model, x: seq<real>, rowDual: seq<real>, i: nat, tol: real)
    requires m.Valid() && |x| == |m.cols| && |rowDual| == m.numRows && i < |rowDual|
  {
    MultiplierUsable(m.Sense() * rowDual[i], Times(m, x)[i], m.rowLower[i], m.rowUpper[i],
        Max(1.0, Magnitude(rowDual)), RowScales(m, x)[i], tol)
  }

  lemma SignsScaledMean(mult: seq<real>, lo: seq<Bound>, hi: seq<Bound>, scale: seq<real>, tol: real)
    requires |mult| == |lo| == |hi| == |scale| && (forall i :: 0 <= i < |mult| ==> scale[i] >= 1.0) && tol >= 0.0
    ensures Worst(Scaled(WrongSigns(mult, lo, hi), scale)) <= tol <==>
      forall i :: 0 <= i < |mult| ==> SignUsable(mult[i], lo[i], hi[i], Mul(tol, scale[i]))
  {
    ScaledMeans(WrongSigns(mult, lo, hi), scale, tol);
    hide Worst, IsFiniteBound, Scaled;
    forall i | 0 <= i < |mult|
      ensures WrongSigns(mult, lo, hi)[i] <= Mul(tol, scale[i])
        <==> SignUsable(mult[i], lo[i], hi[i], Mul(tol, scale[i]))
    {
      MulLe(tol, 0.0, scale[i]);
      SignMeans(mult[i], lo[i], hi[i], Mul(tol, scale[i]));
    }
  }

  lemma SignMeans(mult: real, lo: Bound, hi: Bound, tol: real)
    requires tol >= 0.0
    ensures WrongSign(mult, lo, hi) <= tol <==> SignUsable(mult, lo, hi, tol)
  {
  }

  lemma ProductsScaledMean(mult: seq<real>, v: seq<real>, lo: seq<Bound>, hi: seq<Bound>, a: seq<real>, b: seq<real>,
                           tol: real)
    requires |mult| == |v| == |lo| == |hi| == |a| == |b| && tol >= 0.0
    requires forall i :: 0 <= i < |v| ==> a[i] >= 1.0 && b[i] >= 1.0
    ensures Worst(Scaled(ProductsWithSlack(mult, v, lo, hi), JointScale(a, b))) <= tol <==>
      forall i :: 0 <= i < |v| ==> SlackUsable(mult[i], v[i], lo[i], hi[i], Mul(tol, Mul(a[i], b[i])))
  {
    var joint := JointScale(a, b);
    ScaledMeans(ProductsWithSlack(mult, v, lo, hi), joint, tol);
    hide Worst, Product, SlackUsable, Scaled, Mul, JointScale;
    forall i | 0 <= i < |v|
      ensures ProductsWithSlack(mult, v, lo, hi)[i] <= Mul(tol, joint[i]) <==>
        SlackUsable(mult[i], v[i], lo[i], hi[i], Mul(tol, Mul(a[i], b[i])))
    {
      JointIsProduct(a[i], b[i], tol);
      assert joint[i] == Mul(a[i], b[i]) by { JointIs(a, b, i); }
      ProductMeans(mult[i], v[i], lo[i], hi[i], Mul(tol, joint[i]));
    }
  }

  lemma JointIs(a: seq<real>, b: seq<real>, i: nat)
    requires |a| == |b| && i < |a| && a[i] >= 1.0 && b[i] >= 1.0
    ensures JointScale(a, b)[i] == Mul(a[i], b[i])
  {
    MulLe(a[i], 1.0, b[i]);
  }

  lemma JointIsProduct(a: real, b: real, tol: real)
    requires a >= 1.0 && b >= 1.0 && tol >= 0.0
    ensures Mul(a, b) >= 1.0 && Mul(tol, Mul(a, b)) >= 0.0
  {
    MulLe(a, 1.0, b);
    MulLe(tol, 0.0, a * b);
  }

  lemma ColumnPartsMean(m: Model, x: seq<real>, rowDual: seq<real>, colDual: seq<real>, tol: real)
    requires m.Valid() && |x| == |colDual| == |m.cols| && |rowDual| == m.numRows && tol >= 0.0
    ensures var d, scale := Signed(m, colDual), ColumnPriceScales(m, rowDual);
      && Worst(Scaled(Inconsistencies(m, rowDual, colDual), scale)) <= tol
      && Worst(Scaled(WrongSigns(d, m.colLower, m.colUpper), scale)) <= tol
      && Worst(Scaled(ProductsWithSlack(d, x, m.colLower, m.colUpper), JointScale(scale, OwnScale(x)))) <= tol
      <==> forall j :: 0 <= j < |x| ==> ColumnDualUsable(m, x, rowDual, colDual, j, tol)
  {
    hide Worst, Max, Scaled, Inconsistencies, WrongSigns, ProductsWithSlack, Mul, JointScale, SignUsable, SlackUsable,
      ColDot, Abs, ColumnPriceScale;
    var d, scale := Signed(m, colDual), ColumnPriceScales(m, rowDual);
    ScaledMeans(Inconsistencies(m, rowDual, colDual), scale, tol);
    SignsScaledMean(d, m.colLower, m.colUpper, scale, tol);
    ProductsScaledMean(d, x, m.colLower, m.colUpper, scale, OwnScale(x), tol);
    ErrorsMean(m, rowDual, colDual, tol);
    ColumnItemsMean(m, x, rowDual, colDual, tol);
  }

  lemma ColumnItemsMean(m: Model, x: seq<real>, rowDual: seq<real>, colDual: seq<real>, tol: real)
    requires m.Valid() && |x| == |colDual| == |m.cols| && |rowDual| == m.numRows
    ensures var d, scale := Signed(m, colDual), ColumnPriceScales(m, rowDual);
      forall j :: 0 <= j < |x| ==>
      (ColumnDualUsable(m, x, rowDual, colDual, j, tol) <==>
        && (m.hessian == [] ==> Abs(m.colCost[j] - ColDot(m.cols[j], rowDual) - colDual[j]) <= Mul(tol, scale[j]))
        && SignUsable(d[j], m.colLower[j], m.colUpper[j], Mul(tol, scale[j]))
        && SlackUsable(d[j], x[j], m.colLower[j], m.colUpper[j], Mul(tol, Mul(scale[j], OwnScale(x)[j]))))
  {
    hide SignUsable, SlackUsable, ColDot, Abs, ColumnPriceScale, Mul, Model.Sense;
    forall j | 0 <= j < |x| ensures Signed(m, colDual)[j] == m.Sense() * colDual[j] {}
  }

  lemma RowPartsMean(m: Model, x: seq<real>, rowDual: seq<real>, tol: real)
    requires m.Valid() && |x| == |m.cols| && |rowDual| == m.numRows && tol >= 0.0
    ensures Max(1.0, Magnitude(rowDual)) >= 1.0
    ensures var y, a, scale := Signed(m, rowDual), Times(m, x), Repeat(Max(1.0, Magnitude(rowDual)), m.numRows);
      && Worst(Scaled(WrongSigns(y, m.rowLower, m.rowUpper), scale)) <= tol
      && Worst(Scaled(ProductsWithSlack(y, a, m.rowLower, m.rowUpper), JointScale(scale, RowScales(m, x)))) <= tol
      <==> forall i :: 0 <= i < m.numRows ==> RowDualUsable(m, x, rowDual, i, tol)
  {
    AtLeastOne(Magnitude(rowDual));
    hide Worst, Max, Scaled, WrongSigns, ProductsWithSlack, Mul, JointScale, SignUsable, SlackUsable, Magnitude, Times,
      RowScales;
    var y, scale := Signed(m, rowDual), Repeat(Max(1.0, Magnitude(rowDual)), m.numRows);
    SignsScaledMean(y, m.rowLower, m.rowUpper, scale, tol);
    ProductsScaledMean(y, Times(m, x), m.rowLower, m.rowUpper, scale, RowScales(m, x), tol);
    RowItemsMean(m, x, rowDual, tol);
  }

  lemma RowItemsMean(m: Model, x: seq<real>, rowDual: seq<real>, tol: real)
    requires m.Valid() && |x| == |m.cols| && |rowDual| == m.numRows
    ensures var y, scale := Signed(m, rowDual), Max(1.0, Magnitude(rowDual));
      forall i :: 0 <= i < m.numRows ==>
      (RowDualUsable(m, x, rowDual, i, tol) <==>
        && SignUsable(y[i], m.rowLower[i], m.rowUpper[i], Mul(tol, scale))
        && SlackUsable(y[i], Times(m, x)[i], m.rowLower[i], m.rowUpper[i], Mul(tol, Mul(scale, RowScales(m, x)[i]))))
  {
    hide SignUsable, SlackUsable, Mul, Times, RowScales, Magnitude, Max, Model.Sense;
    forall i | 0 <= i < m.numRows ensures Signed(m, rowDual)[i] == m.Sense() * rowDual[i] {}
  }

  /** The scaled dual measure: consistency, signs and slacks, each within the tolerance of its scale. */
  lemma ScaledDualMeans(m: Model, x: seq<real>, rowDual: seq<real>, colDual: seq<real>, tol: real)
    requires m.Valid() && |x| == |colDual| == |m.cols| && |rowDual| == m.numRows && tol >= 0.0
    ensures DualQualityOf(m, x, rowDual, colDual).scaled <= tol <==>
      && (forall j :: 0 <= j < |x| ==> ColumnDualUsable(m, x, rowDual, colDual, j, tol))
      && (forall i :: 0 <= i < m.numRows ==> RowDualUsable(m, x, rowDual, i, tol))
  {
    hide Worst, Max, Scaled, Times, RowScales, Inconsistencies, WrongSigns, ProductsWithSlack, Magnitude, Signed,
      Repeat,
      JointScale, ColumnDualUsable, RowDualUsable, DualQualityOf, ColumnPriceScales, OwnScale;
    ColumnPartsMean(m, x, rowDual, colDual, tol);
    RowPartsMean(m, x, rowDual, tol);
    ScaledParts(m, x, rowDual, colDual, tol);
  }

  lemma ErrorsMean(m: Model, rowDual: seq<real>, colDual: seq<real>, tol: real)
    requires m.Valid() && |rowDual| == m.numRows && |colDual| == |m.cols| && tol >= 0.0
    ensures forall j :: 0 <= j < |colDual| ==>
      (Inconsistencies(m, rowDual, colDual)[j] <= Mul(tol, ColumnPriceScale(m, rowDual, j)) <==>
        (m.hessian == [] ==>
           Abs(m.colCost[j] - ColDot(m.cols[j], rowDual) - colDual[j]) <= Mul(tol, ColumnPriceScale(m, rowDual, j))))
  {
    hide ColDot, ColumnPriceScale, Abs;
    forall j | 0 <= j < |colDual| ensures Mul(tol, ColumnPriceScale(m, rowDual, j)) >= 0.0 {
      MulLe(tol, 0.0, ColumnPriceScale(m, rowDual, j));
    }
  }

  lemma ScaledParts(m: Model, x: seq<real>, rowDual: seq<real>, colDual: seq<real>, tol: real)
    requires m.Valid() && |x| == |colDual| == |m.cols| && |rowDual| == m.numRows
    ensures var y, d, a := Signed(m, rowDual), Signed(m, colDual), Times(m, x);
      var colScale, rowScale := ColumnPriceScales(m, rowDual), Repeat(Max(1.0, Magnitude(rowDual)), m.numRows);
      DualQualityOf(m, x, rowDual, colDual).scaled <= tol <==>
        && Worst(Scaled(Inconsistencies(m, rowDual, colDual), colScale)) <= tol
        && Worst(Scaled(WrongSigns(d, m.colLower, m.colUpper), colScale)) <= tol
        && Worst(Scaled(WrongSigns(y, m.rowLower, m.rowUpper), rowScale)) <= tol
        && Worst(Scaled(ProductsWithSlack(d, x, m.colLower, m.colUpper), JointScale(colScale, OwnScale(x)))) <= tol
        && Worst(Scaled(ProductsWithSlack(y, a, m.rowLower, m.rowUpper), JointScale(rowScale, RowScales(m, x)))) <= tol
  {
    hide Worst, Scaled, Times, RowScales, Inconsistencies, WrongSigns, ProductsWithSlack, Magnitude, JointScale,
      ColumnPriceScales, OwnScale, Repeat;
  }
}
