/** What each line of the optimality verifier says of the file, at the tolerances it is run with:
    every deviation is within its tolerance, absolutely or relative to one of the terms it came
    from. */
module VerdictMeaning {
  import opened Prelude
  import opened Vectors
  import opened LpModel
  import opened Quadratic
  import opened Farkas
  import opened Kkt
  import opened Scales
  import opened OptimalityChecks

  // ---- Scales ---------------------------------------------------------------------------------

  /** v is at most tol, or at most tol relative to a term that an entry of row i contributes. */
  ghost predicate RowTolerates(m: Model, x: seq<real>, i: nat, tol: real, v: real)
    requires m.Valid() && |x| == |m.cols|
  {
    v <= tol || exists j, k :: 0 <= j < |x| && 0 <= k < |m.cols[j]| && m.cols[j][k].row == i
                               && Tolerated(v, tol, Abs(Mul(m.cols[j][k].val, x[j])))
  }

  /** v is at most tol, or at most tol relative to the cost of column j or to a term of a_j.y. */
  ghost predicate ColumnTolerates(m: Model, x: seq<real>, y: seq<real>, j: nat, tol: real, v: real)
    requires m.Valid() && |x| == |m.cols| && |y| == m.numRows && j < |x|
  {
    || v <= tol || Tolerated(v, tol, Abs(Cost(m, x)[j]))
    || exists k :: 0 <= k < |m.cols[j]| && Tolerated(v, tol, Abs(Term(m.cols[j][k], y)))
  }

  /** The largest term of each row: raising by a column adds that column's terms. */
  lemma {:induction false} RaisedTolerates(out: seq<real>, col: seq<Entry>, xj: real, k: nat, i: nat, tol: real,
      v: real)
    requires k <= |col| && ValidColumn(col, |out|) && i < |out| && tol >= 0.0
    ensures Tolerated(v, tol, RaiseColumnTo(out, col, xj, k)[i]) <==>
      Tolerated(v, tol, out[i])
      || exists q :: 0 <= q < k && col[q].row == i && Tolerated(v, tol, Abs(Mul(col[q].val, xj)))
  {
    hide Tolerated, Abs, Mul, Max;
    if k > 0 {
      RaisedTolerates(out, col, xj, k - 1, i, tol, v);
      var before, e := RaiseColumnTo(out, col, xj, k - 1), col[k - 1];
      if e.row == i { MaxTolerates(tol, before[i], Abs(Mul(e.val, xj)), v); }
    }
  }

  lemma {:induction false} ScaleTolerates(m: Model, x: seq<real>, n: nat, i: nat, tol: real, v: real)
    requires m.Valid() && |x| == |m.cols| && n <= |x| && i < m.numRows && tol >= 0.0
    ensures Tolerated(v, tol, RowScalesTo(m, x, n)[i]) <==>
      v <= tol || exists j, k :: 0 <= j < n && 0 <= k < |m.cols[j]| && m.cols[j][k].row == i
                                 && Tolerated(v, tol, Abs(Mul(m.cols[j][k].val, x[j])))
  {
    hide Tolerated, Abs, Mul, RaiseColumnTo;
    if n == 0 {
      UnitTolerates(v, tol);
    } else {
      ScaleTolerates(m, x, n - 1, i, tol, v);
      RaisedTolerates(RowScalesTo(m, x, n - 1), m.cols[n - 1], x[n - 1], |m.cols[n - 1]|, i, tol, v);
    }
  }

  lemma RowRatio(m: Model, x: seq<real>, i: nat, tol: real, v: real)
    requires m.Valid() && |x| == |m.cols| && i < m.numRows && tol >= 0.0
    ensures v / RowScales(m, x)[i] <= tol <==> RowTolerates(m, x, i, tol, v)
  {
    hide Tolerated, Abs, Mul, RowScalesTo;
    RatioAtMost(v, RowScales(m, x)[i], tol);
    ScaleTolerates(m, x, |x|, i, tol, v);
  }

  lemma PriceRatio(m: Model, x: seq<real>, y: seq<real>, j: nat, tol: real, v: real)
    requires m.Valid() && |x| == |m.cols| && |y| == m.numRows && j < |x| && tol >= 0.0
    ensures v / PriceScale(m, x, y, j) <= tol <==> ColumnTolerates(m, x, y, j, tol, v)
  {
    hide Tolerated, Abs, Cost, Term, ColumnScale, Max;
    RatioAtMost(v, PriceScale(m, x, y, j), tol);
    ColumnScaleTolerates(m.cols[j], y, |m.cols[j]|, Max(1.0, Abs(Cost(m, x)[j])), tol, v);
    MaxTolerates(tol, 1.0, Abs(Cost(m, x)[j]), v);
    UnitTolerates(v, tol);
  }

  lemma NormRatio(y: seq<real>, tol: real, v: real)
    requires tol >= 0.0
    ensures v / DualNorm(y) <= tol <==> PricesTolerate(y, tol, v)
  {
    RatioAtMost(v, DualNorm(y), tol);
    hide Tolerated, Abs, MagnitudeTo, Max;
    MagnitudeTolerates(y, |y|, tol, v);
  }

  // ---- The primal lines -------------------------------------------------------------------------

  /** Column j is outside its bounds by at most tol, absolutely or relative to its value. */
  predicate ColumnWithin(m: Model, x: seq<real>, j: nat, tol: real)
    requires m.Valid() && |x| == |m.cols| && j < |x|
  {
    && !m.colLower[j].PosInf? && !m.colUpper[j].NegInf?
    && (m.colLower[j].Fin? ==> SizeTolerates(x[j], tol, m.colLower[j].v - x[j]))
    && (m.colUpper[j].Fin? ==> SizeTolerates(x[j], tol, x[j] - m.colUpper[j].v))
  }

  /** Row i is outside its bounds by at most tol, absolutely or relative to one of its terms. */
  ghost predicate RowWithin(m: Model, x: seq<real>, i: nat, tol: real)
    requires m.Valid() && |x| == |m.cols| && i < m.numRows
  {
    && !m.rowLower[i].PosInf? && !m.rowUpper[i].NegInf?
    && (m.rowLower[i].Fin? ==> RowTolerates(m, x, i, tol, m.rowLower[i].v - Times(m, x)[i]))
    && (m.rowUpper[i].Fin? ==> RowTolerates(m, x, i, tol, Times(m, x)[i] - m.rowUpper[i].v))
  }

  lemma ExcessRatio(lo: Bound, v: real, hi: Bound, scale: real, tol: real)
    requires scale >= 1.0 && tol >= 0.0
    ensures Excess(lo, v, hi) / scale <= tol <==>
      (lo.Fin? ==> (lo.v - v) / scale <= tol) && (hi.Fin? ==> (v - hi.v) / scale <= tol)
  {
    RatioAtMost(Excess(lo, v, hi), scale, tol);
    if lo.Fin? { RatioAtMost(lo.v - v, scale, tol); }
    if hi.Fin? { RatioAtMost(v - hi.v, scale, tol); }
    RatioAtMost(0.0, scale, tol);
    MulLe(tol, 0.0, scale);
  }

  lemma ColumnBoundsMean(m: Model, p: Point, t: Tolerances)
    requires m.Valid() && p.Fits(m) && t.primal >= 0.0
    ensures ColumnBoundsOk(m, p, t) <==> forall j :: 0 <= j < |p.x| ==> ColumnWithin(m, p.x, j, t.primal)
  {
    hide Excess, SizeTolerates, Abs, Max;
    MaxToBound(ColumnExcesses(m, p.x), |p.x|, t.primal);
    forall j | 0 <= j < |p.x|
      ensures ColumnExcesses(m, p.x)[j] <= t.primal && !m.colLower[j].PosInf? && !m.colUpper[j].NegInf?
              <==> ColumnWithin(m, p.x, j, t.primal)
    {
      AtLeastOne(Abs(p.x[j]));
      ExcessRatio(m.colLower[j], p.x[j], m.colUpper[j], Max(1.0, Abs(p.x[j])), t.primal);
      if m.colLower[j].Fin? { SizeRatio(p.x[j], t.primal, m.colLower[j].v - p.x[j]); }
      if m.colUpper[j].Fin? { SizeRatio(p.x[j], t.primal, p.x[j] - m.colUpper[j].v); }
    }
  }

  lemma RowActivityMeans(m: Model, p: Point, t: Tolerances)
    requires m.Valid() && p.Fits(m) && t.primal >= 0.0
    ensures RowActivityOk(m, p, t) <==> forall i :: 0 <= i < m.numRows ==> RowWithin(m, p.x, i, t.primal)
  {
    hide Excess, RowTolerates, RowScales, Times;
    MaxToBound(RowExcesses(m, p.x), m.numRows, t.primal);
    forall i | 0 <= i < m.numRows
      ensures RowExcesses(m, p.x)[i] <= t.primal && !m.rowLower[i].PosInf? && !m.rowUpper[i].NegInf?
              <==> RowWithin(m, p.x, i, t.primal)
    {
      var v := Times(m, p.x)[i];
      ExcessRatio(m.rowLower[i], v, m.rowUpper[i], RowScales(m, p.x)[i], t.primal);
      if m.rowLower[i].Fin? { RowRatio(m, p.x, i, t.primal, m.rowLower[i].v - v); }
      if m.rowUpper[i].Fin? { RowRatio(m, p.x, i, t.primal, v - m.rowUpper[i].v); }
    }
  }

  /** The stated activities are the recomputed ones to within an absolute tolerance. */
  predicate ActivitiesStated(m: Model, p: Point, tol: real)
    requires m.Valid() && p.Fits(m)
  {
    forall i :: 0 <= i < m.numRows ==> -tol <= p.rowActivity[i] - Times(m, p.x)[i] <= tol
  }

  lemma ActivityMeans(m: Model, p: Point, t: Tolerances)
    requires m.Valid() && p.Fits(m) && t.activity >= 0.0
    ensures ActivityAgrees(m, p, t) <==> ActivitiesStated(m, p, t.activity)
  {
    hide Times;
    MaxToBound(Differences(Times(m, p.x), p.rowActivity), m.numRows, t.activity);
    forall i | 0 <= i < m.numRows
      ensures Differences(Times(m, p.x), p.rowActivity)[i] <= t.activity
              <==> -t.activity <= p.rowActivity[i] - Times(m, p.x)[i] <= t.activity {
    }
  }

  /** An objective is stated, and is offset + c.x + x'Qx/2 to within the tolerance, absolutely or
      relative to it. */
  predicate ObjectiveStated(m: Model, p: Point, tol: real)
    requires m.Valid() && p.Fits(m)
  {
    p.objective.Some? &&
    var value := m.offset + Dot(m.colCost, p.x) + 0.5 * Form(m, p.x, p.x);
    SizeTolerates(value, tol, value - p.objective.value) && SizeTolerates(value, tol, p.objective.value - value)
  }

  lemma ObjectiveMeans(m: Model, p: Point, t: Tolerances)
    requires m.Valid() && p.Fits(m) && t.objective >= 0.0
    ensures ObjectiveAgrees(m, p, t) <==> ObjectiveStated(m, p, t.objective)
  {
    hide Max, Form, Dot;
    if p.objective.Some? {
      var value := Objective(m, p.x);
      assert value == m.offset + Dot(m.colCost, p.x) + 0.5 * Form(m, p.x, p.x);
      BothTolerated(value, t.objective, value - p.objective.value);
    }
  }

  lemma BothTolerated(size: real, tol: real, v: real)
    requires tol >= 0.0
    ensures Abs(v) <= tol * Max(1.0, Abs(size)) <==> SizeTolerates(size, tol, v) && SizeTolerates(size, tol, -v)
  {
    MaxTolerates(tol, 1.0, Abs(size), v);
    MaxTolerates(tol, 1.0, Abs(size), -v);
    UnitTolerates(v, tol);
    UnitTolerates(-v, tol);
  }

  // ---- The dual lines ---------------------------------------------------------------------------

  /** The stated reduced cost is c_j - a_j.y, in minimise space, to within the tolerance, absolutely or
      relative to one of its terms. */
  ghost predicate ReducedCostStated(m: Model, p: Point, j: nat, tol: real)
    requires m.Valid() && p.Fits(m) && j < |p.x|
  {
    var y := Prices(m, p);
    var error := m.Sense() * m.colCost[j] - ColDot(m.cols[j], y) - m.Sense() * p.colDual[j];
    ColumnTolerates(m, p.x, y, j, tol, error) && ColumnTolerates(m, p.x, y, j, tol, -error)
  }

  lemma AbsRatio(v: real, scale: real, tol: real)
    requires scale >= 1.0 && tol >= 0.0
    ensures Abs(v) / scale <= tol <==> v / scale <= tol && (-v) / scale <= tol
  {
    RatioAtMost(v, scale, tol);
    RatioAtMost(-v, scale, tol);
    RatioAtMost(Abs(v), scale, tol);
  }

  lemma LinearReducedCost(m: Model, x: seq<real>, y: seq<real>, j: nat)
    requires m.Valid() && |x| == |m.cols| && |y| == m.numRows && j < |x| && m.hessian == []
    ensures ReducedCosts(m, x, y)[j] == m.Sense() * m.colCost[j] - ColDot(m.cols[j], y)
  {
    hide ColDot;
    assert HessianTimes(m, x)[j] == 0.0;
  }

  lemma ReducedCostMeans(m: Model, p: Point, j: nat, tol: real)
    requires m.Valid() && p.Fits(m) && tol >= 0.0 && j < |p.x| && m.hessian == []
    ensures var y, d := Prices(m, p), Reduced(m, p);
      Abs(ReducedCosts(m, p.x, y)[j] - d[j]) / PriceScale(m, p.x, y, j) <= tol <==> ReducedCostStated(m, p, j, tol)
  {
    LinearReducedCost(m, p.x, Prices(m, p), j);
    assert Reduced(m, p)[j] == m.Sense() * p.colDual[j];
    hide Prices, Reduced, ReducedCosts, PriceScale, ColumnTolerates, ColDot, Abs;
    var y := Prices(m, p);
    var error := m.Sense() * m.colCost[j] - ColDot(m.cols[j], y) - m.Sense() * p.colDual[j];
    AbsRatio(error, PriceScale(m, p.x, y, j), tol);
    PriceRatio(m, p.x, y, j, tol, error);
    PriceRatio(m, p.x, y, j, tol, -error);
  }

  lemma ReducedCostErrorIs(m: Model, x: seq<real>, y: seq<real>, d: seq<real>, j: nat)
    requires m.Valid() && |x| == |d| == |m.cols| && |y| == m.numRows && j < |x|
    ensures ReducedCostErrors(m, x, y, d)[j] == Abs(ReducedCosts(m, x, y)[j] - d[j]) / PriceScale(m, x, y, j)
  {
    hide ReducedCosts, PriceScale, Abs;
  }

  /** A quadratic solve states no reduced costs; a linear one states the right ones. */
  lemma ReducedCostsMean(m: Model, p: Point, t: Tolerances)
    requires m.Valid() && p.Fits(m) && t.reducedCost >= 0.0
    ensures ReducedCostsOk(m, p, t) <==>
      m.hessian == [] ==> forall j :: 0 <= j < |p.x| ==> ReducedCostStated(m, p, j, t.reducedCost)
  {
    hide Prices, Reduced, ReducedCosts, ReducedCostErrors, PriceScale, ReducedCostStated, Abs;
    if m.hessian == [] {
      var y, d := Prices(m, p), Reduced(m, p);
      MaxToBound(ReducedCostErrors(m, p.x, y, d), |p.x|, t.reducedCost);
      forall j | 0 <= j < |p.x|
        ensures ReducedCostErrors(m, p.x, y, d)[j] <= t.reducedCost <==> ReducedCostStated(m, p, j, t.reducedCost)
      {
        ReducedCostErrorIs(m, p.x, y, d, j);
        ReducedCostMeans(m, p, j, t.reducedCost);
      }
    }
  }

  lemma SignRatio(mult: real, lo: Bound, hi: Bound, scale: real, tol: real)
    requires scale >= 1.0 && tol >= 0.0
    ensures SignViolation(mult, lo, hi) / scale <= tol <==>
      lo == hi || ((!lo.Fin? ==> mult / scale <= tol) && (!hi.Fin? ==> (-mult) / scale <= tol))
  {
    RatioAtMost(mult, scale, tol);
    RatioAtMost(-mult, scale, tol);
    RatioAtMost(0.0, scale, tol);
    MulLe(tol, 0.0, scale);
  }

  /** Unless the bounds are equal, a multiplier that prices a missing bound is within the tolerance. */
  ghost predicate ColumnSignWithin(m: Model, p: Point, j: nat, tol: real)
    requires m.Valid() && p.Fits(m) && j < |p.x|
  {
    var y, dj := Prices(m, p), Reduced(m, p)[j];
    || m.colLower[j] == m.colUpper[j]
    || ((!m.colLower[j].Fin? ==> ColumnTolerates(m, p.x, y, j, tol, dj))
        && (!m.colUpper[j].Fin? ==> ColumnTolerates(m, p.x, y, j, tol, -dj)))
  }

  ghost predicate RowSignWithin(m: Model, p: Point, i: nat, tol: real)
    requires m.Valid() && p.Fits(m) && i < m.numRows
  {
    var y := Prices(m, p);
    || m.rowLower[i] == m.rowUpper[i]
    || ((!m.rowLower[i].Fin? ==> PricesTolerate(y, tol, y[i]))
        && (!m.rowUpper[i].Fin? ==> PricesTolerate(y, tol, -y[i])))
  }

  lemma ColumnSignsMean(m: Model, p: Point, t: Tolerances)
    requires m.Valid() && p.Fits(m) && t.dual >= 0.0
    ensures ColumnSignsOk(m, p, t) <==> forall j :: 0 <= j < |p.x| ==> ColumnSignWithin(m, p, j, t.dual)
  {
    hide Prices, Reduced, PriceScale, ColumnTolerates, SignViolation;
    var y, d := Prices(m, p), Reduced(m, p);
    MaxToBound(ColumnSignViolations(m, p.x, y, d), |p.x|, t.dual);
    forall j | 0 <= j < |p.x|
      ensures ColumnSignViolations(m, p.x, y, d)[j] <= t.dual <==> ColumnSignWithin(m, p, j, t.dual)
    {
      SignRatio(d[j], m.colLower[j], m.colUpper[j], PriceScale(m, p.x, y, j), t.dual);
      PriceRatio(m, p.x, y, j, t.dual, d[j]);
      PriceRatio(m, p.x, y, j, t.dual, -d[j]);
    }
  }

  lemma RowSignsMean(m: Model, p: Point, t: Tolerances)
    requires m.Valid() && p.Fits(m) && t.dual >= 0.0
    ensures RowSignsOk(m, p, t) <==> forall i :: 0 <= i < m.numRows ==> RowSignWithin(m, p, i, t.dual)
  {
    NormAtLeastOne(Prices(m, p));
    hide Prices, DualNorm, PricesTolerate, SignViolation;
    var y := Prices(m, p);
    MaxToBound(RowSignViolations(m, y), m.numRows, t.dual);
    forall i | 0 <= i < m.numRows ensures RowSignViolations(m, y)[i] <= t.dual <==> RowSignWithin(m, p, i, t.dual) {
      SignRatio(y[i], m.rowLower[i], m.rowUpper[i], DualNorm(y), t.dual);
      NormRatio(y, t.dual, y[i]);
      NormRatio(y, t.dual, -y[i]);
    }
  }

  lemma NormAtLeastOne(y: seq<real>)
    ensures DualNorm(y) >= 1.0
  {
  }

  /** Unless the bounds are equal, the multiplier times the distance to one of the bounds is within the
      tolerance; without any bound the multiplier itself is. */
  predicate Complements(mult: real, v: real, lo: Bound, hi: Bound, tol: real) {
    || lo == hi
    || (lo.Fin? && Abs(mult) * (v - lo.v) <= tol)
    || (hi.Fin? && Abs(mult) * (hi.v - v) <= tol)
    || (!lo.Fin? && !hi.Fin? && -tol <= mult <= tol)
  }

  lemma ComplementarityIs(mult: real, v: real, lo: Bound, hi: Bound, tol: real)
    ensures Complementarity(mult, v, lo, hi) <= tol
      <==> (lo == hi && 0.0 <= tol) || (lo != hi && Complements(mult, v, lo, hi, tol))
  {
    if lo.Fin? && hi.Fin? {
      MulMin(Abs(mult), v - lo.v, hi.v - v, tol);
    }
  }

  lemma MulMin(f: real, a: real, b: real, tol: real)
    requires f >= 0.0
    ensures f * Min(a, b) <= tol <==> f * a <= tol || f * b <= tol
  {
    MulLe(f, Min(a, b), a);
    MulLe(f, Min(a, b), b);
  }

  ghost predicate AllComplement(mult: seq<real>, v: seq<real>, lo: seq<Bound>, hi: seq<Bound>, tol: real)
    requires |mult| == |v| == |lo| == |hi|
  {
    forall i :: 0 <= i < |v| ==> Complements(mult[i], v[i], lo[i], hi[i], tol)
  }

  lemma ComplementaritiesMean(mult: seq<real>, v: seq<real>, lo: seq<Bound>, hi: seq<Bound>, tol: real)
    requires |mult| == |v| == |lo| == |hi| && tol >= 0.0
    ensures Worst(Complementarities(mult, v, lo, hi)) <= tol <==> AllComplement(mult, v, lo, hi, tol)
  {
    MaxToBound(Complementarities(mult, v, lo, hi), |v|, tol);
    hide Complements, Complementarity;
    forall i | 0 <= i < |v|
      ensures Complementarity(mult[i], v[i], lo[i], hi[i]) <= tol <==> Complements(mult[i], v[i], lo[i], hi[i], tol) {
      ComplementarityMeans(mult[i], v[i], lo[i], hi[i], tol);
    }
  }

  lemma ComplementarityMeans(mult: real, v: real, lo: Bound, hi: Bound, tol: real)
    requires tol >= 0.0
    ensures Complementarity(mult, v, lo, hi) <= tol <==> Complements(mult, v, lo, hi, tol)
  {
    ComplementarityIs(mult, v, lo, hi, tol);
  }

  lemma ComplementarityLineMeans(m: Model, p: Point, t: Tolerances)
    requires m.Valid() && p.Fits(m) && t.complementarity >= 0.0
    ensures ComplementarityOk(m, p, t) <==>
      && AllComplement(Prices(m, p), Times(m, p.x), m.rowLower, m.rowUpper, t.complementarity)
      && AllComplement(Reduced(m, p), p.x, m.colLower, m.colUpper, t.complementarity)
  {
    hide Prices, Reduced, Times, Worst, AllComplement;
    ComplementaritiesMean(Prices(m, p), Times(m, p.x), m.rowLower, m.rowUpper, t.complementarity);
    ComplementaritiesMean(Reduced(m, p), p.x, m.colLower, m.colUpper, t.complementarity);
  }

  // ---- Strong duality -----------------------------------------------------------------------------

  /** What one bound makes of a multiplier: its size times the distance; a bound that does not exist
      is read as zero. */
  function Made(mult: real, v: real, b: Bound): real { Mul(Abs(mult), Distance(v, b)) }

  predicate IsDistance(d: real, v: real, b: Bound) { d == Abs(if b.Fin? then v - b.v else v) }

  /** The share is at most what the priced bound makes of the multiplier, and all of it for a multiplier
      within the dual tolerance. Beyond it no bound makes less of the multiplier than the share, one of
      them or the priced one makes exactly that, and without any bound it is nothing. */
  lemma ShareMeans(mult: real, v: real, lo: Bound, hi: Bound, scale: real, dualTol: real)
    requires scale >= 1.0 && dualTol >= 0.0
    ensures IsDistance(Distance(v, lo), v, lo) && IsDistance(Distance(v, hi), v, hi)
    ensures var share, whole := Share(mult, v, lo, hi, scale, dualTol), Made(mult, v, if mult > 0.0 then lo else hi);
      && 0.0 <= share <= whole
      && (Abs(mult) <= dualTol * scale ==> share == whole)
      && (Abs(mult) > dualTol * scale ==>
          && (lo.Fin? ==> share <= Made(mult, v, lo)) && (hi.Fin? ==> share <= Made(mult, v, hi))
          && (!lo.Fin? && !hi.Fin? ==> share == 0.0)
          && (lo.Fin? || hi.Fin? ==>
              share == whole || (lo.Fin? && share == Made(mult, v, lo)) || (hi.Fin? && share == Made(mult, v, hi))))
  {
    NearestIs(v, lo, hi);
    MadeIsNonneg(mult, v, lo);
    MadeIsNonneg(mult, v, hi);
    ShareIs(mult, v, lo, hi, scale, dualTol);
    hide Share, Made, Distance, Abs, IsDistance;
    if mult == 0.0 { ZeroTolerated(mult, scale, dualTol); }
  }

  lemma MadeIsNonneg(mult: real, v: real, b: Bound)
    ensures Made(mult, v, b) >= 0.0 && (mult == 0.0 ==> Made(mult, v, b) == 0.0)
  {
    MulLe(Abs(mult), 0.0, Distance(v, b));
  }

  lemma ZeroTolerated(mult: real, scale: real, dualTol: real)
    requires mult == 0.0 && scale >= 1.0 && dualTol >= 0.0
    ensures Abs(mult) <= dualTol * scale
  {
    MulLe(dualTol, 0.0, scale);
  }

  lemma ShareIs(mult: real, v: real, lo: Bound, hi: Bound, scale: real, dualTol: real)
    ensures var share, whole := Share(mult, v, lo, hi, scale, dualTol), Made(mult, v, if mult > 0.0 then lo else hi);
      if mult == 0.0 then share == 0.0
      else if Abs(mult) <= dualTol * scale then share == whole
      else if lo.Fin? && hi.Fin? then share == Min(whole, Min(Made(mult, v, lo), Made(mult, v, hi)))
      else if lo.Fin? then share == Min(whole, Made(mult, v, lo))
      else if hi.Fin? then share == Min(whole, Made(mult, v, hi))
      else share == 0.0
  {
    NearestIs(v, lo, hi);
    assert Abs(mult) >= 0.0;
    hide NearestDistance, Distance, Abs, Min, Mul;
    if lo.Fin? && hi.Fin? { MinOfTwo(Abs(mult), Distance(v, lo), Distance(v, hi)); }
  }

  lemma NearestIs(v: real, lo: Bound, hi: Bound)
    ensures NearestDistance(v, lo, hi) ==
      if lo.Fin? && hi.Fin? then Some(Min(Distance(v, lo), Distance(v, hi)))
      else if lo.Fin? then Some(Distance(v, lo)) else if hi.Fin? then Some(Distance(v, hi)) else None
    ensures IsDistance(Distance(v, lo), v, lo) && IsDistance(Distance(v, hi), v, hi)
  {
  }

  lemma MinOfTwo(f: real, a: real, b: real)
    requires f >= 0.0
    ensures Mul(f, Min(a, b)) == Min(Mul(f, a), Mul(f, b))
  {
    if a <= b { MulLe(f, a, b); } else { MulLe(f, b, a); }
  }

  /** b holds the bound that each multiplier prices, and zero where there is none. */
  predicate PricesOf(mult: seq<real>, lo: seq<Bound>, hi: seq<Bound>, b: seq<real>)
    requires |mult| == |lo| == |hi|
  {
    |b| == |mult| && forall i :: 0 <= i < |mult| ==>
      && (mult[i] > 0.0 ==> b[i] == if lo[i].Fin? then lo[i].v else 0.0)
      && (mult[i] < 0.0 ==> b[i] == if hi[i].Fin? then hi[i].v else 0.0)
  }

  lemma ContributionsArePrice(mult: seq<real>, lo: seq<Bound>, hi: seq<Bound>, b: seq<real>)
    requires |mult| == |lo| == |hi| && PricesOf(mult, lo, hi, b)
    ensures Sum(Contributions(mult, lo, hi)) == Dot(mult, b)
  {
    DotIsSum(mult, b, |mult|);
    forall i | 0 <= i < |mult| ensures Contributions(mult, lo, hi)[i] == Products(mult, b)[i] {
      if mult[i] == 0.0 { MulZero(b[i]); }
    }
    assert Contributions(mult, lo, hi) == Products(mult, b);
  }

  /** The dual objective is the price of the bounds the multipliers lean on, turned back from minimise space,
      with the constant and without the quadratic part. */
  lemma DualObjectiveIsPrice(m: Model, p: Point, b: seq<real>, u: seq<real>)
    requires m.Valid() && p.Fits(m)
    requires PricesOf(Prices(m, p), m.rowLower, m.rowUpper, b) && PricesOf(Reduced(m, p), m.colLower, m.colUpper, u)
    ensures DualObjective(m, p.x, Prices(m, p), Reduced(m, p))
            == Turned(m, Dot(Prices(m, p), b) + Dot(Reduced(m, p), u)) + m.offset - 0.5 * Form(m, p.x, p.x)
  {
    hide Prices, Reduced, Dot, Form, Contributions, PricesOf;
    ContributionsArePrice(Prices(m, p), m.rowLower, m.rowUpper, b);
    ContributionsArePrice(Reduced(m, p), m.colLower, m.colUpper, u);
  }

  /** The two objectives differ by no more than the tolerance, absolutely or relative to the primal one,
      beyond the shares the multipliers account for. */
  predicate GapWithin(m: Model, p: Point, dualTol: real, tol: real)
    requires m.Valid() && p.Fits(m)
  {
    var y, d := Prices(m, p), Reduced(m, p);
    var value, shares := Objective(m, p.x), Accounted(m, p.x, y, d, dualTol);
    var gap := Abs(value - DualObjective(m, p.x, y, d));
    SizeTolerates(value, tol, gap - shares)
  }

  lemma StrongDualityMeans(m: Model, p: Point, t: Tolerances)
    requires m.Valid() && p.Fits(m) && t.duality >= 0.0
    ensures StrongDualityOk(m, p, t) <==> GapWithin(m, p, t.dual, t.duality)
  {
    hide Prices, Reduced, Objective, DualObjective, Accounted, Max;
    var y, d := Prices(m, p), Reduced(m, p);
    var value := Objective(m, p.x);
    MaxTolerates(t.duality, 1.0, Abs(value),
                 Abs(value - DualObjective(m, p.x, y, d)) - Accounted(m, p.x, y, d, t.dual));
    UnitTolerates(Abs(value - DualObjective(m, p.x, y, d)) - Accounted(m, p.x, y, d, t.dual), t.duality);
  }

  // ---- The whole verdict --------------------------------------------------------------------------

  /** In minimise space the signs of a maximisation's multipliers turn; a quadratic solve's reduced
      costs are derived from its row prices. */
  lemma MultipliersAre(m: Model, p: Point)
    requires m.Valid() && p.Fits(m)
    ensures forall i :: 0 <= i < m.numRows ==> Prices(m, p)[i] == Turned(m, p.rowDual[i])
    ensures m.hessian == [] ==> forall j :: 0 <= j < |p.x| ==> Reduced(m, p)[j] == Turned(m, p.colDual[j])
    ensures m.hessian != [] ==> forall j :: 0 <= j < |p.x| ==>
      Reduced(m, p)[j] == Turned(m, m.colCost[j] + HessianTimes(m, p.x)[j]) - ColDot(m.cols[j], Prices(m, p))
  {
    TurnedIs(m);
    hide ColDot, HessianTimes, Turned, Model.Sense, Prices;
    assert forall i :: 0 <= i < m.numRows ==> Prices(m, p)[i] == m.Sense() * p.rowDual[i] by { PricesAre(m, p); }
  }

  function Turned(m: Model, v: real): real { if m.maximize then -v else v }

  lemma TurnedIs(m: Model)
    ensures forall v :: m.Sense() * v == Turned(m, v)
  {
    forall v ensures m.Sense() * v == Turned(m, v) {}
  }

  lemma PricesAre(m: Model, p: Point)
    ensures forall i :: 0 <= i < |p.rowDual| ==> Prices(m, p)[i] == m.Sense() * p.rowDual[i]
  {
  }

  /** The nine lines at the verifier's own tolerances, 1e-6 and 1e-9 where it takes no argument. */
  lemma VerdictMeans(m: Model, p: Point, primal: real, dual: real, duality: real)
    requires m.Valid() && p.Fits(m) && primal >= 0.0 && dual >= 0.0 && duality >= 0.0
    ensures var v := Judge(m, p, Standard(primal, dual, duality));
      && (v.columnBounds <==> forall j :: 0 <= j < |p.x| ==> ColumnWithin(m, p.x, j, primal))
      && (v.rowActivity <==> forall i :: 0 <= i < m.numRows ==> RowWithin(m, p.x, i, primal))
      && (v.activityAgrees <==> ActivitiesStated(m, p, 0.000001))
      && (v.objectiveAgrees <==> ObjectiveStated(m, p, 0.000000001))
      && (v.reducedCosts <==>
          (m.hessian == [] ==> forall j :: 0 <= j < |p.x| ==> ReducedCostStated(m, p, j, 0.000001)))
      && (v.columnSigns <==> forall j :: 0 <= j < |p.x| ==> ColumnSignWithin(m, p, j, dual))
      && (v.rowSigns <==> forall i :: 0 <= i < m.numRows ==> RowSignWithin(m, p, i, dual))
      && (v.complementarity <==>
          AllComplement(Prices(m, p), Times(m, p.x), m.rowLower, m.rowUpper, 0.000001)
          && AllComplement(Reduced(m, p), p.x, m.colLower, m.colUpper, 0.000001))
      && (v.strongDuality <==> GapWithin(m, p, dual, duality))
  {
    hide ColumnBoundsOk, RowActivityOk, ActivityAgrees, ObjectiveAgrees, ReducedCostsOk, ColumnSignsOk, RowSignsOk,
      ComplementarityOk, StrongDualityOk, ColumnWithin, RowWithin, ActivitiesStated, ObjectiveStated,
      ReducedCostStated, ColumnSignWithin, RowSignWithin, AllComplement, GapWithin, Prices, Reduced, Times;
    var t := Standard(primal, dual, duality);
    ColumnBoundsMean(m, p, t);
    RowActivityMeans(m, p, t);
    ActivityMeans(m, p, t);
    ObjectiveMeans(m, p, t);
    ReducedCostsMean(m, p, t);
    ColumnSignsMean(m, p, t);
    RowSignsMean(m, p, t);
    ComplementarityLineMeans(m, p, t);
    StrongDualityMeans(m, p, t);
  }
}
