/** Certificates of unboundedness: a direction that no bound blocks and along which the
    objective improves. */
module Rays {
  import opened Vectors
  import opened LpModel
  import opened Quadratic
  import Farkas

  /** The largest |value * step| over the first k entries of a column, or `from` if larger. */
  function ColumnStepScale(col: seq<Entry>, step: real, k: nat, from: real): real
    requires k <= |col|
  {
    if k == 0 then from else Max(ColumnStepScale(col, step, k - 1, from), Abs(Mul(col[k - 1].val, step)))
  }

  function RowTermScaleTo(m: Model, d: seq<real>, j: nat): real
    requires m.Valid() && |d| == |m.cols| && j <= |d|
  {
    if j == 0 then 0.0
    else ColumnStepScale(m.cols[j - 1], d[j - 1], |m.cols[j - 1]|, RowTermScaleTo(m, d, j - 1))
  }

  /** The largest term of A d. */
  function RowTermScale(m: Model, d: seq<real>): real
    requires m.Valid() && |d| == |m.cols|
  {
    RowTermScaleTo(m, d, |d|)
  }

  function CostTerms(m: Model, d: seq<real>): (r: seq<real>)
    requires m.Valid() && |d| == |m.cols|
    ensures |r| == |d|
    ensures forall j :: 0 <= j < |d| ==> r[j] == Mul(Mul(m.Sense(), m.colCost[j]), d[j])
  {
    seq(|d|, j requires 0 <= j < |d| => Mul(Mul(m.Sense(), m.colCost[j]), d[j]))
  }

  /** The change of the linear objective per unit step, in minimise space. */
  function Improvement(m: Model, d: seq<real>): real
    requires m.Valid() && |d| == |m.cols|
  {
    Sum(CostTerms(m, d))
  }

  /** A direction is not blocked by a bound beyond `moving`. */
  predicate Unblocked(step: real, lo: Bound, hi: Bound, moving: real) {
    !(step > moving && hi.Fin?) && !(step < -moving && lo.Fin?)
  }

  predicate ColumnsUnblocked(m: Model, d: seq<real>, moving: real)
    requires m.Valid() && |d| == |m.cols|
  {
    forall j :: 0 <= j < |d| ==> Unblocked(d[j], m.colLower[j], m.colUpper[j], moving)
  }

  predicate RowsUnblocked(m: Model, activity: seq<real>, moving: real)
    requires m.Valid() && |activity| == m.numRows
  {
    forall i :: 0 <= i < m.numRows ==> Unblocked(activity[i], m.rowLower[i], m.rowUpper[i], moving)
  }

  predicate Improves(improvement: real, costScale: real, tol: real) {
    improvement < -(tol * Max(1.0, costScale))
  }

  predicate CurvesBack(curvature: real, tol: real) {
    curvature > tol * Max(1.0, Abs(curvature))
  }

  /** What `RayProvesUnbounded` decides, at any tolerance. */
  predicate Accepts(m: Model, d: seq<real>, tol: real)
    requires m.Valid()
  {
    && |d| == |m.cols|
    && Magnitude(d) != 0.0
    && ColumnsUnblocked(m, d, Mul(tol, Magnitude(d)))
    && RowsUnblocked(m, Times(m, d), Mul(tol, Max(1.0, RowTermScale(m, d))))
    && Improves(Improvement(m, d), Magnitude(CostTerms(m, d)), tol)
    && (m.hessian != [] ==> !CurvesBack(Form(m, d, d), tol))
  }

  predicate Proves(m: Model, d: seq<real>)
    requires m.Valid()
  {
    Accepts(m, d, Farkas.PRIMAL_FEASIBILITY)
  }

  // ---- The checker --------------------------------------------------------------------

  method RayProvesUnbounded(m: Model, d: seq<real>) returns (ok: bool)
    requires m.Valid()
    ensures ok == Proves(m, d)
  {
    if |d| != |m.cols| { return false; }
    var magnitude := MeasureMagnitude(d);
    if magnitude == 0.0 { return false; }
    var moving := Farkas.PRIMAL_FEASIBILITY * magnitude;
    if exists j :: 0 <= j < |d| && !Unblocked(d[j], m.colLower[j], m.colUpper[j], moving) { return false; }

    var activity, scale := MeasureActivity(m, d);
    var rowMoving := Farkas.PRIMAL_FEASIBILITY * Max(1.0, scale);
    if exists i :: 0 <= i < m.numRows && !Unblocked(activity[i], m.rowLower[i], m.rowUpper[i], rowMoving) {
      return false;
    }

    var improvement, costScale := MeasureImprovement(m, d);
    if !Improves(improvement, costScale, Farkas.PRIMAL_FEASIBILITY) { return false; }

    if m.hessian != [] {
      var curvature := MeasureCurvature(m, d);
      if CurvesBack(curvature, Farkas.PRIMAL_FEASIBILITY) { return false; }
    }
    return true;
  }

  method MeasureMagnitude(d: seq<real>) returns (magnitude: real)
    ensures magnitude == Magnitude(d)
  {
    magnitude := 0.0;
    for i := 0 to |d|
      invariant magnitude == MagnitudeTo(d, i)
    {
      magnitude := Max(magnitude, Abs(d[i]));
    }
  }

  /** A d and its largest term, skipping columns that do not move. */
  method MeasureActivity(m: Model, d: seq<real>) returns (activity: seq<real>, scale: real)
    requires m.Valid() && |d| == |m.cols|
    ensures activity == Times(m, d) && scale == RowTermScale(m, d)
  {
    activity, scale := Zeros(m.numRows), 0.0;
    for j := 0 to |d|
      invariant activity == TimesTo(m, d, j) && scale == RowTermScaleTo(m, d, j) && scale >= 0.0
    {
      if d[j] == 0.0 {
        StillColumn(activity, m.cols[j], d[j], scale, |m.cols[j]|);
      } else {
        activity, scale := MoveColumn(activity, m.cols[j], d[j], scale);
      }
    }
  }

  method MoveColumn(out0: seq<real>, col: seq<Entry>, step: real, from: real) returns (out: seq<real>, scale: real)
    requires ValidColumn(col, |out0|) && from >= 0.0
    ensures out == AddColumnTo(out0, col, step, |col|)
    ensures scale == ColumnStepScale(col, step, |col|, from) && scale >= 0.0
  {
    out, scale := out0, from;
    for k := 0 to |col|
      invariant |out| == |out0| && out == AddColumnTo(out0, col, step, k)
      invariant scale == ColumnStepScale(col, step, k, from) && scale >= 0.0
    {
      var term := Mul(col[k].val, step);
      assert AddColumnTo(out0, col, step, k + 1) == AddEntry(out, col[k], step);
      out := out[col[k].row := out[col[k].row] + term];
      scale := Max(scale, Abs(term));
    }
  }

  /** A column that does not move changes neither the activity nor the scale. */
  lemma {:induction false} StillColumn(out: seq<real>, col: seq<Entry>, step: real, from: real, k: nat)
    requires step == 0.0 && from >= 0.0 && k <= |col| && ValidColumn(col, |out|)
    ensures AddColumnTo(out, col, step, k) == out && ColumnStepScale(col, step, k, from) == from
  {
    if k > 0 { StillColumn(out, col, step, from, k - 1); }
  }

  method MeasureImprovement(m: Model, d: seq<real>) returns (improvement: real, costScale: real)
    requires m.Valid() && |d| == |m.cols|
    ensures improvement == Improvement(m, d) && costScale == Magnitude(CostTerms(m, d))
  {
    hide Mul;
    improvement, costScale := 0.0, 0.0;
    ghost var terms := CostTerms(m, d);
    for j := 0 to |d|
      invariant improvement == SumTo(terms, j) && costScale == MagnitudeTo(terms, j)
    {
      var term := Mul(Mul(m.Sense(), m.colCost[j]), d[j]);
      improvement := improvement + term;
      costScale := Max(costScale, Abs(term));
    }
  }

  /** d'Qd, an off-diagonal entry counted once for each of the two entries it stands for. */
  method MeasureCurvature(m: Model, d: seq<real>) returns (curvature: real)
    requires m.Valid() && |d| == |m.cols|
    ensures curvature == Form(m, d, d)
  {
    curvature := 0.0;
    for k := 0 to |m.hessian|
      invariant curvature == FormTo(m.hessian, d, d, k)
    {
      var e := m.hessian[k];
      curvature := curvature + e.val * d[e.col] * d[e.row];
      if e.row != e.col { curvature := curvature + e.val * d[e.row] * d[e.col]; }
      TwiceEntry(e, d);
    }
  }

  lemma TwiceEntry(e: HessianEntry, d: seq<real>)
    requires e.col <= e.row < |d|
    ensures FormEntry(e, d, d)
            == e.val * d[e.col] * d[e.row] + (if e.row != e.col then e.val * d[e.row] * d[e.col] else 0.0)
  {
  }

  // ---- What an accepted ray proves ----------------------------------------------------

  /** A value is outside its bounds by at most `slack`. */
  predicate WithinBy(lo: Bound, value: real, hi: Bound, slack: real) {
    (hi.Fin? ==> value <= hi.v + slack) && (lo.Fin? ==> value >= lo.v - slack)
  }

  /** One bounded quantity after a step of length t: it overshoots by at most t * moving. */
  lemma Overshoot(value: real, step: real, lo: Bound, hi: Bound, moving: real, t: real)
    requires Within(lo, value, hi) && Unblocked(step, lo, hi, moving) && t >= 0.0
    ensures WithinBy(lo, 1.0 * value + t * step, hi, t * moving)
  {
    if step <= moving { MulLe(t, step, moving); }
    if -moving <= step { MulLe(t, -moving, step); }
  }

  lemma SignedTerm(s: real, c: real, d: real)
    ensures Mul(Mul(s, c), d) == s * Mul(c, d) + 0.0 * Mul(c, d)
  {
  }

  /** The linear objective in minimise space, along the ray. */
  lemma ImprovementIsCost(m: Model, d: seq<real>)
    requires m.Valid() && |d| == |m.cols|
    ensures Improvement(m, d) == m.Sense() * Dot(m.colCost, d)
  {
    var p := Products(m.colCost, d);
    DotIsSum(m.colCost, d, |d|);
    var terms := CostTerms(m, d);
    forall j | 0 <= j < |d| ensures terms[j] == m.Sense() * p[j] + 0.0 * p[j] {
      SignedTerm(m.Sense(), m.colCost[j], d[j]);
    }
    SumToLinear(p, p, terms, m.Sense(), 0.0, |d|);
    hide CostTerms;
  }

  /** An LP ray at the solver's own thresholds. From any feasible point and for every t >= 0,
      no column bound is exceeded by more than t*1e-7*|d|max and no row bound by more than
      t*1e-7*max(1, largest row term), while the objective falls by more than
      t*1e-7*max(1, largest cost term) as soon as the step is positive. */
  lemma LinearRay(m: Model, d: seq<real>, x: seq<real>, t: real)
    requires m.Valid() && Proves(m, d) && Feasible(m, x) && m.hessian == [] && t >= 0.0
    ensures var p, tol := Combine(1.0, x, t, d), Farkas.PRIMAL_FEASIBILITY;
      && (forall j :: 0 <= j < |x| ==> WithinBy(m.colLower[j], p[j], m.colUpper[j], t * (tol * Magnitude(d))))
      && (forall i :: 0 <= i < m.numRows ==>
            WithinBy(m.rowLower[i], Times(m, p)[i], m.rowUpper[i], t * (tol * Max(1.0, RowTermScale(m, d)))))
      && var limit := MinimiseObjective(m, x) - t * (tol * Max(1.0, Magnitude(CostTerms(m, d))));
         MinimiseObjective(m, p) <= limit && (t > 0.0 ==> MinimiseObjective(m, p) < limit)
  {
    StepOvershoots(m, d, x, t, Farkas.PRIMAL_FEASIBILITY);
    StepImproves(m, d, x, t, Farkas.PRIMAL_FEASIBILITY);
  }

  lemma StepOvershoots(m: Model, d: seq<real>, x: seq<real>, t: real, tol: real)
    requires m.Valid() && Accepts(m, d, tol) && Feasible(m, x) && t >= 0.0
    ensures var p := Combine(1.0, x, t, d);
      && (forall j :: 0 <= j < |x| ==> WithinBy(m.colLower[j], p[j], m.colUpper[j], t * (tol * Magnitude(d))))
      && (forall i :: 0 <= i < m.numRows ==>
            WithinBy(m.rowLower[i], Times(m, p)[i], m.rowUpper[i], t * (tol * Max(1.0, RowTermScale(m, d)))))
  {
    hide WithinBy, Max;
    forall j | 0 <= j < |x|
      ensures WithinBy(m.colLower[j], Combine(1.0, x, t, d)[j], m.colUpper[j], t * (tol * Magnitude(d)))
    {
      ColumnOvershoots(m, d, x, t, tol, j);
    }
    forall i | 0 <= i < m.numRows
      ensures WithinBy(m.rowLower[i], Times(m, Combine(1.0, x, t, d))[i], m.rowUpper[i],
                       t * (tol * Max(1.0, RowTermScale(m, d))))
    {
      RowOvershoots(m, d, x, t, tol, i);
    }
  }

  lemma ColumnOvershoots(m: Model, d: seq<real>, x: seq<real>, t: real, tol: real, j: nat)
    requires m.Valid() && Accepts(m, d, tol) && Feasible(m, x) && t >= 0.0 && j < |x|
    ensures WithinBy(m.colLower[j], Combine(1.0, x, t, d)[j], m.colUpper[j], t * (tol * Magnitude(d)))
  {
    hide RowsUnblocked, Improves, CurvesBack, Magnitude;
    Overshoot(x[j], d[j], m.colLower[j], m.colUpper[j], tol * Magnitude(d), t);
  }

  lemma RowOvershoots(m: Model, d: seq<real>, x: seq<real>, t: real, tol: real, i: nat)
    requires m.Valid() && Accepts(m, d, tol) && Feasible(m, x) && t >= 0.0 && i < m.numRows
    ensures WithinBy(m.rowLower[i], Times(m, Combine(1.0, x, t, d))[i], m.rowUpper[i],
                     t * (tol * Max(1.0, RowTermScale(m, d))))
  {
    hide ColumnsUnblocked, Improves, CurvesBack, RowTermScale, Max;
    TimesCombine(m, 1.0, x, t, d, i);
    Overshoot(Times(m, x)[i], Times(m, d)[i], m.rowLower[i], m.rowUpper[i], tol * Max(1.0, RowTermScale(m, d)), t);
  }

  lemma StepImproves(m: Model, d: seq<real>, x: seq<real>, t: real, tol: real)
    requires m.Valid() && Accepts(m, d, tol) && |x| == |m.cols| && m.hessian == [] && t >= 0.0
    ensures var p, limit := Combine(1.0, x, t, d),
      MinimiseObjective(m, x) - t * (tol * Max(1.0, Magnitude(CostTerms(m, d))));
      MinimiseObjective(m, p) <= limit && (t > 0.0 ==> MinimiseObjective(m, p) < limit)
  {
    hide Max, Magnitude, Improvement, Objective, MinimiseObjective, ColumnsUnblocked, RowsUnblocked, CurvesBack;
    var fall := tol * Max(1.0, Magnitude(CostTerms(m, d)));
    Parabola(m, x, d, t);
    MulLe(t, Improvement(m, d), -fall);
    if t > 0.0 { MulLt(t, Improvement(m, d), -fall); }
    assert Form(m, x, d) == 0.0 && Form(m, d, d) == 0.0;
  }

  /** The objective along the ray is a parabola in t, in minimise space. */
  lemma Parabola(m: Model, x: seq<real>, d: seq<real>, t: real)
    requires m.Valid() && |x| == |d| == |m.cols|
    ensures MinimiseObjective(m, Combine(1.0, x, t, d))
            == MinimiseObjective(m, x) + t * (Improvement(m, d) + m.Sense() * Form(m, x, d))
               + 0.5 * (t * t * (m.Sense() * Form(m, d, d)))
  {
    hide Improvement, Objective, Form, Dot;
    ObjectiveAlong(m, x, t, d);
    ImprovementIsCost(m, d);
    SenseOfParabola(m.Sense(), Objective(m, x), t, Dot(m.colCost, d), Form(m, x, d), Form(m, d, d));
  }

  lemma SenseOfParabola(s: real, f: real, t: real, cd: real, xd: real, dd: real)
    ensures s * (f + t * (cd + xd) + 0.5 * (t * t * dd)) == s * f + t * (s * cd + s * xd) + 0.5 * (t * t * (s * dd))
  {
  }

  // ---- Zero tolerance, quadratic objectives -------------------------------------------

  /** At zero tolerance an accepted ray never leaves the feasible set. */
  lemma RayStaysFeasible(m: Model, d: seq<real>, x: seq<real>, t: real)
    requires m.Valid() && Accepts(m, d, 0.0) && Feasible(m, x) && t >= 0.0
    ensures Feasible(m, Combine(1.0, x, t, d))
  {
    var p := Combine(1.0, x, t, d);
    StepOvershoots(m, d, x, t, 0.0);
    forall j | 0 <= j < |x| ensures Within(m.colLower[j], p[j], m.colUpper[j]) {
      assert WithinBy(m.colLower[j], p[j], m.colUpper[j], t * (0.0 * Magnitude(d)));
      assert Within(m.colLower[j], x[j], m.colUpper[j]);
    }
    forall i | 0 <= i < m.numRows ensures Within(m.rowLower[i], Times(m, p)[i], m.rowUpper[i]) {
      assert WithinBy(m.rowLower[i], Times(m, p)[i], m.rowUpper[i], t * (0.0 * Max(1.0, RowTermScale(m, d))));
      assert Within(m.rowLower[i], Times(m, x)[i], m.rowUpper[i]);
    }
  }

  ghost predicate FallsBelow(m: Model, x: seq<real>, d: seq<real>, bound: real)
    requires m.Valid() && |x| == |d| == |m.cols|
  {
    exists t: real :: t >= 0.0 && MinimiseObjective(m, Combine(1.0, x, t, d)) < bound
  }

  /** Along the ray the objective, in minimise space, falls below every bound. */
  ghost predicate RunsAway(m: Model, x: seq<real>, d: seq<real>)
    requires m.Valid() && |x| == |d| == |m.cols|
  {
    forall bound: real :: FallsBelow(m, x, d, bound)
  }

  /** A ray accepted at any tolerance, in a model convex in minimise space, makes the objective
      run away from every point exactly when its curvature is zero. The test only looks at c.d
      and d'Qd; zero curvature makes Q d vanish, so the rest of the gradient cannot help. */
  lemma AcceptedRayRunsAwayIffFlat(m: Model, d: seq<real>, x: seq<real>, tol: real)
    requires m.Valid() && tol >= 0.0 && Accepts(m, d, tol) && |x| == |m.cols| && ConvexInMinimiseSpace(m)
    ensures RunsAway(m, x, d) <==> Form(m, d, d) == 0.0
  {
    if Form(m, d, d) == 0.0 {
      forall bound: real ensures FallsBelow(m, x, d, bound) { FlatRayFalls(m, d, x, bound, tol); }
    } else {
      CurvedRayStops(m, d, x);
    }
  }

  lemma FlatRayFalls(m: Model, d: seq<real>, x: seq<real>, bound: real, tol: real)
    requires m.Valid() && tol >= 0.0 && Accepts(m, d, tol) && |x| == |m.cols| && ConvexInMinimiseSpace(m)
      && Form(m, d, d) == 0.0
    ensures FallsBelow(m, x, d, bound)
  {
    hide ColumnsUnblocked, RowsUnblocked, Magnitude, Form, MinimiseObjective, Improvement;
    ZeroCurvatureMeansNull(m, d, x);
    MulLe(tol, 0.0, Max(1.0, Magnitude(CostTerms(m, d))));
    var t := FarEnough(MinimiseObjective(m, x), Improvement(m, d), bound);
    Parabola(m, x, d, t);
    assert MinimiseObjective(m, Combine(1.0, x, t, d)) < bound;
  }

  lemma CurvedRayStops(m: Model, d: seq<real>, x: seq<real>)
    requires m.Valid() && |d| == |x| == |m.cols| && ConvexInMinimiseSpace(m) && Form(m, d, d) != 0.0
    ensures !RunsAway(m, x, d)
  {
    hide Form, MinimiseObjective, Improvement;
    var f, g, q := MinimiseObjective(m, x), Improvement(m, d) + m.Sense() * Form(m, x, d), m.Sense() * Form(m, d, d);
    assert q >= 0.0;
    var bound := f - g * g / (2.0 * q);
    forall t: real | t >= 0.0 ensures MinimiseObjective(m, Combine(1.0, x, t, d)) >= bound {
      Parabola(m, x, d, t);
      ParabolaMinimum(f, g, q, t);
    }
    assert !FallsBelow(m, x, d, bound);
  }

  /** For a minimisation the curvature test at zero tolerance is enough: an accepted ray always runs away. */
  lemma AcceptedRayOfMinimisation(m: Model, d: seq<real>, x: seq<real>)
    requires m.Valid() && Accepts(m, d, 0.0) && Feasible(m, x) && ConvexInMinimiseSpace(m) && !m.maximize
    ensures RunsAway(m, x, d)
    ensures forall t: real :: t >= 0.0 ==> Feasible(m, Combine(1.0, x, t, d))
  {
    assert m.Sense() * Form(m, d, d) >= 0.0;
    AcceptedRayRunsAwayIffFlat(m, d, x, 0.0);
    forall t: real | t >= 0.0 ensures Feasible(m, Combine(1.0, x, t, d)) { RayStaysFeasible(m, d, x, t); }
  }

  lemma FarEnough(f: real, g: real, bound: real) returns (t: real)
    requires g < 0.0
    ensures t >= 0.0 && f + t * g < bound
  {
    if f < bound { t := 0.0; } else {
      t := (bound - f - 1.0) / g;
      assert t * g == bound - f - 1.0;
    }
  }

  lemma ParabolaMinimum(f: real, g: real, q: real, t: real)
    requires q > 0.0
    ensures f + t * g + 0.5 * (t * t * q) >= f - g * g / (2.0 * q)
  {
    var s := g / q;
    assert s * q == g;
    assert g * g / (2.0 * q) == 0.5 * s * g;
    SquareNonneg(t + s);
    MulLe(q, 0.0, (t + s) * (t + s));
    assert q * ((t + s) * (t + s)) == t * t * q + 2.0 * t * g + s * g;
  }

  /** The curvature is not turned into minimise space, so for a maximisation the test can accept
      a ray of a bounded problem: maximise x - x*x/2 over all real x. */
  function BoundedMaximisation(): Model {
    Model(0, [[]], [1.0], 0.0, true, [NegInf], [PosInf], [], [], [HessianEntry(0, 0, -1.0)])
  }

  lemma UnitStep(m: Model)
    requires m.Valid() && |m.cols| == 1 && m.numRows == 0
    ensures Magnitude([1.0]) == 1.0
    ensures Improvement(m, [1.0]) == m.Sense() * m.colCost[0] && Magnitude(CostTerms(m, [1.0])) == Abs(m.colCost[0])
  {
    var d, terms := [1.0], CostTerms(m, [1.0]);
    assert terms[0] == m.Sense() * m.colCost[0];
    assert MagnitudeTo(d, 1) == Max(MagnitudeTo(d, 0), 1.0);
    assert MagnitudeTo(terms, 1) == Max(MagnitudeTo(terms, 0), Abs(terms[0]));
    assert SumTo(terms, 1) == SumTo(terms, 0) + terms[0];
  }

  lemma MaximisationRayCanBeWrong()
    ensures var m, d := BoundedMaximisation(), [1.0];
      && m.Valid() && ConvexInMinimiseSpace(m) && Feasible(m, [0.0])
      && Proves(m, d) && Accepts(m, d, 0.0)
      && forall x :: Feasible(m, x) ==> Objective(m, x) <= 0.5
  {
    var m, d := BoundedMaximisation(), [1.0];
    UnitStep(m);
    hide Magnitude, Improvement, Objective;
    forall v: seq<real> | |v| == 1 ensures Form(m, v, v) == -1.0 * (v[0] * v[0]) { BoundedForm(v); }
    hide Form;
    forall v: seq<real> | |v| == 1 ensures m.Sense() * Form(m, v, v) >= 0.0 { SquareNonneg(v[0]); }
    forall x | Feasible(m, x) ensures Objective(m, x) <= 0.5 { HalfAtMost(x); }
  }

  lemma BoundedForm(v: seq<real>)
    requires |v| == 1
    ensures Form(BoundedMaximisation(), v, v) == -1.0 * (v[0] * v[0])
  {
    var m := BoundedMaximisation();
    assert FormTo(m.hessian, v, v, 1) == FormTo(m.hessian, v, v, 0) + FormEntry(m.hessian[0], v, v);
  }

  lemma HalfAtMost(x: seq<real>)
    requires |x| == 1
    ensures Objective(BoundedMaximisation(), x) <= 0.5
  {
    var m := BoundedMaximisation();
    assert DotTo(m.colCost, x, 1) == DotTo(m.colCost, x, 0) + x[0];
    assert FormTo(m.hessian, x, x, 1) == FormTo(m.hessian, x, x, 0) + FormEntry(m.hessian[0], x, x);
    assert (x[0] - 1.0) * (x[0] - 1.0) >= 0.0;
  }

  /** Nor is the test proof enough for a minimisation at the solver's own tolerance, which lets a
      small curvature pass: minimise -x + x*x/10^8 over all real x. */
  function BarelyCurved(): Model {
    Model(0, [[]], [-1.0], 0.0, false, [NegInf], [PosInf], [], [], [HessianEntry(0, 0, 0.00000002)])
  }

  lemma MinimisationRayCanBeWrong()
    ensures var m, d := BarelyCurved(), [1.0];
      && m.Valid() && ConvexInMinimiseSpace(m) && Feasible(m, [0.0])
      && Proves(m, d) && !RunsAway(m, [0.0], d)
      && forall x :: Feasible(m, x) ==> Objective(m, x) >= -25000000.0
  {
    var m, d := BarelyCurved(), [1.0];
    UnitStep(m);
    hide Magnitude, Improvement, Objective, RunsAway;
    forall v: seq<real> | |v| == 1 ensures Form(m, v, v) == 0.00000002 * (v[0] * v[0]) { BarelyCurvedForm(v); }
    hide Form;
    forall v: seq<real> | |v| == 1 ensures m.Sense() * Form(m, v, v) >= 0.0 { SquareNonneg(v[0]); }
    AcceptedRayRunsAwayIffFlat(m, d, [0.0], Farkas.PRIMAL_FEASIBILITY);
    forall x | Feasible(m, x) ensures Objective(m, x) >= -25000000.0 { BarelyCurvedAtLeast(x); }
  }

  lemma BarelyCurvedForm(v: seq<real>)
    requires |v| == 1
    ensures Form(BarelyCurved(), v, v) == 0.00000002 * (v[0] * v[0])
  {
    var m := BarelyCurved();
    assert FormTo(m.hessian, v, v, 1) == FormTo(m.hessian, v, v, 0) + FormEntry(m.hessian[0], v, v);
  }

  lemma BarelyCurvedAtLeast(x: seq<real>)
    requires |x| == 1
    ensures Objective(BarelyCurved(), x) >= -25000000.0
  {
    var m := BarelyCurved();
    assert DotTo(m.colCost, x, 1) == DotTo(m.colCost, x, 0) - x[0];
    BarelyCurvedForm(x);
    SquareNonneg(x[0] - 50000000.0);
    assert (x[0] - 50000000.0) * (x[0] - 50000000.0) == x[0] * x[0] - 100000000.0 * x[0] + 2500000000000000.0;
  }
}
