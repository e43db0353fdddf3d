/** The independent verifier's judgement of an optimality claim: primal checks, reduced costs,
    signs, complementary slackness, and strong duality with an accounting of the violations the
    earlier checks accepted. */
module OptimalityChecks {
  import opened Prelude
  import opened Vectors
  import opened LpModel
  import opened Quadratic
  import opened Kkt
  import opened Reports
  import opened Farkas

  /** The numbers an optimal solution file states. */
  datatype Point = Point(
    x: seq<real>, rowActivity: seq<real>, rowDual: seq<real>, colDual: seq<real>, objective: Option<real>)
  {
    predicate Fits(m: Model) {
      |x| == |colDual| == |m.cols| && |rowActivity| == |rowDual| == m.numRows
    }
  }

  datatype Tolerances = Tolerances(
    primal: real, activity: real, objective: real, reducedCost: real, dual: real, complementarity: real, duality: real)
  {
    predicate Valid() {
      primal >= 0.0 && activity >= 0.0 && objective >= 0.0 && reducedCost >= 0.0 && dual >= 0.0
      && complementarity >= 0.0 && duality >= 0.0
    }
  }

  /** Three tolerances are arguments of the verifier; the others are fixed. */
  function Standard(primal: real, dual: real, duality: real): Tolerances {
    Tolerances(primal, 0.000001, 0.000000001, 0.000001, dual, 0.000001, duality)
  }

  const EXACT := Tolerances(0.0, 0.0, 0.0, 0.0, 0.0, 0.0, 0.0)

  // ---- What each check measures -------------------------------------------------------

  /** No lower bound is plus infinity and no upper bound minus infinity: a value is infinitely
      far outside such a bound. */
  predicate Upright(lo: seq<Bound>, hi: seq<Bound>)
    requires |lo| == |hi|
  {
    forall i :: 0 <= i < |lo| ==> !lo[i].PosInf? && !hi[i].NegInf?
  }

  /** How far a value is outside its bounds, where the distance is finite. */
  function Excess(lo: Bound, v: real, hi: Bound): real {
    Max(Max(if lo.Fin? then lo.v - v else 0.0, if hi.Fin? then v - hi.v else 0.0), 0.0)
  }

  function ColumnExcesses(m: Model, x: seq<real>): (r: seq<real>)
    requires m.Valid() && |x| == |m.cols|
    ensures |r| == |x|
  {
    seq(|x|, j requires 0 <= j < |x| => Excess(m.colLower[j], x[j], m.colUpper[j]) / Max(1.0, Abs(x[j])))
  }

  /** The running scale of one row: the largest term so far. */
  function RaiseEntry(out: seq<real>, e: Entry, xj: real): (r: seq<real>)
    requires e.row < |out|
    ensures |r| == |out|
  {
    out[e.row := Max(out[e.row], Abs(Mul(e.val, xj)))]
  }

  function RaiseColumnTo(out: seq<real>, col: seq<Entry>, xj: real, k: nat): (r: seq<real>)
    requires k <= |col| && ValidColumn(col, |out|)
    ensures |r| == |out|
    ensures forall i :: 0 <= i < |out| ==> r[i] >= out[i]
  {
    if k == 0 then out else RaiseEntry(RaiseColumnTo(out, col, xj, k - 1), col[k - 1], xj)
  }

  function RowScalesTo(m: Model, x: seq<real>, j: nat): (r: seq<real>)
    requires m.Valid() && |x| == |m.cols| && j <= |x|
    ensures |r| == m.numRows
    ensures forall i :: 0 <= i < |r| ==> r[i] >= 1.0
  {
    if j == 0 then seq(m.numRows, _ => 1.0)
    else RaiseColumnTo(RowScalesTo(m, x, j - 1), m.cols[j - 1], x[j - 1], |m.cols[j - 1]|)
  }

  /** Per row, the largest term its activity was summed from, at least 1. */
  function RowScales(m: Model, x: seq<real>): (r: seq<real>)
    requires m.Valid() && |x| == |m.cols|
    ensures |r| == m.numRows
    ensures forall i :: 0 <= i < |r| ==> r[i] >= 1.0
  {
    RowScalesTo(m, x, |x|)
  }

  function RowExcesses(m: Model, x: seq<real>): (r: seq<real>)
    requires m.Valid() && |x| == |m.cols|
    ensures |r| == m.numRows
  {
    seq(m.numRows, i requires 0 <= i < m.numRows =>
      Excess(m.rowLower[i], Times(m, x)[i], m.rowUpper[i]) / RowScales(m, x)[i])
  }

  function Differences(a: seq<real>, b: seq<real>): (r: seq<real>)
    requires |a| == |b|
    ensures |r| == |a|
    ensures forall i :: 0 <= i < |a| ==> r[i] == Abs(a[i] - b[i])
  {
    seq(|a|, i requires 0 <= i < |a| => Abs(a[i] - b[i]))
  }

  /** The scale of a column's reduced cost: its cost and the terms of a_j.y, at least 1. */
  function PriceScale(m: Model, x: seq<real>, y: seq<real>, j: nat): (scale: real)
    requires m.Valid() && |x| == |m.cols| && |y| == m.numRows && j < |x|
    ensures scale >= 1.0
  {
    ColumnScale(m.cols[j], y, |m.cols[j]|, Max(1.0, Abs(Cost(m, x)[j])))
  }

  function ReducedCostErrors(m: Model, x: seq<real>, y: seq<real>, d: seq<real>): (r: seq<real>)
    requires m.Valid() && |x| == |d| == |m.cols| && |y| == m.numRows
    ensures |r| == |x|
  {
    seq(|x|, j requires 0 <= j < |x| => Abs(ReducedCosts(m, x, y)[j] - d[j]) / PriceScale(m, x, y, j))
  }

  /** A multiplier pushing against a bound that does not exist. Any sign is right at equality. */
  function SignViolation(mult: real, lo: Bound, hi: Bound): real {
    if lo == hi then 0.0
    else if mult > 0.0 && !lo.Fin? then mult
    else if mult < 0.0 && !hi.Fin? then -mult
    else 0.0
  }

  function ColumnSignViolations(m: Model, x: seq<real>, y: seq<real>, d: seq<real>): (r: seq<real>)
    requires m.Valid() && |x| == |d| == |m.cols| && |y| == m.numRows
    ensures |r| == |x|
  {
    seq(|x|, j requires 0 <= j < |x| => SignViolation(d[j], m.colLower[j], m.colUpper[j]) / PriceScale(m, x, y, j))
  }

  /** Row prices are judged against the largest of them. */
  function DualNorm(y: seq<real>): real { Max(1.0, Magnitude(y)) }

  function RowSignViolations(m: Model, y: seq<real>): (r: seq<real>)
    requires m.Valid() && |y| == m.numRows
    ensures |r| == m.numRows
  {
    seq(m.numRows, i requires 0 <= i < m.numRows => SignViolation(y[i], m.rowLower[i], m.rowUpper[i]) / DualNorm(y))
  }

  /** The distance to the nearer bound, or none when there is no bound. */
  function NearestSlack(v: real, lo: Bound, hi: Bound): Option<real> {
    if lo.Fin? && hi.Fin? then Some(Min(v - lo.v, hi.v - v))
    else if lo.Fin? then Some(v - lo.v)
    else if hi.Fin? then Some(hi.v - v)
    else None
  }

  /** |multiplier| * slack; without any bound, the multiplier itself. Equalities are exempt. */
  function Complementarity(mult: real, v: real, lo: Bound, hi: Bound): real {
    if lo == hi then 0.0
    else match NearestSlack(v, lo, hi)
      case None => Abs(mult)
      case Some(slack) => Abs(mult) * slack
  }

  function Complementarities(mult: seq<real>, v: seq<real>, lo: seq<Bound>, hi: seq<Bound>): (r: seq<real>)
    requires |mult| == |v| == |lo| == |hi|
    ensures |r| == |v|
    ensures forall i :: 0 <= i < |v| ==> r[i] == Complementarity(mult[i], v[i], lo[i], hi[i])
  {
    seq(|v|, i requires 0 <= i < |v| => Complementarity(mult[i], v[i], lo[i], hi[i]))
  }

  // ---- The accounting -----------------------------------------------------------------

  function Distance(v: real, b: Bound): real { if b.Fin? then Abs(v - b.v) else Abs(v) }

  function NearestDistance(v: real, lo: Bound, hi: Bound): Option<real> {
    if lo.Fin? && hi.Fin? then Some(Min(Abs(v - lo.v), Abs(v - hi.v)))
    else if lo.Fin? then Some(Abs(v - lo.v))
    else if hi.Fin? then Some(Abs(v - hi.v))
    else None
  }

  function PricedBound(mult: real, lo: Bound, hi: Bound): Bound { if mult > 0.0 then lo else hi }

  /** The part of the gap one multiplier accounts for: all of it when the multiplier is within
      the dual tolerance, and otherwise only what complementary slackness accepted. */
  function Share(mult: real, v: real, lo: Bound, hi: Bound, scale: real, dualTol: real): real {
    if mult == 0.0 then 0.0
    else ShareOf(Abs(mult), Distance(v, PricedBound(mult, lo, hi)), NearestDistance(v, lo, hi), dualTol * scale)
  }

  function ShareOf(size: real, distance: real, nearest: Option<real>, allowed: real): real {
    if size <= allowed then Mul(size, distance)
    else match nearest
      case None => 0.0
      case Some(near) => Min(Mul(size, distance), Mul(size, near))
  }

  function ColumnShares(m: Model, x: seq<real>, y: seq<real>, d: seq<real>, dualTol: real): (r: seq<real>)
    requires m.Valid() && |x| == |d| == |m.cols| && |y| == m.numRows
    ensures |r| == |x|
    ensures forall j :: 0 <= j < |x| ==>
      r[j] == Share(d[j], x[j], m.colLower[j], m.colUpper[j], PriceScale(m, x, y, j), dualTol)
  {
    seq(|x|, j requires 0 <= j < |x| =>
        Share(d[j], x[j], m.colLower[j], m.colUpper[j], PriceScale(m, x, y, j), dualTol))
  }

  function RowShares(m: Model, x: seq<real>, y: seq<real>, dualTol: real): (r: seq<real>)
    requires m.Valid() && |x| == |m.cols| && |y| == m.numRows
    ensures |r| == m.numRows
    ensures forall i :: 0 <= i < m.numRows ==>
      r[i] == Share(y[i], Times(m, x)[i], m.rowLower[i], m.rowUpper[i], DualNorm(y), dualTol)
  {
    seq(m.numRows, i requires 0 <= i < m.numRows =>
      Share(y[i], Times(m, x)[i], m.rowLower[i], m.rowUpper[i], DualNorm(y), dualTol))
  }

  function Accounted(m: Model, x: seq<real>, y: seq<real>, d: seq<real>, dualTol: real): real
    requires m.Valid() && |x| == |d| == |m.cols| && |y| == m.numRows
  {
    Sum(ColumnShares(m, x, y, d, dualTol)) + Sum(RowShares(m, x, y, dualTol))
  }

  // ---- The checks ---------------------------------------------------------------------

  /** Row prices and reduced costs in minimise space. A quadratic solve reports no reduced
      costs, so they are derived. */
  function Prices(m: Model, p: Point): (y: seq<real>)
    ensures |y| == |p.rowDual|
  {
    seq(|p.rowDual|, i requires 0 <= i < |p.rowDual| => m.Sense() * p.rowDual[i])
  }

  function Reduced(m: Model, p: Point): (d: seq<real>)
    requires m.Valid() && p.Fits(m)
    ensures |d| == |p.x|
  {
    if m.hessian != [] then ReducedCosts(m, p.x, Prices(m, p))
    else seq(|p.x|, j requires 0 <= j < |p.x| => m.Sense() * p.colDual[j])
  }

  predicate ColumnBoundsOk(m: Model, p: Point, t: Tolerances)
    requires m.Valid() && p.Fits(m)
  {
    Upright(m.colLower, m.colUpper) && Worst(ColumnExcesses(m, p.x)) <= t.primal
  }

  predicate RowActivityOk(m: Model, p: Point, t: Tolerances)
    requires m.Valid() && p.Fits(m)
  {
    Upright(m.rowLower, m.rowUpper) && Worst(RowExcesses(m, p.x)) <= t.primal
  }

  predicate ActivityAgrees(m: Model, p: Point, t: Tolerances)
    requires m.Valid() && p.Fits(m)
  {
    Worst(Differences(Times(m, p.x), p.rowActivity)) <= t.activity
  }

  predicate ObjectiveAgrees(m: Model, p: Point, t: Tolerances)
    requires m.Valid() && p.Fits(m)
  {
    p.objective.Some? && Abs(Objective(m, p.x) - p.objective.value) <= t.objective * Max(1.0, Abs(Objective(m, p.x)))
  }

  predicate ReducedCostsOk(m: Model, p: Point, t: Tolerances)
    requires m.Valid() && p.Fits(m)
  {
    m.hessian != [] || Worst(ReducedCostErrors(m, p.x, Prices(m, p), Reduced(m, p))) <= t.reducedCost
  }

  predicate ColumnSignsOk(m: Model, p: Point, t: Tolerances)
    requires m.Valid() && p.Fits(m)
  {
    Worst(ColumnSignViolations(m, p.x, Prices(m, p), Reduced(m, p))) <= t.dual
  }

  predicate RowSignsOk(m: Model, p: Point, t: Tolerances)
    requires m.Valid() && p.Fits(m)
  {
    Worst(RowSignViolations(m, Prices(m, p))) <= t.dual
  }

  predicate ComplementarityOk(m: Model, p: Point, t: Tolerances)
    requires m.Valid() && p.Fits(m)
  {
    Max(Worst(Complementarities(Prices(m, p), Times(m, p.x), m.rowLower, m.rowUpper)),
        Worst(Complementarities(Reduced(m, p), p.x, m.colLower, m.colUpper))) <= t.complementarity
  }

  predicate GapAccountedFor(objective: real, dual: real, accounted: real, dualityTol: real) {
    Abs(objective - dual) <= dualityTol * Max(1.0, Abs(objective)) + accounted
  }

  predicate StrongDualityOk(m: Model, p: Point, t: Tolerances)
    requires m.Valid() && p.Fits(m)
  {
    var y, d := Prices(m, p), Reduced(m, p);
    GapAccountedFor(Objective(m, p.x), DualObjective(m, p.x, y, d), Accounted(m, p.x, y, d, t.dual), t.duality)
  }

  /** The outcome of each check, in the order the verifier makes them. */
  datatype Verdict = Verdict(
    columnBounds: bool, rowActivity: bool, activityAgrees: bool, objectiveAgrees: bool, reducedCosts: bool,
    columnSigns: bool, rowSigns: bool, complementarity: bool, strongDuality: bool)
  {
    predicate Accepts() {
      columnBounds && rowActivity && activityAgrees && objectiveAgrees && reducedCosts
      && columnSigns && rowSigns && complementarity && strongDuality
    }

    /** The lines printed for an optimal continuous solution without a basis. */
    function Lines(): (lines: seq<Line>)
      ensures AllPass(lines) <==> Accepts()
    {
      var lines := [
        Line(true, Structure), Line(columnBounds, ColumnBounds), Line(true, Integrality),
        Line(rowActivity, RowActivity), Line(activityAgrees, ActivityAgreement),
        Line(objectiveAgrees, ObjectiveValue), Line(reducedCosts, ReducedCostAgreement),
        Line(columnSigns, DualFeasibilityColumns), Line(rowSigns, DualFeasibilityRows),
        Line(complementarity, ComplementarySlackness), Line(strongDuality, StrongDuality)];
      assert lines[1].ok == columnBounds && lines[3].ok == rowActivity && lines[4].ok == activityAgrees;
      assert lines[5].ok == objectiveAgrees && lines[6].ok == reducedCosts && lines[7].ok == columnSigns;
      assert lines[8].ok == rowSigns && lines[9].ok == complementarity && lines[10].ok == strongDuality;
      lines
    }
  }

  function Judge(m: Model, p: Point, t: Tolerances): Verdict
    requires m.Valid() && p.Fits(m)
  {
    Verdict(ColumnBoundsOk(m, p, t), RowActivityOk(m, p, t), ActivityAgrees(m, p, t), ObjectiveAgrees(m, p, t),
            ReducedCostsOk(m, p, t), ColumnSignsOk(m, p, t), RowSignsOk(m, p, t), ComplementarityOk(m, p, t),
            StrongDualityOk(m, p, t))
  }

  // ---- The checks as loops ------------------------------------------------------------

  method WorstColumnExcess(m: Model, x: seq<real>) returns (worst: real, finite: bool)
    requires m.Valid() && |x| == |m.cols|
    ensures finite <==> Upright(m.colLower, m.colUpper)
    ensures worst == Worst(ColumnExcesses(m, x))
  {
    worst, finite := 0.0, true;
    for j := 0 to |x|
      invariant finite <==> forall k :: 0 <= k < j ==> !m.colLower[k].PosInf? && !m.colUpper[k].NegInf?
      invariant worst == MaxTo(ColumnExcesses(m, x), j)
    {
      if m.colLower[j].PosInf? || m.colUpper[j].NegInf? { finite := false; }
      var scaled := Excess(m.colLower[j], x[j], m.colUpper[j]) / Max(1.0, Abs(x[j]));
      if scaled > worst { worst := scaled; }
    }
  }

  /** Row activities and the scale each was summed at, skipping columns at zero. */
  method MeasureRows(m: Model, x: seq<real>) returns (activity: seq<real>, scale: seq<real>)
    requires m.Valid() && |x| == |m.cols|
    ensures activity == Times(m, x) && scale == RowScales(m, x)
  {
    activity, scale := Zeros(m.numRows), seq(m.numRows, _ => 1.0);
    for j := 0 to |x|
      invariant activity == TimesTo(m, x, j) && scale == RowScalesTo(m, x, j)
    {
      if x[j] == 0.0 {
        ZeroColumn(activity, scale, m.cols[j], x[j], |m.cols[j]|);
      } else {
        activity, scale := MeasureColumn(activity, scale, m.cols[j], x[j]);
      }
    }
  }

  method MeasureColumn(activity0: seq<real>, scale0: seq<real>, col: seq<Entry>, xj: real)
    returns (activity: seq<real>, scale: seq<real>)
    requires |activity0| == |scale0| && ValidColumn(col, |activity0|)
    ensures activity == AddColumnTo(activity0, col, xj, |col|) && scale == RaiseColumnTo(scale0, col, xj, |col|)
  {
    hide Mul;
    activity, scale := activity0, scale0;
    for k := 0 to |col|
      invariant |activity| == |scale| == |activity0|
      invariant activity == AddColumnTo(activity0, col, xj, k) && scale == RaiseColumnTo(scale0, col, xj, k)
    {
      var i, term := col[k].row, Mul(col[k].val, xj);
      activity := activity[i := activity[i] + term];
      assert RaiseColumnTo(scale0, col, xj, k + 1) == RaiseEntry(scale, col[k], xj);
      if Abs(term) > scale[i] { scale := scale[i := Abs(term)]; }
      assert scale == RaiseColumnTo(scale0, col, xj, k + 1);
    }
  }

  lemma {:induction false} ZeroColumn(activity: seq<real>, scale: seq<real>, col: seq<Entry>, xj: real, k: nat)
    requires xj == 0.0 && |activity| == |scale| && k <= |col| && ValidColumn(col, |activity|)
    requires forall i :: 0 <= i < |scale| ==> scale[i] >= 1.0
    ensures AddColumnTo(activity, col, xj, k) == activity && RaiseColumnTo(scale, col, xj, k) == scale
  {
    if k > 0 { ZeroColumn(activity, scale, col, xj, k - 1); }
  }

  method WorstRowExcess(m: Model, x: seq<real>, activity: seq<real>, scale: seq<real>)
    returns (worst: real, finite: bool)
    requires m.Valid() && |x| == |m.cols| && activity == Times(m, x) && scale == RowScales(m, x)
    ensures finite <==> Upright(m.rowLower, m.rowUpper)
    ensures worst == Worst(RowExcesses(m, x))
  {
    worst, finite := 0.0, true;
    for i := 0 to m.numRows
      invariant finite <==> forall k :: 0 <= k < i ==> !m.rowLower[k].PosInf? && !m.rowUpper[k].NegInf?
      invariant worst == MaxTo(RowExcesses(m, x), i)
    {
      if m.rowLower[i].PosInf? || m.rowUpper[i].NegInf? { finite := false; }
      var scaled := Excess(m.rowLower[i], activity[i], m.rowUpper[i]) / scale[i];
      if scaled > worst { worst := scaled; }
    }
  }

  method WorstDifference(a: seq<real>, b: seq<real>) returns (worst: real)
    requires |a| == |b|
    ensures worst == Worst(Differences(a, b))
  {
    worst := 0.0;
    for i := 0 to |a|
      invariant worst == MaxTo(Differences(a, b), i)
    {
      worst := Max(worst, Abs(a[i] - b[i]));
    }
  }

  /** Q x, each stored off-diagonal entry contributing to both of its rows. */
  method MeasureHessian(m: Model, x: seq<real>) returns (out: seq<real>)
    requires m.Valid() && |x| == |m.cols|
    ensures out == HessianTimes(m, x)
  {
    hide Mul;
    out := Zeros(|x|);
    for k := 0 to |m.hessian|
      invariant |out| == |x| && out == HessianTimesTo(m.hessian, x, k)
    {
      var e := m.hessian[k];
      assert HessianTimesTo(m.hessian, x, k + 1) == AddHessianEntry(out, e, x);
      out := out[e.row := out[e.row] + Mul(e.val, x[e.col])];
      if e.row != e.col { out := out[e.col := out[e.col] + Mul(e.val, x[e.row])]; }
    }
  }

  /** offset + c.x + x'Qx/2 */
  method MeasureObjective(m: Model, x: seq<real>) returns (objective: real, quadratic: real)
    requires m.Valid() && |x| == |m.cols|
    ensures objective == Objective(m, x) && quadratic == QuadraticObjective(m, x)
  {
    var linear := 0.0;
    for j := 0 to |x|
      invariant linear == DotTo(m.colCost, x, j)
    {
      linear := linear + m.colCost[j] * x[j];
    }
    quadratic := 0.0;
    if m.hessian != [] {
      var qx := MeasureHessian(m, x);
      var sum := 0.0;
      for j := 0 to |x|
        invariant sum == DotTo(x, qx, j)
      {
        sum := sum + x[j] * qx[j];
      }
      quadratic := 0.5 * sum;
      DotHessianTimes(m, x, x);
    }
    objective := m.offset + linear + quadratic;
  }

  /** The gradient in minimise space: c, plus Q x when there is a Hessian. */
  method MeasureCost(m: Model, x: seq<real>) returns (cost: seq<real>)
    requires m.Valid() && |x| == |m.cols|
    ensures cost == Cost(m, x)
  {
    var qx := Zeros(|x|);
    if m.hessian != [] { qx := MeasureHessian(m, x); }
    assert qx == HessianTimes(m, x);
    cost := seq(|x|, j requires 0 <= j < |x| => m.Sense() * (m.colCost[j] + qx[j]));
  }

  /** c + Qx - A'y, and the scale of each component. */
  method MeasureReducedCosts(m: Model, x: seq<real>, y: seq<real>) returns (expected: seq<real>, scale: seq<real>)
    requires m.Valid() && |x| == |m.cols| && |y| == m.numRows
    ensures expected == ReducedCosts(m, x, y) && |scale| == |x|
    ensures forall j :: 0 <= j < |x| ==> scale[j] == PriceScale(m, x, y, j)
  {
    var cost := MeasureCost(m, x);
    expected, scale := [], [];
    for j := 0 to |x|
      invariant |expected| == |scale| == j
      invariant forall l :: 0 <= l < j ==> expected[l] == ReducedCosts(m, x, y)[l]
      invariant forall l :: 0 <= l < j ==> scale[l] == PriceScale(m, x, y, l)
    {
      var sum, largest := AggregateColumn(m.cols[j], y, Max(1.0, Abs(cost[j])));
      expected := expected + [cost[j] - sum];
      scale := scale + [largest];
    }
  }

  method WorstReducedCostError(m: Model, x: seq<real>, y: seq<real>, d: seq<real>, expected: seq<real>,
      scale: seq<real>)
    returns (worst: real)
    requires m.Valid() && |x| == |d| == |scale| == |m.cols| && |y| == m.numRows && expected == ReducedCosts(m, x, y)
    requires forall j :: 0 <= j < |x| ==> scale[j] == PriceScale(m, x, y, j)
    ensures worst == Worst(ReducedCostErrors(m, x, y, d))
  {
    hide ReducedCosts, PriceScale;
    worst := 0.0;
    for j := 0 to |x|
      invariant worst == MaxTo(ReducedCostErrors(m, x, y, d), j)
    {
      var error := Abs(expected[j] - d[j]) / scale[j];
      if error > worst { worst := error; }
    }
  }

  method WorstColumnSign(m: Model, x: seq<real>, y: seq<real>, d: seq<real>, scale: seq<real>) returns (worst: real)
    requires m.Valid() && |x| == |d| == |scale| == |m.cols| && |y| == m.numRows
    requires forall j :: 0 <= j < |x| ==> scale[j] == PriceScale(m, x, y, j)
    ensures worst == Worst(ColumnSignViolations(m, x, y, d))
  {
    hide PriceScale;
    worst := 0.0;
    for j := 0 to |x|
      invariant worst == MaxTo(ColumnSignViolations(m, x, y, d), j)
    {
      var violation := SignViolation(d[j], m.colLower[j], m.colUpper[j]) / scale[j];
      if violation > worst { worst := violation; }
    }
  }

  method WorstRowSign(m: Model, y: seq<real>) returns (worst: real, dualNorm: real)
    requires m.Valid() && |y| == m.numRows
    ensures worst == Worst(RowSignViolations(m, y)) && dualNorm == DualNorm(y)
  {
    var largest := 0.0;
    for i := 0 to |y|
      invariant largest == MagnitudeTo(y, i)
    {
      largest := Max(largest, Abs(y[i]));
    }
    dualNorm := Max(1.0, largest);
    worst := 0.0;
    for i := 0 to |y|
      invariant worst == MaxTo(RowSignViolations(m, y), i)
    {
      var violation := SignViolation(y[i], m.rowLower[i], m.rowUpper[i]) / dualNorm;
      if violation > worst { worst := violation; }
    }
  }

  method WorstComplementarity(mult: seq<real>, v: seq<real>, lo: seq<Bound>, hi: seq<Bound>) returns (worst: real)
    requires |mult| == |v| == |lo| == |hi|
    ensures worst == Worst(Complementarities(mult, v, lo, hi))
  {
    hide Complementarity;
    worst := 0.0;
    for i := 0 to |v|
      invariant worst == MaxTo(Complementarities(mult, v, lo, hi), i)
    {
      var product := Complementarity(mult[i], v[i], lo[i], hi[i]);
      if product > worst { worst := product; }
    }
  }

  method SumContributions(mult: seq<real>, lo: seq<Bound>, hi: seq<Bound>) returns (sum: real)
    requires |mult| == |lo| == |hi|
    ensures sum == Sum(Contributions(mult, lo, hi))
  {
    sum := 0.0;
    for i := 0 to |mult|
      invariant sum == SumTo(Contributions(mult, lo, hi), i)
    {
      sum := sum + BoundContribution(mult[i], lo[i], hi[i]);
    }
  }

  method SumColumnShares(m: Model, x: seq<real>, y: seq<real>, d: seq<real>, scale: seq<real>, dualTol: real)
    returns (accounted: real)
    requires m.Valid() && |x| == |d| == |scale| == |m.cols| && |y| == m.numRows
    requires forall j :: 0 <= j < |x| ==> scale[j] == PriceScale(m, x, y, j)
    ensures accounted == Sum(ColumnShares(m, x, y, d, dualTol))
  {
    hide Share, PriceScale;
    ghost var shares := ColumnShares(m, x, y, d, dualTol);
    hide ColumnShares;
    accounted := 0.0;
    for j := 0 to |x|
      invariant accounted == SumTo(shares, j)
    {
      var share := Share(d[j], x[j], m.colLower[j], m.colUpper[j], scale[j], dualTol);
      assert share == shares[j];
      accounted := accounted + share;
    }
  }

  method SumRowShares(m: Model, x: seq<real>, y: seq<real>, activity: seq<real>, dualTol: real)
    returns (accounted: real)
    requires m.Valid() && |x| == |m.cols| && |y| == m.numRows && activity == Times(m, x)
    ensures accounted == Sum(RowShares(m, x, y, dualTol))
  {
    hide Share, DualNorm;
    ghost var shares := RowShares(m, x, y, dualTol);
    hide RowShares;
    var dualNorm := DualNorm(y);
    accounted := 0.0;
    for i := 0 to m.numRows
      invariant accounted == SumTo(shares, i)
    {
      var share := Share(y[i], activity[i], m.rowLower[i], m.rowUpper[i], dualNorm, dualTol);
      assert share == shares[i];
      accounted := accounted + share;
    }
  }

  /** The run of the verifier on an optimality claim, check by check. */
  method Examine(m: Model, p: Point, t: Tolerances) returns (v: Verdict)
    requires m.Valid() && p.Fits(m)
    ensures v == Judge(m, p, t)
  {
    hide Worst, ColumnExcesses, RowExcesses, Upright, Objective, QuadraticObjective, Times, RowScales, Prices, Reduced,
      Max,
      ReducedCostsOk, ColumnSignsOk, RowSignsOk, ComplementarityOk, StrongDualityOk, Differences;
    var columnExcess, columnsFinite := WorstColumnExcess(m, p.x);
    var activity, rowScale := MeasureRows(m, p.x);
    var rowExcess, rowsFinite := WorstRowExcess(m, p.x, activity, rowScale);
    var activityGap := WorstDifference(activity, p.rowActivity);
    var objective, quadratic := MeasureObjective(m, p.x);
    var objectiveAgrees := p.objective.Some?
        && Abs(objective - p.objective.value) <= t.objective * Max(1.0, Abs(objective));
    var y := Prices(m, p);
    var signs, rowSigns, complementary, strong, reduced := ExamineDuals(m, p, t, y, activity, objective, quadratic);
    v := Verdict(columnsFinite && columnExcess <= t.primal, rowsFinite && rowExcess <= t.primal,
                 activityGap <= t.activity, objectiveAgrees, reduced, signs, rowSigns, complementary, strong);
  }

  method ExamineDuals(m: Model, p: Point, t: Tolerances, y: seq<real>, activity: seq<real>, objective: real,
      quadratic: real)
    returns (columnSigns: bool, rowSigns: bool, complementary: bool, strong: bool, reduced: bool)
    requires m.Valid() && p.Fits(m) && y == Prices(m, p) && activity == Times(m, p.x)
    requires objective == Objective(m, p.x) && quadratic == QuadraticObjective(m, p.x)
    ensures reduced == ReducedCostsOk(m, p, t) && columnSigns == ColumnSignsOk(m, p, t)
      && rowSigns == RowSignsOk(m, p, t)
    ensures complementary == ComplementarityOk(m, p, t) && strong == StrongDualityOk(m, p, t)
  {
    hide Objective, Prices, ReducedCosts, QuadraticObjective, ReducedCostErrors, PriceScale, Worst, Max,
      ColumnSignViolations, RowSignViolations, Complementarities, Sum, Contributions, Times, GapAccountedFor,
      DualObjective;
    var expected, scale := MeasureReducedCosts(m, p.x, y);
    var d := expected;
    reduced := true;
    if m.hessian == [] {
      d := seq(|p.x|, j requires 0 <= j < |p.x| => m.Sense() * p.colDual[j]);
      var error := WorstReducedCostError(m, p.x, y, d, expected, scale);
      reduced := error <= t.reducedCost;
    }
    assert d == Reduced(m, p);
    var columnSign := WorstColumnSign(m, p.x, y, d, scale);
    var rowSign, dualNorm := WorstRowSign(m, y);
    columnSigns, rowSigns := columnSign <= t.dual, rowSign <= t.dual;
    var rowProduct := WorstComplementarity(y, activity, m.rowLower, m.rowUpper);
    var columnProduct := WorstComplementarity(d, p.x, m.colLower, m.colUpper);
    complementary := Max(rowProduct, columnProduct) <= t.complementarity;
    var rowSum := SumContributions(y, m.rowLower, m.rowUpper);
    var columnSum := SumContributions(d, m.colLower, m.colUpper);
    var columnShares := SumColumnShares(m, p.x, y, d, scale, t.dual);
    var rowShares := SumRowShares(m, p.x, y, activity, t.dual);
    var dual := m.Sense() * (rowSum + columnSum) + m.offset - quadratic;
    strong := GapAccountedFor(objective, dual, columnShares + rowShares, t.duality);
    DualIsMeasured(m, p.x, y, d, rowSum, columnSum, quadratic);
  }

  lemma DualIsMeasured(m: Model, x: seq<real>, y: seq<real>, d: seq<real>, rowSum: real, columnSum: real,
      quadratic: real)
    requires m.Valid() && |x| == |d| == |m.cols| && |y| == m.numRows
    requires rowSum == Sum(Contributions(y, m.rowLower, m.rowUpper))
    requires columnSum == Sum(Contributions(d, m.colLower, m.colUpper)) && quadratic == QuadraticObjective(m, x)
    ensures m.Sense() * (rowSum + columnSum) + m.offset - quadratic == DualObjective(m, x, y, d)
  {
    hide Sum, Contributions, QuadraticObjective;
  }

  /** The verifier: one line per check, appended in order. */
  method Verify(m: Model, p: Point, primalTol: real, dualTol: real, dualityTol: real, report: Report)
    requires m.Valid() && p.Fits(m) && report.Valid()
    modifies report
    ensures report.Valid()
    ensures report.lines == old(report.lines) + Judge(m, p, Standard(primalTol, dualTol, dualityTol)).Lines()
  {
    hide Judge, Verdict.Lines, FailuresIn;
    var v := Examine(m, p, Standard(primalTol, dualTol, dualityTol));
    var lines := v.Lines();
    for k := 0 to |lines|
      invariant report.Valid() && report.lines == old(report.lines) + lines[..k]
    {
      report.Check(lines[k].ok, lines[k].name);
      assert lines[..k + 1] == lines[..k] + [lines[k]];
    }
    assert lines[..] == lines;
  }
}
