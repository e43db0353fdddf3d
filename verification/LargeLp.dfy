/** The large sparse LP built backwards from a chosen primal-dual pair. The sparsity pattern and
    every draw are arbitrary inputs; the optimum is known whatever they are. */
module LargeLp {
  import opened Vectors
  import opened LpModel
  import Quadratic
  import Kkt

  const COEFFICIENT_RANGE: nat := 9
  const PRIMAL_RANGE: nat := 9
  const BOUND_SLACK: nat := 3

  type Magnitude = v: nat | v <= COEFFICIENT_RANGE
  type Level = v: nat | v <= PRIMAL_RANGE
  type Slack = v: nat | v <= BOUND_SLACK

  datatype Draws = Draws(
    level: nat -> Level,
    active: nat -> bool,
    price: nat -> Magnitude,
    reducedCost: nat -> Magnitude,
    rowSlack: nat -> Slack,
    boundSlack: nat -> Slack)

  /** The activities A x, column by column, skipping the columns at zero. */
  method Activities(m: Model, x: seq<real>) returns (activity: seq<real>)
    requires m.Valid() && |x| == |m.cols|
    ensures activity == Times(m, x)
  {
    activity := Zeros(m.numRows);
    for j := 0 to |x|
      invariant |activity| == m.numRows && activity == TimesTo(m, x, j)
    {
      ghost var before := activity;
      if x[j] == 0.0 {
        AddNothing(before, m.cols[j], |m.cols[j]|);
        continue;
      }
      for k := 0 to |m.cols[j]|
        invariant |activity| == m.numRows && activity == AddColumnTo(before, m.cols[j], x[j], k)
      {
        activity := AddEntry(activity, m.cols[j][k], x[j]);
      }
    }
  }

  lemma ZeroTerm(e: Entry, y: seq<real>)
    requires e.row < |y| && y[e.row] == 0.0
    ensures Term(e, y) == 0.0
  {
  }

  /** c = A'y + d, skipping the rows with no price. */
  method PriceColumns(m: Model, y: seq<real>, d: seq<real>) returns (cost: seq<real>)
    requires m.Valid() && |y| == m.numRows && |d| == |m.cols|
    ensures |cost| == |d| && forall j :: 0 <= j < |d| ==> cost[j] == d[j] + ColDot(m.cols[j], y)
  {
    hide Mul;
    cost := d;
    for j := 0 to |d|
      invariant |cost| == |d|
      invariant forall q :: 0 <= q < j ==> cost[q] == d[q] + ColDot(m.cols[q], y)
      invariant forall q :: j <= q < |d| ==> cost[q] == d[q]
    {
      var sum := cost[j];
      for k := 0 to |m.cols[j]|
        invariant sum == d[j] + ColDotTo(m.cols[j], y, k)
      {
        var e := m.cols[j][k];
        if y[e.row] != 0.0 { sum := sum + Mul(e.val, y[e.row]); } else { ZeroTerm(e, y); }
      }
      cost := cost[j := sum];
    }
  }

  method ChoosePoint(cols: nat, draws: Draws) returns (x: seq<real>)
    ensures |x| == cols && forall j :: 0 <= j < cols ==> x[j] == draws.level(j) as real
  {
    x := [];
    for j := 0 to cols
      invariant |x| == j && forall q :: 0 <= q < j ==> x[q] == draws.level(q) as real
    {
      x := x + [draws.level(j) as real];
    }
  }

  function DrawnPrice(draws: Draws, i: nat): real { if draws.active(i) then draws.price(i) as real else 0.0 }

  function DrawnReducedCost(draws: Draws, x: real, j: nat): real {
    if x > 0.0 then 0.0 else draws.reducedCost(j) as real
  }

  function DrawnRhs(draws: Draws, activity: real, i: nat): real {
    if draws.active(i) then activity else activity - 1.0 - draws.rowSlack(i) as real
  }

  /** The point, the prices and the costs are the ones the draws determine. */
  predicate PointDrawn(m: Model, x: seq<real>, y: seq<real>, draws: Draws)
    requires m.Valid() && |x| == |m.cols| && |y| == m.numRows
  {
    && (forall j :: 0 <= j < |x| ==> x[j] == draws.level(j) as real)
    && (forall i :: 0 <= i < |y| ==> y[i] == DrawnPrice(draws, i))
    && (forall j :: 0 <= j < |x| ==> m.colCost[j] == DrawnReducedCost(draws, x[j], j) + ColDot(m.cols[j], y))
  }

  /** Rows are tight where active and slack by the draw elsewhere; bounds leave the point inside. */
  predicate BoundsDrawn(m: Model, x: seq<real>, draws: Draws)
    requires m.Valid() && |x| == |m.cols|
  {
    && (forall i :: 0 <= i < m.numRows ==>
        m.rowLower[i] == Fin(DrawnRhs(draws, Times(m, x)[i], i)) && m.rowUpper[i].PosInf?)
    && (forall j :: 0 <= j < |x| ==>
        m.colLower[j] == Fin(0.0) && m.colUpper[j] == Fin(x[j] + draws.boundSlack(j) as real))
  }

  /** Builds the instance around a chosen point and chosen prices, for any pattern of entries. */
  method Build(rows: nat, entries: seq<seq<Entry>>, draws: Draws)
    returns (m: Model, x: seq<real>, y: seq<real>, optimum: real)
    requires forall j :: 0 <= j < |entries| ==> ValidColumn(entries[j], rows)
    ensures m.Valid() && m.numRows == rows && m.cols == entries && !m.maximize && m.hessian == []
    ensures |x| == |entries| && optimum == Quadratic.Objective(m, x)
    ensures Kkt.KktHolds(m, x, y)
    ensures Quadratic.IsOptimal(m, x)
    ensures PointDrawn(m, x, y, draws) && BoundsDrawn(m, x, draws)
  {
    hide Times, TimesTo, ColDot, Dot, Kkt.KktHolds, Quadratic.IsOptimal, Quadratic.Objective, Mul;
    var cols := |entries|;
    m := Model(rows, entries, Zeros(cols), 0.0, false, seq(cols, _ => Fin(0.0)), seq(cols, _ => PosInf),
               seq(rows, _ => NegInf), seq(rows, _ => PosInf), []);
    x := ChoosePoint(cols, draws);
    y := seq(rows, i requires 0 <= i < rows => DrawnPrice(draws, i));
    var activity := Activities(m, x);
    var d := seq(cols, j requires 0 <= j < cols => DrawnReducedCost(draws, x[j], j));
    var cost := PriceColumns(m, y, d);
    var rhs := seq(rows, i requires 0 <= i < rows => Fin(DrawnRhs(draws, activity[i], i)));
    var upper := seq(cols, j requires 0 <= j < cols => Fin(x[j] + draws.boundSlack(j) as real));
    ghost var unbounded := m;
    m := m.(colCost := cost, rowLower := rhs, colUpper := upper);
    SameProducts(unbounded, m, x);
    optimum := Evaluate(cost, x);
    ConstructionHolds(m, x, y, d);
    Kkt.LinearIsConvex(m);
    Kkt.KktIsOptimal(m, x, y);
    Quadratic.LinearObjective(m, x);
  }

  lemma ConstructionHolds(m: Model, x: seq<real>, y: seq<real>, d: seq<real>)
    requires m.Valid() && |x| == |d| == |m.cols| && |y| == m.numRows && !m.maximize && m.hessian == []
    requires forall j :: 0 <= j < |x| ==> m.colCost[j] == d[j] + ColDot(m.cols[j], y)
    requires forall j :: 0 <= j < |x| ==> x[j] >= 0.0 && d[j] >= 0.0 && (x[j] > 0.0 ==> d[j] == 0.0)
    requires forall j :: 0 <= j < |x| ==> m.colLower[j] == Fin(0.0) && m.colUpper[j].Fin? && m.colUpper[j].v >= x[j]
    requires forall i :: 0 <= i < m.numRows ==>
      m.rowLower[i].Fin? && m.rowUpper[i].PosInf? && y[i] >= 0.0
      && if y[i] > 0.0 then m.rowLower[i].v == Times(m, x)[i] else m.rowLower[i].v <= Times(m, x)[i]
    ensures Kkt.KktHolds(m, x, y)
  {
    hide Times, ColDot;
    Quadratic.LinearObjective(m, x);
    forall j | 0 <= j < |x| ensures Kkt.ReducedCosts(m, x, y)[j] == d[j] {
      Kkt.ReducedCostAt(m, x, y, j);
      assert m.Sense() == 1.0 && Quadratic.HessianTimes(m, x)[j] == 0.0;
    }
  }
}
