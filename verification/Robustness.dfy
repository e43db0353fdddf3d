/** The robustness sweep's instances: an LP built backwards from a chosen optimum, and the
    transformations that must leave that optimum in place. The random draws are arbitrary
    functions into the ranges the generator draws from. */
module Robustness {
  import opened Vectors
  import opened LpModel
  import opened RowLp
  import opened Scaling

  datatype Instance = Instance(lp: Lp, expected: real, xStar: seq<real>, active: nat)

  type Level = v: nat | v <= 5
  type Coefficient = v: int | -6 <= v <= 6
  type Positive = v: nat | 1 <= v witness 1

  /** Every draw of the construction. A magnitude is any positive integer, which covers each
      span the cost-ratio family asks for. */
  datatype Draws = Draws(
    level: nat -> Level,
    coefficient: (nat, nat) -> Coefficient,
    fallbackColumn: nat -> nat,
    fallback: nat -> Positive,
    price: nat -> Positive,
    reducedCost: nat -> nat,
    slack: nat -> Positive)

  // ---- Dense and sparse rows ------------------------------------------------------------

  /** The nonzeros among the first k coefficients of a dense row. */
  function SparseTo(row: seq<real>, k: nat): (r: seq<Entry>)
    requires k <= |row|
    ensures ValidColumn(r, |row|)
    ensures forall p :: 0 <= p < |r| ==> r[p].row < k
    ensures r == [] <==> forall j :: 0 <= j < k ==> row[j] == 0.0
  {
    if k == 0 then []
    else SparseTo(row, k - 1) + if row[k - 1] != 0.0 then [Entry(k - 1, row[k - 1])] else []
  }

  lemma {:induction false} SparseDot(row: seq<real>, x: seq<real>, k: nat)
    requires k <= |row| == |x|
    ensures ColDot(SparseTo(row, k), x) == DotTo(row, x, k)
  {
    hide Mul;
    if k > 0 {
      SparseDot(row, x, k - 1);
      var before := SparseTo(row, k - 1);
      if row[k - 1] != 0.0 {
        ColDotAppend(before, Entry(k - 1, row[k - 1]), x);
      } else {
        assert SparseTo(row, k) == before;
        MulZero(x[k - 1]);
      }
    }
  }

  /** Adding a sparse row times t to a vector adds the dense row times t. */
  lemma {:induction false} SparseAdd(out: seq<real>, row: seq<real>, t: real, k: nat, j: nat)
    requires k <= |row| == |out| && j < |out|
    ensures AddColumnTo(out, SparseTo(row, k), t, |SparseTo(row, k)|)[j]
            == out[j] + if j < k then Mul(row[j], t) else 0.0
  {
    hide Mul;
    if k > 0 {
      SparseAdd(out, row, t, k - 1, j);
      var before := SparseTo(row, k - 1);
      if row[k - 1] != 0.0 {
        AddColumnAppend(out, before, Entry(k - 1, row[k - 1]), t);
      } else {
        assert SparseTo(row, k) == before;
        MulZero(t);
      }
    }
  }

  predicate Rectangular(a: seq<seq<real>>, cols: nat) {
    forall i :: 0 <= i < |a| ==> |a[i]| == cols
  }

  /** sum of a[i][j] * y[i] over the first k rows */
  function ColumnSumTo(a: seq<seq<real>>, y: seq<real>, j: nat, k: nat): real
    requires k <= |a| && |a| <= |y| && forall i :: 0 <= i < |a| ==> j < |a[i]|
  {
    if k == 0 then 0.0 else ColumnSumTo(a, y, j, k - 1) + Mul(a[k - 1][j], y[k - 1])
  }

  predicate IsSparse(entries: seq<Entry>, row: seq<real>, cols: nat)
    requires |row| == cols
  {
    entries == SparseTo(row, cols)
  }

  /** The rows are the nonzeros of the first rows of the dense matrix. */
  predicate AreSparse(rows: seq<seq<Entry>>, a: seq<seq<real>>, cols: nat)
    requires |rows| <= |a| && Rectangular(a, cols)
  {
    forall i :: 0 <= i < |rows| ==> IsSparse(rows[i], a[i], cols)
  }

  lemma {:induction false} PulledIsColumnSum(p: Lp, a: seq<seq<real>>, y: seq<real>, j: nat, k: nat)
    requires p.Valid() && j < p.NumCols() && |y| == |p.rows| == |a| && k <= |a| && Rectangular(a, p.NumCols())
    requires AreSparse(p.rows, a, p.NumCols())
    ensures TimesTo(p.Transposed(), y, k)[j] == ColumnSumTo(a, y, j, k)
  {
    hide Mul, SparseTo, AddColumnTo;
    if k > 0 {
      PulledIsColumnSum(p, a, y, j, k - 1);
      SparseAdd(TimesTo(p.Transposed(), y, k - 1), a[k - 1], y[k - 1], p.NumCols(), j);
    }
  }

  // ---- The construction ---------------------------------------------------------------

  predicate PositiveRows(p: Lp)
    requires p.Valid()
  {
    forall i :: 0 <= i < |p.rows| ==> p.rows[i] != [] && p.rowLower[i].Fin? && p.rowUpper[i].PosInf?
  }

  /** What the transformations rely on: >= rows, none empty, the first `active` of them tight at
      the stated point, and the stated objective being that point's. */
  ghost predicate Stated(inst: Instance) {
    && inst.lp.Valid() && PositiveRows(inst.lp)
    && 1 <= inst.active <= |inst.lp.rows|
    && RowLp.Feasible(inst.lp, inst.xStar)
    && (forall i :: 0 <= i < inst.active ==> inst.lp.rowLower[i] == Fin(Activities(inst.lp, inst.xStar)[i]))
    && inst.expected == Objective(inst.lp, inst.xStar)
  }

  /** x is the drawn levels, or 3 in the first place when every level is zero. */
  predicate PointDrawn(x: seq<real>, draws: Draws) {
    if forall j :: 0 <= j < |x| ==> draws.level(j) == 0
    then forall j :: 0 <= j < |x| ==> x[j] == if j == 0 then 3.0 else 0.0
    else forall j :: 0 <= j < |x| ==> x[j] == draws.level(j) as real
  }

  /** A dense row is its drawn coefficients, or one drawn fallback when all of them are zero. */
  predicate RowDrawn(row: seq<real>, i: nat, draws: Draws) {
    if forall j :: 0 <= j < |row| ==> draws.coefficient(i, j) == 0
    then forall j :: 0 <= j < |row| ==>
        row[j] == if j == draws.fallbackColumn(i) % |row| then draws.fallback(i) as real else 0.0
    else forall j :: 0 <= j < |row| ==> row[j] == draws.coefficient(i, j) as real
  }

  function DrawnPrice(i: nat, active: nat, draws: Draws): real {
    if i < active then draws.price(i) as real else 0.0
  }

  function DrawnReducedCost(x: real, j: nat, draws: Draws): real {
    if x > 0.0 then 0.0 else draws.reducedCost(j) as real
  }

  function DrawnRhs(activity: real, i: nat, active: nat, draws: Draws): real {
    if i < active then activity else activity - draws.slack(i) as real
  }

  method ChoosePoint(cols: nat, draws: Draws) returns (x: seq<real>)
    requires cols >= 1
    ensures |x| == cols && forall j :: 0 <= j < cols ==> x[j] >= 0.0
    ensures PointDrawn(x, draws)
  {
    x := [];
    var allZero := true;
    for j := 0 to cols
      invariant |x| == j && forall i :: 0 <= i < j ==> x[i] == draws.level(i) as real
      invariant allZero <==> forall i :: 0 <= i < j ==> draws.level(i) == 0
    {
      x := x + [draws.level(j) as real];
      if draws.level(j) != 0 { allZero := false; }
    }
    if allZero { x := x[0 := 3.0]; }
  }

  /** A dense row with at least one nonzero. */
  method ChooseRow(cols: nat, i: nat, draws: Draws) returns (row: seq<real>)
    requires cols >= 1
    ensures |row| == cols && RowDrawn(row, i, draws) && exists j :: 0 <= j < cols && row[j] != 0.0
  {
    row := [];
    var nonzeros := 0;
    ghost var filled := 0;
    for j := 0 to cols
      invariant |row| == j && nonzeros >= 0 && forall q :: 0 <= q < j ==> row[q] == draws.coefficient(i, q) as real
      invariant nonzeros > 0 ==> 0 <= filled < j && draws.coefficient(i, filled) != 0
      invariant nonzeros == 0 ==> forall q :: 0 <= q < j ==> draws.coefficient(i, q) == 0
    {
      row := row + [draws.coefficient(i, j) as real];
      if draws.coefficient(i, j) != 0 { nonzeros, filled := nonzeros + 1, j; }
    }
    if nonzeros == 0 {
      var j := draws.fallbackColumn(i) % cols;
      row := row[j := draws.fallback(i) as real];
      filled := j;
    }
    assert row[filled] != 0.0;
  }

  method ChooseMatrix(cols: nat, rows: nat, draws: Draws) returns (a: seq<seq<real>>)
    requires cols >= 1
    ensures |a| == rows && Rectangular(a, cols)
    ensures NoEmptyRow(a, cols) && forall i :: 0 <= i < rows ==> RowDrawn(a[i], i, draws)
  {
    hide RowDrawn;
    a := [];
    for i := 0 to rows
      invariant |a| == i && Rectangular(a, cols)
      invariant forall q :: 0 <= q < i ==> SparseTo(a[q], cols) != [] && RowDrawn(a[q], q, draws)
    {
      var row := ChooseRow(cols, i, draws);
      a := a + [row];
    }
  }

  /** y > 0 on the active rows and 0 on the others; d >= 0, and 0 wherever x > 0. */
  method ChoosePrices(x: seq<real>, rows: nat, active: nat, draws: Draws) returns (y: seq<real>, d: seq<real>)
    ensures |y| == rows && forall i :: 0 <= i < rows ==> y[i] == DrawnPrice(i, active, draws)
    ensures forall i :: 0 <= i < rows ==> if i < active then y[i] > 0.0 else y[i] == 0.0
    ensures |d| == |x| && forall j :: 0 <= j < |x| ==> d[j] == DrawnReducedCost(x[j], j, draws)
    ensures forall j :: 0 <= j < |x| ==> d[j] >= 0.0 && (x[j] > 0.0 ==> d[j] == 0.0)
  {
    y, d := [], [];
    for i := 0 to rows
      invariant |y| == i && forall q :: 0 <= q < i ==> y[q] == DrawnPrice(q, active, draws)
    {
      y := y + [if i < active then draws.price(i) as real else 0.0];
    }
    for j := 0 to |x|
      invariant |d| == j && forall q :: 0 <= q < j ==> d[q] == DrawnReducedCost(x[q], q, draws)
    {
      d := d + [if x[j] > 0.0 then 0.0 else draws.reducedCost(j) as real];
    }
  }

  /** c = A'y + d, column by column over the dense matrix. */
  method PriceColumns(a: seq<seq<real>>, y: seq<real>, d: seq<real>) returns (cost: seq<real>)
    requires |a| == |y| && Rectangular(a, |d|)
    ensures |cost| == |d| && forall j :: 0 <= j < |d| ==> cost[j] == ColumnSumTo(a, y, j, |a|) + d[j]
  {
    cost := [];
    for j := 0 to |d|
      invariant |cost| == j && forall q :: 0 <= q < j ==> cost[q] == ColumnSumTo(a, y, q, |a|) + d[q]
    {
      var sum := 0.0;
      for i := 0 to |a|
        invariant sum == ColumnSumTo(a, y, j, i)
      {
        sum := sum + Mul(a[i][j], y[i]);
      }
      cost := cost + [sum + d[j]];
    }
  }

  method Nonzeros(row: seq<real>) returns (entries: seq<Entry>)
    ensures entries == SparseTo(row, |row|)
  {
    entries := [];
    for j := 0 to |row|
      invariant entries == SparseTo(row, j)
    {
      if row[j] != 0.0 { entries := entries + [Entry(j, row[j])]; }
    }
  }

  predicate NoEmptyRow(a: seq<seq<real>>, cols: nat)
    requires Rectangular(a, cols)
  {
    forall i :: 0 <= i < |a| ==> SparseTo(a[i], cols) != []
  }

  /** The first k rows: sparse, none empty, with the right-hand sides the draws determine. */
  predicate Placed(p: Lp, a: seq<seq<real>>, x: seq<real>, active: nat, draws: Draws, k: nat) {
    && Rectangular(a, |x|) && p.Valid() && p.NumCols() == |x| && |p.rows| == k <= |a| && PositiveRows(p)
    && AreSparse(p.rows, a, |x|)
    && forall q :: 0 <= q < k ==> p.rowLower[q] == Fin(DrawnRhs(Activities(p, x)[q], q, active, draws))
  }

  lemma NextPlaced(p: Lp, a: seq<seq<real>>, x: seq<real>, active: nat, draws: Draws, k: nat, entries: seq<Entry>,
                   rhs: real)
    requires Placed(p, a, x, active, draws, k) && k < |a| && entries != [] && ValidColumn(entries, |x|)
    requires AreSparse(p.rows + [entries], a, |x|)
    requires rhs == DrawnRhs(ColDot(entries, x), k, active, draws)
    ensures Placed(AppendRow(p, entries, Fin(rhs), PosInf), a, x, active, draws, k + 1)
  {
    hide ColDot, AreSparse, Activities, PositiveRows, DrawnRhs;
    AppendedRow(p, entries, Fin(rhs), PosInf, x);
    PositiveRowsAppend(p, entries, rhs);
  }

  lemma NextSparse(rows: seq<seq<Entry>>, a: seq<seq<real>>, cols: nat, entries: seq<Entry>)
    requires |rows| < |a| && Rectangular(a, cols) && AreSparse(rows, a, cols) && IsSparse(entries, a[|rows|], cols)
    ensures AreSparse(rows + [entries], a, cols)
  {
    hide IsSparse;
  }

  lemma SparseRow(a: seq<seq<real>>, x: seq<real>, k: nat, entries: seq<Entry>)
    requires k < |a| && Rectangular(a, |x|) && NoEmptyRow(a, |x|) && IsSparse(entries, a[k], |x|)
    ensures entries != [] && ValidColumn(entries, |x|) && ColDot(entries, x) == DotTo(a[k], x, |x|)
  {
    hide SparseTo, ColDot, DotTo;
    SparseDot(a[k], x, |x|);
  }

  lemma PlacedSparse(p: Lp, a: seq<seq<real>>, x: seq<real>, active: nat, draws: Draws, k: nat)
    requires Placed(p, a, x, active, draws, k)
    ensures |p.rows| == k <= |a| && AreSparse(p.rows, a, |x|)
  {
  }

  lemma AllPlaced(p: Lp, a: seq<seq<real>>, x: seq<real>, active: nat, draws: Draws)
    requires Placed(p, a, x, active, draws, |a|)
    ensures PositiveRows(p) && AreSparse(p.rows, a, |x|)
    ensures forall i :: 0 <= i < |a| ==>
      if i < active then p.rowLower[i] == Fin(Activities(p, x)[i]) else p.rowLower[i].v < Activities(p, x)[i]
    ensures forall i :: 0 <= i < |a| ==> p.rowLower[i] == Fin(DrawnRhs(Activities(p, x)[i], i, active, draws))
  {
    hide SparseTo, Activities;
  }

  lemma NothingPlaced(p: Lp, a: seq<seq<real>>, x: seq<real>, active: nat, draws: Draws)
    requires Rectangular(a, |x|) && p.Valid() && p.NumCols() == |x| && p.rows == []
    ensures Placed(p, a, x, active, draws, 0)
  {
  }

  /** The rows: tight at x where active, below their activity by a drawn slack elsewhere. */
  method PlaceRows(a: seq<seq<real>>, x: seq<real>, cost: seq<real>, active: nat, draws: Draws) returns (p: Lp)
    requires |cost| == |x| && Rectangular(a, |x|) && NoEmptyRow(a, |x|)
    ensures p.Valid() && p.cost == cost && |p.rows| == |a| && PositiveRows(p)
    ensures AreSparse(p.rows, a, |x|)
    ensures forall i :: 0 <= i < |a| ==>
      if i < active then p.rowLower[i] == Fin(Activities(p, x)[i]) else p.rowLower[i].v < Activities(p, x)[i]
    ensures forall i :: 0 <= i < |a| ==> p.rowLower[i] == Fin(DrawnRhs(Activities(p, x)[i], i, active, draws))
    ensures forall j :: 0 <= j < |x| ==> p.lower[j] == Fin(0.0) && p.upper[j] == PosInf
  {
    hide ColDot, SparseTo, DotTo, Placed, NoEmptyRow, PositiveRows, AreSparse, Activities;
    p := Lp([], [], [], cost, seq(|x|, _ => Fin(0.0)), seq(|x|, _ => PosInf));
    NothingPlaced(p, a, x, active, draws);
    for i := 0 to |a|
      invariant p.Valid() && p.cost == cost && |p.rows| == i && Placed(p, a, x, active, draws, i)
      invariant p.lower == seq(|x|, _ => Fin(0.0)) && p.upper == seq(|x|, _ => PosInf)
    {
      var activity := Evaluate(a[i], x);
      var entries := Nonzeros(a[i]);
      var rhs := if i < active then activity else activity - draws.slack(i) as real;
      PlacedSparse(p, a, x, active, draws, i);
      SparseRow(a, x, i, entries);
      NextSparse(p.rows, a, |x|, entries);
      NextPlaced(p, a, x, active, draws, i, entries, rhs);
      p := AppendRow(p, entries, Fin(rhs), PosInf);
    }
    AllPlaced(p, a, x, active, draws);
  }

  /** The instance is the one the draws determine: point, prices, reduced costs, rows and
      right-hand sides. */
  ghost predicate BuiltFrom(inst: Instance, y: seq<real>, draws: Draws)
    requires inst.lp.Valid()
  {
    var p, x := inst.lp, inst.xStar;
    && |x| == p.NumCols() && |y| == |p.rows| && PointDrawn(x, draws)
    && (forall i :: 0 <= i < |y| ==> y[i] == DrawnPrice(i, inst.active, draws))
    && (forall j :: 0 <= j < |x| ==> Reduced(p, y)[j] == DrawnReducedCost(x[j], j, draws))
    && (forall j :: 0 <= j < |x| ==> p.lower[j] == Fin(0.0) && p.upper[j] == PosInf)
    && (forall i :: 0 <= i < |p.rows| ==> p.rowLower[i] == Fin(DrawnRhs(Activities(p, x)[i], i, inst.active, draws)))
    && (forall i :: 0 <= i < |p.rows| ==> IsSparseOfDrawn(p.rows[i], i, |x|, draws))
  }

  ghost predicate IsSparseOfDrawn(entries: seq<Entry>, i: nat, cols: nat, draws: Draws) {
    exists row: seq<real> :: |row| == cols && RowDrawn(row, i, draws) && entries == SparseTo(row, cols)
  }

  /** The instance and its prices satisfy the optimality conditions, whatever was drawn. */
  method KktInstance(cols: nat, rows: nat, active: nat, draws: Draws) returns (inst: Instance, y: seq<real>)
    requires cols >= 1 && 1 <= active <= rows
    ensures Stated(inst) && KktHolds(inst.lp, inst.xStar, y)
    ensures inst.lp.NumCols() == cols && |inst.lp.rows| == rows && inst.active == active
    ensures IsOptimal(inst.lp, inst.xStar) && BuiltFrom(inst, y, draws)
  {
    hide PointDrawn, RowDrawn, SparseTo, ColDot, Dot;
    var x := ChoosePoint(cols, draws);
    var a := ChooseMatrix(cols, rows, draws);
    var d;
    y, d := ChoosePrices(x, rows, active, draws);
    var cost := PriceColumns(a, y, d);
    var p := PlaceRows(a, x, cost, active, draws);
    var expected := Evaluate(cost, x);
    inst := Instance(p, expected, x, active);
    ConstructionHolds(p, a, x, y, d, active);
    KktIsOptimal(p, x, y);
    forall i | 0 <= i < rows ensures IsSparseOfDrawn(p.rows[i], i, cols, draws) { assert RowDrawn(a[i], i, draws); }
  }

  lemma ConstructionHolds(p: Lp, a: seq<seq<real>>, x: seq<real>, y: seq<real>, d: seq<real>, active: nat)
    requires p.Valid() && |x| == |d| == p.NumCols() && |a| == |y| == |p.rows| && Rectangular(a, |x|) && PositiveRows(p)
    requires AreSparse(p.rows, a, |x|)
    requires forall j :: 0 <= j < |x| ==> p.cost[j] == ColumnSumTo(a, y, j, |a|) + d[j]
    requires forall j :: 0 <= j < |x| ==> p.lower[j] == Fin(0.0) && p.upper[j] == PosInf
    requires forall j :: 0 <= j < |x| ==> x[j] >= 0.0 && d[j] >= 0.0 && (x[j] > 0.0 ==> d[j] == 0.0)
    requires forall i :: 0 <= i < |a| ==> if i < active then y[i] > 0.0 else y[i] == 0.0
    requires forall i :: 0 <= i < |a| ==>
      if i < active then p.rowLower[i] == Fin(Activities(p, x)[i]) else p.rowLower[i].v < Activities(p, x)[i]
    ensures KktHolds(p, x, y) && Reduced(p, y) == d
  {
    hide Activities, SparseTo, ColumnSumTo, Reduced, Kkt.AllTight, Kkt.AllWithin;
    ReducedIsDrawn(p, a, y, d);
    PricedFromBelow(y, Activities(p, x), p.rowLower, p.rowUpper);
    PricedFromBelow(d, x, p.lower, p.upper);
  }

  /** Nonnegative multipliers on lower bounds, zero off the bounds that are met exactly. */
  lemma PricedFromBelow(mult: seq<real>, v: seq<real>, lo: seq<Bound>, hi: seq<Bound>)
    requires |mult| == |v| == |lo| == |hi|
    requires forall k :: 0 <= k < |v| ==> lo[k].Fin? && hi[k].PosInf? && lo[k].v <= v[k]
    requires forall k :: 0 <= k < |v| ==> mult[k] >= 0.0 && (mult[k] > 0.0 ==> v[k] == lo[k].v)
    ensures Kkt.AllWithin(lo, v, hi) && Kkt.AllTight(mult, v, lo, hi)
  {
  }

  lemma ReducedIsDrawn(p: Lp, a: seq<seq<real>>, y: seq<real>, d: seq<real>)
    requires p.Valid() && |d| == p.NumCols() && |a| == |y| == |p.rows| && Rectangular(a, |d|)
    requires AreSparse(p.rows, a, |d|)
    requires forall j :: 0 <= j < |d| ==> p.cost[j] == ColumnSumTo(a, y, j, |a|) + d[j]
    ensures Reduced(p, y) == d
  {
    hide SparseTo, ColumnSumTo, TimesTo, Reduced, AreSparse;
    forall j | 0 <= j < |d| ensures Reduced(p, y)[j] == d[j] { PulledIsColumnSum(p, a, y, j, |a|); }
  }

  // ---- Dictionaries of coefficients -----------------------------------------------------

  /** The position of a column's coefficient in a row, or the row's length. */
  function PositionFrom(entries: seq<Entry>, c: nat, k: nat): (p: nat)
    requires k <= |entries|
    ensures k <= p <= |entries|
    ensures p < |entries| ==> entries[p].row == c
    decreases |entries| - k
  {
    if k == |entries| || entries[k].row == c then k else PositionFrom(entries, c, k + 1)
  }

  /** entries[c] = entries.get(c, 0) + v */
  function AddTo(entries: seq<Entry>, c: nat, v: real): (r: seq<Entry>) {
    var p := PositionFrom(entries, c, 0);
    if p == |entries| then entries + [Entry(c, v)] else entries[p := Entry(c, entries[p].val + v)]
  }

  /** Replacing one coefficient changes the row's activity by the change times the point. */
  lemma {:induction false} ColDotReplace(entries: seq<Entry>, p: nat, v: real, x: seq<real>, k: nat)
    requires p < |entries| && k <= |entries| && ValidColumn(entries, |x|)
    ensures ValidColumn(entries[p := Entry(entries[p].row, v)], |x|)
    ensures ColDotTo(entries[p := Entry(entries[p].row, v)], x, k)
            == ColDotTo(entries, x, k) + if p < k then Mul(v, x[entries[p].row]) - Term(entries[p], x) else 0.0
  {
    if k > 0 { ColDotReplace(entries, p, v, x, k - 1); }
  }

  lemma MulAdd(a: real, b: real, t: real)
    ensures Mul(a + b, t) == Mul(a, t) + Mul(b, t)
  {
  }

  lemma AddToActivity(entries: seq<Entry>, c: nat, v: real, x: seq<real>)
    requires c < |x| && ValidColumn(entries, |x|)
    ensures ValidColumn(AddTo(entries, c, v), |x|)
    ensures ColDot(AddTo(entries, c, v), x) == ColDot(entries, x) + Mul(v, x[c])
  {
    var p := PositionFrom(entries, c, 0);
    if p == |entries| {
      ColDotAppend(entries, Entry(c, v), x);
    } else {
      ColDotReplace(entries, p, entries[p].val + v, x, |entries|);
      MulAdd(entries[p].val, v, x[c]);
    }
  }

  /** `entries` after w times the first k terms of a row have been added in. */
  function AddRowTo(entries: seq<Entry>, row: seq<Entry>, w: real, k: nat): (r: seq<Entry>)
    requires k <= |row|
    ensures |r| >= |entries| && (k > 0 ==> r != [])
  {
    if k == 0 then entries else AddTo(AddRowTo(entries, row, w, k - 1), row[k - 1].row, Mul(w, row[k - 1].val))
  }

  lemma AddedTerm(w: real, done: real, v: real, t: real)
    ensures w * done + Mul(Mul(w, v), t) == w * (done + Mul(v, t))
  {
  }

  lemma {:induction false} AddedRowActivity(entries: seq<Entry>, row: seq<Entry>, w: real, k: nat, x: seq<real>)
    requires k <= |row| && ValidColumn(entries, |x|) && ValidColumn(row, |x|)
    ensures ValidColumn(AddRowTo(entries, row, w, k), |x|)
    ensures ColDot(AddRowTo(entries, row, w, k), x) == ColDot(entries, x) + w * ColDotTo(row, x, k)
  {
    hide AddTo, Mul, ColDot;
    if k > 0 {
      AddedRowActivity(entries, row, w, k - 1, x);
      var e := row[k - 1];
      AddToActivity(AddRowTo(entries, row, w, k - 1), e.row, Mul(w, e.val), x);
      AddedTerm(w, ColDotTo(row, x, k - 1), e.val, x[e.row]);
    }
  }

  /** Adds w times a row into a dictionary of coefficients. */
  method Accumulate(entries: seq<Entry>, row: seq<Entry>, w: real) returns (out: seq<Entry>)
    ensures out == AddRowTo(entries, row, w, |row|)
  {
    out := entries;
    for k := 0 to |row|
      invariant out == AddRowTo(entries, row, w, k)
    {
      out := AddTo(out, row[k].row, Mul(w, row[k].val));
    }
  }

  // ---- Redundant rows -------------------------------------------------------------------

  lemma PositiveCombination(wi: real, wj: real, bi: real, bj: real, ai: real, aj: real)
    requires wi >= 0.0 && wj >= 0.0 && bi <= ai && bj <= aj
    ensures wi * bi + wj * bj <= wi * ai + wj * aj
  {
    MulLe(wi, bi, ai);
    MulLe(wj, bj, aj);
  }

  lemma AddedTwoRows(a: seq<Entry>, wa: real, b: seq<Entry>, wb: real, cols: nat)
    requires ValidColumn(a, cols) && ValidColumn(b, cols)
    ensures var entries := AddRowTo(AddRowTo([], a, wa, |a|), b, wb, |b|);
      ValidColumn(entries, cols) && IsWeightedSum(entries, wa, a, wb, b, cols)
  {
    hide AddRowTo, Mul, ColDot;
    var first := AddRowTo([], a, wa, |a|);
    AddedRowActivity([], a, wa, |a|, Zeros(cols));
    AddedRowActivity(first, b, wb, |b|, Zeros(cols));
    forall x: seq<real> | |x| == cols
      ensures ColDot(AddRowTo(first, b, wb, |b|), x) == wa * ColDot(a, x) + wb * ColDot(b, x)
    {
      NoTerms(x);
      AddedRowActivity([], a, wa, |a|, x);
      AddedRowActivity(first, b, wb, |b|, x);
      WholeRow(a, x);
      WholeRow(b, x);
    }
  }

  lemma WholeRow(row: seq<Entry>, x: seq<real>)
    requires ValidColumn(row, |x|)
    ensures ColDotTo(row, x, |row|) == ColDot(row, x)
  {
  }

  lemma NoTerms(x: seq<real>)
    ensures ColDot([], x) == 0.0
  {
  }

  /** wi times one row plus wj times another, as seen by every point. */
  ghost predicate IsWeightedSum(entries: seq<Entry>, wi: real, first: seq<Entry>, wj: real, second: seq<Entry>,
      cols: nat)
    requires ValidColumn(entries, cols) && ValidColumn(first, cols) && ValidColumn(second, cols)
  {
    forall x: seq<real> :: |x| == cols ==> ColDot(entries, x) == wi * ColDot(first, x) + wj * ColDot(second, x)
  }

  /** A positive combination of two active rows: implied by them, and tight where they are. */
  method CombineRows(base: Instance, i: nat, j: nat, wi: real, wj: real) returns (entries: seq<Entry>, rhs: real)
    requires Stated(base) && i < base.active && j < base.active && wi > 0.0 && wj > 0.0
    ensures entries != [] && ValidColumn(entries, base.lp.NumCols())
    ensures IsWeightedSum(entries, wi, base.lp.rows[i], wj, base.lp.rows[j], base.lp.NumCols())
    ensures rhs == ColDot(entries, base.xStar)
    ensures forall x :: RowLp.Feasible(base.lp, x) ==> |x| == base.lp.NumCols() && rhs <= ColDot(entries, x)
  {
    hide AddRowTo, ColDot, Objective, Mul, IsWeightedSum, Stated, RowLp.Feasible;
    ActiveRow(base, i);
    ActiveRow(base, j);
    var b := base.lp;
    var first := Accumulate([], b.rows[i], wi);
    entries := Accumulate(first, b.rows[j], wj);
    rhs := wi * b.rowLower[i].v + wj * b.rowLower[j].v;
    AddedTwoRows(b.rows[i], wi, b.rows[j], wj, b.NumCols());
    SumIsTightAndImplied(base, i, j, wi, wj, entries);
  }

  lemma ActiveRow(base: Instance, i: nat)
    requires Stated(base) && i < base.active
    ensures base.lp.Valid() && i < |base.lp.rows| && base.lp.rows[i] != [] && base.lp.rowLower[i].Fin?
    ensures ValidColumn(base.lp.rows[i], base.lp.NumCols()) && |base.xStar| == base.lp.NumCols()
  {
  }

  lemma SumIsTightAndImplied(base: Instance, i: nat, j: nat, wi: real, wj: real, entries: seq<Entry>)
    requires Stated(base) && i < base.active && j < base.active && wi > 0.0 && wj > 0.0
    requires ValidColumn(entries, base.lp.NumCols())
    requires IsWeightedSum(entries, wi, base.lp.rows[i], wj, base.lp.rows[j], base.lp.NumCols())
    ensures var rhs := wi * base.lp.rowLower[i].v + wj * base.lp.rowLower[j].v;
      && |base.xStar| == base.lp.NumCols() && rhs == ColDot(entries, base.xStar)
      && forall x :: RowLp.Feasible(base.lp, x) ==> |x| == base.lp.NumCols() && rhs <= ColDot(entries, x)
  {
    hide ColDot, Objective, Activities;
    var b := base.lp;
    forall x | RowLp.Feasible(b, x)
      ensures |x| == b.NumCols()
      ensures wi * b.rowLower[i].v + wj * b.rowLower[j].v <= ColDot(entries, x)
    {
      assert Within(b.rowLower[i], Activities(b, x)[i], b.rowUpper[i]);
      assert Within(b.rowLower[j], Activities(b, x)[j], b.rowUpper[j]);
      PositiveCombination(wi, wj, b.rowLower[i].v, b.rowLower[j].v, ColDot(b.rows[i], x), ColDot(b.rows[j], x));
    }
    assert Activities(b, base.xStar)[i] == ColDot(b.rows[i], base.xStar);
    assert Activities(b, base.xStar)[j] == ColDot(b.rows[j], base.xStar);
  }

  /** The t-th added row: two active rows picked by t, weighted by the draws. */
  ghost predicate IsCombination(base: Instance, row: seq<Entry>, weight: (nat, bool) -> Positive, t: nat)
    requires Stated(base)
  {
    var i, j := t % base.active, (t + 1 + t / base.active) % base.active;
    ValidColumn(row, base.lp.NumCols())
    && IsWeightedSum(row, weight(t, false) as real, base.lp.rows[i], weight(t, true) as real, base.lp.rows[j],
        base.lp.NumCols())
  }

  /** The base's rows, followed by combinations of them. */
  ghost predicate AddsCombinations(base: Instance, rows: seq<seq<Entry>>, weight: (nat, bool) -> Positive)
    requires Stated(base)
  {
    var n := |base.lp.rows|;
    base.lp.rows <= rows && forall q :: n <= q < |rows| ==> IsCombination(base, rows[q], weight, q - n)
  }

  lemma NoCombinations(base: Instance, weight: (nat, bool) -> Positive)
    requires Stated(base)
    ensures AddsCombinations(base, base.lp.rows, weight)
  {
  }

  lemma NextCombination(base: Instance, rows: seq<seq<Entry>>, row: seq<Entry>, weight: (nat, bool) -> Positive)
    requires Stated(base) && AddsCombinations(base, rows, weight)
    requires IsCombination(base, row, weight, |rows| - |base.lp.rows|)
    ensures AddsCombinations(base, rows + [row], weight)
  {
    hide IsCombination;
  }

  /** A row that every feasible point meets cuts off nothing. */
  lemma ImpliedRow(b: Lp, p: Lp, entries: seq<Entry>, rhs: real)
    requires b.Valid() && p.Valid() && p.NumCols() == b.NumCols() && ValidColumn(entries, b.NumCols())
    requires forall x :: RowLp.Feasible(p, x) <==> RowLp.Feasible(b, x)
    requires forall x :: RowLp.Feasible(b, x) ==> |x| == b.NumCols() && rhs <= ColDot(entries, x)
    ensures forall x :: RowLp.Feasible(AppendRow(p, entries, Fin(rhs), PosInf), x) <==> RowLp.Feasible(b, x)
  {
    hide RowLp.Feasible, Objective, ColDot;
    forall x ensures RowLp.Feasible(AppendRow(p, entries, Fin(rhs), PosInf), x) <==> RowLp.Feasible(b, x) {
      FeasibleLength(AppendRow(p, entries, Fin(rhs), PosInf), x);
      if |x| == b.NumCols() { AppendedRow(p, entries, Fin(rhs), PosInf, x); }
    }
  }

  lemma PositiveRowsAppend(p: Lp, entries: seq<Entry>, rhs: real)
    requires p.Valid() && PositiveRows(p) && ValidColumn(entries, p.NumCols()) && entries != []
    ensures PositiveRows(AppendRow(p, entries, Fin(rhs), PosInf))
  {
  }

  /** The base with t more rows: combinations, tight at the stated point, that cut off nothing. */
  ghost predicate Redundant(base: Instance, p: Lp, weight: (nat, bool) -> Positive, t: nat)
    requires Stated(base)
  {
    var b, n := base.lp, |base.lp.rows|;
    && p.Valid() && PositiveRows(p) && p.cost == b.cost && |p.rows| == n + t
    && AddsCombinations(base, p.rows, weight)
    && b.rowLower <= p.rowLower && Activities(b, base.xStar) <= Activities(p, base.xStar)
    && (forall i :: n <= i < n + t ==> p.rowLower[i] == Fin(Activities(p, base.xStar)[i]))
    && forall x :: RowLp.Feasible(p, x) <==> RowLp.Feasible(b, x)
  }

  lemma NextRedundant(base: Instance, p: Lp, weight: (nat, bool) -> Positive, t: nat, entries: seq<Entry>, rhs: real)
    requires Stated(base) && Redundant(base, p, weight, t) && entries != []
    requires IsCombination(base, entries, weight, t) && rhs == ColDot(entries, base.xStar)
    requires forall x :: RowLp.Feasible(base.lp, x) ==> |x| == base.lp.NumCols() && rhs <= ColDot(entries, x)
    ensures Redundant(base, AppendRow(p, entries, Fin(rhs), PosInf), weight, t + 1)
  {
    hide RowLp.Feasible, Objective, ColDot, IsWeightedSum, AddsCombinations, PositiveRows, Activities;
    ImpliedRow(base.lp, p, entries, rhs);
    AppendedRow(p, entries, Fin(rhs), PosInf, base.xStar);
    NextCombination(base, p.rows, entries, weight);
    PositiveRowsAppend(p, entries, rhs);
  }

  lemma RedundantIsStated(base: Instance, p: Lp, weight: (nat, bool) -> Positive, t: nat)
    requires Stated(base) && Redundant(base, p, weight, t)
    ensures Stated(base.(lp := p)) && p.cost == base.lp.cost && |p.rows| == |base.lp.rows| + t
    ensures AddsCombinations(base, p.rows, weight)
    ensures forall i :: |base.lp.rows| <= i < |p.rows| ==> p.rowLower[i] == Fin(Activities(p, base.xStar)[i])
    ensures forall x :: RowLp.Feasible(p, x) <==> RowLp.Feasible(base.lp, x)
    ensures IsOptimal(base.lp, base.xStar) ==> IsOptimal(p, base.xStar)
  {
    hide RowLp.Feasible, Objective, ColDot, AddsCombinations, PositiveRows;
    SameCost(base.lp, p, base.xStar);
  }

  lemma NothingRedundant(base: Instance, weight: (nat, bool) -> Positive)
    requires Stated(base)
    ensures Redundant(base, base.lp, weight, 0)
  {
    NoCombinations(base, weight);
  }

  /** Rows that are positive combinations of two active ones: they are tight at the stated point
      and cut off nothing, so exactly the same points are feasible. */
  method Redundancy(base: Instance, k: nat, weight: (nat, bool) -> Positive) returns (out: Instance)
    requires Stated(base)
    ensures Stated(out) && out == base.(lp := out.lp) && out.lp.cost == base.lp.cost
    ensures |out.lp.rows| == |base.lp.rows| + k * |base.lp.rows|
    ensures AddsCombinations(base, out.lp.rows, weight)
    ensures forall i :: |base.lp.rows| <= i < |out.lp.rows| ==>
      out.lp.rowLower[i] == Fin(Activities(out.lp, out.xStar)[i])
    ensures forall x :: RowLp.Feasible(out.lp, x) <==> RowLp.Feasible(base.lp, x)
    ensures IsOptimal(base.lp, base.xStar) ==> IsOptimal(out.lp, out.xStar)
  {
    hide Redundant, IsWeightedSum, RowLp.Feasible, ColDot, Objective, PositiveRows, Activities, AddsCombinations,
      RowLp.IsOptimal, AppendRow;
    var p := base.lp;
    var count := k * |base.lp.rows|;
    NothingRedundant(base, weight);
    for t := 0 to count
      invariant p.Valid() && p.NumCols() == base.lp.NumCols() && Redundant(base, p, weight, t)
    {
      var i, j := t % base.active, (t + 1 + t / base.active) % base.active;
      var entries, rhs := CombineRows(base, i, j, weight(t, false) as real, weight(t, true) as real);
      NextRedundant(base, p, weight, t, entries, rhs);
      p := AppendRow(p, entries, Fin(rhs), PosInf);
    }
    RedundantIsStated(base, p, weight, count);
    out := base.(lp := p);
  }

  lemma SameCost(p: Lp, q: Lp, x: seq<real>)
    requires p.Valid() && q.Valid() && p.cost == q.cost && RowLp.Feasible(p, x) && RowLp.Feasible(q, x)
    requires forall z :: RowLp.Feasible(q, z) ==> RowLp.Feasible(p, z)
    ensures Objective(p, x) == Objective(q, x)
    ensures IsOptimal(p, x) ==> IsOptimal(q, x)
  {
    hide Dot;
    forall z | RowLp.Feasible(q, z) ensures Objective(p, z) == Objective(q, z) {}
  }

  // ---- Near-parallel rows ----------------------------------------------------------------

  /** The coefficient with the smallest column. */
  method SmallestKey(entries: seq<Entry>) returns (p: nat)
    requires entries != []
    ensures p < |entries| && forall k :: 0 <= k < |entries| ==> entries[p].row <= entries[k].row
  {
    p := 0;
    for k := 1 to |entries|
      invariant p < |entries| && forall q :: 0 <= q < k ==> entries[p].row <= entries[q].row
    {
      if entries[k].row < entries[p].row { p := k; }
    }
  }

  /** The row with its smallest column's coefficient changed by the relative amount `shift`. */
  ghost predicate IsTwin(twin: seq<Entry>, row: seq<Entry>, shift: real) {
    exists p :: 0 <= p < |row| && (forall k :: 0 <= k < |row| ==> row[p].row <= row[k].row)
      && twin == row[p := Entry(row[p].row, row[p].val * (1.0 + shift))]
  }

  /** The given rows, followed by twins of the first k of them. */
  ghost predicate AddsTwins(before: seq<seq<Entry>>, after: seq<seq<Entry>>, k: nat, shift: real)
    requires k <= |before|
  {
    && before <= after && |after| == |before| + k
    && forall q :: |before| <= q < |after| ==> IsTwin(after[q], before[q - |before|], shift)
  }

  lemma NoTwins(rows: seq<seq<Entry>>, shift: real)
    ensures AddsTwins(rows, rows, 0, shift)
  {
  }

  lemma NextTwin(before: seq<seq<Entry>>, after: seq<seq<Entry>>, k: nat, shift: real, twin: seq<Entry>)
    requires k < |before| && AddsTwins(before, after, k, shift) && IsTwin(twin, before[k], shift)
    ensures AddsTwins(before, after + [twin], k + 1, shift)
  {
    hide IsTwin;
  }

  /** Every active row gets a twin with one coefficient changed by the relative amount `shift`,
      tight at the stated point. The twins can only remove points, and not that one, so it
      stays optimal. No row is empty, so the smallest column always exists. */
  method NearParallel(base: Instance, shift: real) returns (out: Instance)
    requires Stated(base)
    ensures out == base.(lp := out.lp) && out.lp.Valid() && out.lp.cost == base.lp.cost
    ensures |out.lp.rows| == |base.lp.rows| + base.active
    ensures AddsTwins(base.lp.rows, out.lp.rows, base.active, shift)
    ensures RowLp.Feasible(out.lp, out.xStar)
    ensures forall i :: |base.lp.rows| <= i < |out.lp.rows| ==>
      out.lp.rowLower[i] == Fin(Activities(out.lp, out.xStar)[i])
    ensures forall x :: RowLp.Feasible(out.lp, x) ==> RowLp.Feasible(base.lp, x)
    ensures IsOptimal(base.lp, base.xStar) ==> IsOptimal(out.lp, out.xStar)
  {
    hide RowLp.Feasible, Objective, ColDot, IsTwin, AddsTwins;
    var b, n, x := base.lp, |base.lp.rows|, base.xStar;
    FeasibleLength(b, x);
    var p := b;
    NoTwins(b.rows, shift);
    for i := 0 to base.active
      invariant p.Valid() && p.cost == b.cost && |p.rows| == n + i
      invariant AddsTwins(b.rows, p.rows, i, shift)
      invariant RowLp.Feasible(p, x)
      invariant forall q :: n <= q < n + i ==> p.rowLower[q] == Fin(Activities(p, x)[q])
      invariant forall z :: RowLp.Feasible(p, z) ==> RowLp.Feasible(b, z)
    {
      var twin := Twin(b.rows[i], shift);
      var activity := EvaluateRow(twin, x);
      forall z | RowLp.Feasible(AppendRow(p, twin, Fin(activity), PosInf), z) ensures RowLp.Feasible(b, z) {
        FeasibleLength(AppendRow(p, twin, Fin(activity), PosInf), z);
        AppendedRow(p, twin, Fin(activity), PosInf, z);
      }
      AppendedRow(p, twin, Fin(activity), PosInf, x);
      NextTwin(b.rows, p.rows, i, shift, twin);
      p := AppendRow(p, twin, Fin(activity), PosInf);
    }
    SameCost(b, p, x);
    out := Instance(p, base.expected, x, base.active);
  }

  method Twin(row: seq<Entry>, shift: real) returns (twin: seq<Entry>)
    requires row != []
    ensures IsTwin(twin, row, shift) && |twin| == |row| && forall k :: 0 <= k < |row| ==> twin[k].row == row[k].row
  {
    var j := SmallestKey(row);
    twin := row[j := Entry(row[j].row, row[j].val * (1.0 + shift))];
  }

  // ---- Conditioning -----------------------------------------------------------------------

  /** Row scales up, down, up, ... and column scales down, up, down, ...: the LP in other units. */
  method Conditioning(base: Instance, up: real) returns (out: Instance, rowScale: seq<real>, colScale: seq<real>)
    requires base.lp.Valid() && up > 0.0
    ensures AllPositive(rowScale) && AllPositive(colScale)
    ensures |rowScale| == |base.lp.rows| && |colScale| == base.lp.NumCols()
    ensures forall i :: 0 <= i < |rowScale| ==> rowScale[i] == if i % 2 == 0 then up else 1.0 / up
    ensures forall j :: 0 <= j < |colScale| ==> colScale[j] == if j % 2 == 0 then 1.0 / up else up
    ensures out.lp == Scaled(base.lp, rowScale, colScale) && out.expected == base.expected
    ensures forall x :: IsOptimal(base.lp, x) ==> SameOptimum(base.lp, out.lp, x, Shrink(colScale, x))
  {
    hide Mul, DivideBound, ScaleBound, ScaleRow, RowLp.IsOptimal, SameOptimum, Shrink;
    var b := base.lp;
    var n, m := b.NumCols(), |b.rows|;
    rowScale := seq(m, i => if i % 2 == 0 then up else 1.0 / up);
    colScale := seq(n, j => if j % 2 == 0 then 1.0 / up else up);
    ghost var target := Scaled(b, rowScale, colScale);
    var p := Lp([], [], [], seq(n, j requires 0 <= j < n => Mul(b.cost[j], colScale[j])),
                seq(n, j requires 0 <= j < n => DivideBound(b.lower[j], colScale[j])),
                seq(n, j requires 0 <= j < n => DivideBound(b.upper[j], colScale[j])));
    for i := 0 to m
      invariant p == target.(rows := target.rows[..i], rowLower := target.rowLower[..i],
                             rowUpper := target.rowUpper[..i])
    {
      p := p.(rows := p.rows + [ScaleRow(b.rows[i], rowScale[i], colScale)],
              rowLower := p.rowLower + [ScaleBound(b.rowLower[i], rowScale[i])],
              rowUpper := p.rowUpper + [ScaleBound(b.rowUpper[i], rowScale[i])]);
    }
    assert p == target;
    out := Instance(p, base.expected, [], 0);
    EveryOptimumScales(b, rowScale, colScale);
  }
}
