/** The solver's self-report: the quality measures it recomputes for a solution it hands out. */
module Quality {
  import opened Prelude
  import opened Vectors
  import opened LpModel
  import opened Quadratic
  import opened Farkas
  import opened OptimalityChecks
  import Kkt
  import opened OptimalityTheorems

  /** The five measures, and the activity and objective recomputed with them. */
  datatype PrimalQuality = PrimalQuality(activity: seq<real>, infeasibility: real, scaled: real, objective: real)

  datatype DualQuality = DualQuality(infeasibility: real, scaled: real, complementarity: real)

  /** A bound as the measures see it: beyond 1e30 it does not exist. */
  function UsableLower(b: Bound): Bound { if IsFiniteBound(b) then b else NegInf }

  function UsableUpper(b: Bound): Bound { if IsFiniteBound(b) then b else PosInf }

  function UsableExcess(lo: Bound, v: real, hi: Bound): real { Excess(UsableLower(lo), v, UsableUpper(hi)) }

  // ---- Primal -------------------------------------------------------------------------

  function Excesses(lo: seq<Bound>, v: seq<real>, hi: seq<Bound>): (r: seq<real>)
    requires |lo| == |v| == |hi|
    ensures |r| == |v|
    ensures forall i :: 0 <= i < |v| ==> r[i] == UsableExcess(lo[i], v[i], hi[i])
  {
    seq(|v|, i requires 0 <= i < |v| => UsableExcess(lo[i], v[i], hi[i]))
  }

  function Scaled(s: seq<real>, scale: seq<real>): (r: seq<real>)
    requires |s| == |scale| && forall i :: 0 <= i < |s| ==> scale[i] >= 1.0
    ensures |r| == |s|
    ensures forall i :: 0 <= i < |s| ==> r[i] == s[i] / scale[i]
  {
    seq(|s|, i requires 0 <= i < |s| => s[i] / scale[i])
  }

  /** max(1, |v_i|) */
  function OwnScale(v: seq<real>): (r: seq<real>)
    ensures |r| == |v|
    ensures forall i :: 0 <= i < |v| ==> r[i] == Max(1.0, Abs(v[i])) >= 1.0
  {
    seq(|v|, i requires 0 <= i < |v| => Max(1.0, Abs(v[i])))
  }

  function PrimalQualityOf(m: Model, x: seq<real>): PrimalQuality
    requires m.Valid() && |x| == |m.cols|
  {
    var a := Times(m, x);
    var columns, rows := Excesses(m.colLower, x, m.colUpper), Excesses(m.rowLower, a, m.rowUpper);
    PrimalQuality(a, Max(Worst(columns), Worst(rows)),
                  Max(Worst(Scaled(columns, OwnScale(x))), Worst(Scaled(rows, RowScales(m, x)))),
                  Objective(m, x))
  }

  /** The scaled measure never exceeds the absolute one, and one is zero exactly when the other is. */
  lemma ScaledPrimalIsSmaller(m: Model, x: seq<real>)
    requires m.Valid() && |x| == |m.cols|
    ensures var q := PrimalQualityOf(m, x);
      0.0 <= q.scaled <= q.infeasibility && (q.scaled == 0.0 <==> q.infeasibility == 0.0)
  {
    var columns, rows := Excesses(m.colLower, x, m.colUpper), Excesses(m.rowLower, Times(m, x), m.rowUpper);
    ScaledIsSmaller(columns, OwnScale(x));
    ScaledIsSmaller(rows, RowScales(m, x));
  }

  lemma ScaledIsSmaller(s: seq<real>, scale: seq<real>)
    requires |s| == |scale| && forall i :: 0 <= i < |s| ==> scale[i] >= 1.0 && s[i] >= 0.0
    ensures 0.0 <= Worst(Scaled(s, scale)) <= Worst(s)
    ensures Worst(Scaled(s, scale)) == 0.0 <==> Worst(s) == 0.0
  {
    MaxToBound(s, |s|, Worst(s));
    forall i | 0 <= i < |s|
      ensures Scaled(s, scale)[i] <= Worst(s)
      ensures Scaled(s, scale)[i] <= 0.0 <==> s[i] <= 0.0
    {
      RatioIsSmaller(s[i], scale[i]);
    }
    MaxToBound(Scaled(s, scale), |s|, Worst(s));
    MaxToBound(Scaled(s, scale), |s|, 0.0);
    MaxToBound(s, |s|, 0.0);
  }

  lemma RatioIsSmaller(a: real, scale: real)
    requires scale >= 1.0 && a >= 0.0
    ensures 0.0 <= a / scale <= a && (a / scale <= 0.0 <==> a <= 0.0)
  {
    var q := a / scale;
    assert q * scale == a;
    if q < 0.0 { MulGe(q, 1.0, scale); } else { MulLe(q, 1.0, scale); }
  }

  // ---- Dual ---------------------------------------------------------------------------

  /** The larger of 1, |c_j| and the terms of a_j.y, with the raw duals. */
  function ColumnPriceScale(m: Model, rowDual: seq<real>, j: nat): (scale: real)
    requires m.Valid() && |rowDual| == m.numRows && j < |m.cols|
    ensures scale >= 1.0
  {
    Max(1.0, ColumnScale(m.cols[j], rowDual, |m.cols[j]|, Abs(m.colCost[j])))
  }

  function ColumnPriceScales(m: Model, rowDual: seq<real>): (r: seq<real>)
    requires m.Valid() && |rowDual| == m.numRows
    ensures |r| == |m.cols|
    ensures forall j :: 0 <= j < |r| ==> r[j] == ColumnPriceScale(m, rowDual, j) >= 1.0
  {
    seq(|m.cols|, j requires 0 <= j < |m.cols| => ColumnPriceScale(m, rowDual, j))
  }

  /** |c_j - a_j.y - d_j|, for a linear objective. */
  function Inconsistency(m: Model, rowDual: seq<real>, colDual: seq<real>, j: nat): (r: real)
    requires m.Valid() && |rowDual| == m.numRows && |colDual| == |m.cols| && j < |colDual|
    ensures r >= 0.0
  {
    if m.hessian == [] then Abs(m.colCost[j] - ColDot(m.cols[j], rowDual) - colDual[j]) else 0.0
  }

  function Inconsistencies(m: Model, rowDual: seq<real>, colDual: seq<real>): (r: seq<real>)
    requires m.Valid() && |rowDual| == m.numRows && |colDual| == |m.cols|
    ensures |r| == |m.cols|
    ensures forall j :: 0 <= j < |r| ==> r[j] == Inconsistency(m, rowDual, colDual, j)
  {
    seq(|m.cols|, j requires 0 <= j < |m.cols| => Inconsistency(m, rowDual, colDual, j))
  }

  function WrongSign(mult: real, lo: Bound, hi: Bound): real {
    if lo == hi then 0.0
    else if mult > 0.0 && !IsFiniteBound(lo) then mult
    else if mult < 0.0 && !IsFiniteBound(hi) then -mult
    else 0.0
  }

  function WrongSigns(mult: seq<real>, lo: seq<Bound>, hi: seq<Bound>): (r: seq<real>)
    requires |mult| == |lo| == |hi|
    ensures |r| == |mult|
    ensures forall i :: 0 <= i < |r| ==> r[i] == WrongSign(mult[i], lo[i], hi[i]) >= 0.0
  {
    seq(|mult|, i requires 0 <= i < |mult| => WrongSign(mult[i], lo[i], hi[i]))
  }

  /** |multiplier| times the distance to the nearest bound; nothing where there is none, or
      where the distance itself is too large to be finite. */
  function Product(mult: real, v: real, lo: Bound, hi: Bound): real {
    if lo == hi then 0.0
    else match NearestDistance(v, UsableLower(lo), UsableUpper(hi))
      case None => 0.0
      case Some(slack) => if slack >= MPS_INFINITY then 0.0 else Mul(Abs(mult), slack)
  }

  function ProductsWithSlack(mult: seq<real>, v: seq<real>, lo: seq<Bound>, hi: seq<Bound>): (r: seq<real>)
    requires |mult| == |v| == |lo| == |hi|
    ensures |r| == |v|
    ensures forall i :: 0 <= i < |r| ==> r[i] == Product(mult[i], v[i], lo[i], hi[i])
  {
    seq(|v|, i requires 0 <= i < |v| => Product(mult[i], v[i], lo[i], hi[i]))
  }

  /** max(1, multiplier scale * primal scale) */
  function JointScale(a: seq<real>, b: seq<real>): (r: seq<real>)
    requires |a| == |b|
    ensures |r| == |a|
    ensures forall i :: 0 <= i < |a| ==> r[i] == Max(1.0, Mul(a[i], b[i])) >= 1.0
  {
    seq(|a|, i requires 0 <= i < |a| => Max(1.0, Mul(a[i], b[i])))
  }

  function Repeat(v: real, n: nat): (r: seq<real>)
    ensures |r| == n && forall i :: 0 <= i < n ==> r[i] == v
  {
    seq(n, _ => v)
  }

  function Signed(m: Model, v: seq<real>): (r: seq<real>)
    ensures |r| == |v| && forall i :: 0 <= i < |v| ==> r[i] == m.Sense() * v[i]
  {
    seq(|v|, i requires 0 <= i < |v| => m.Sense() * v[i])
  }

  function DualQualityOf(m: Model, x: seq<real>, rowDual: seq<real>, colDual: seq<real>): DualQuality
    requires m.Valid() && |x| == |colDual| == |m.cols| && |rowDual| == m.numRows
  {
    var y, d, a := Signed(m, rowDual), Signed(m, colDual), Times(m, x);
    var colScale, rowScale := ColumnPriceScales(m, rowDual), Repeat(Max(1.0, Magnitude(rowDual)), m.numRows);
    var errors := Inconsistencies(m, rowDual, colDual);
    var colSigns, rowSigns := WrongSigns(d, m.colLower, m.colUpper), WrongSigns(y, m.rowLower, m.rowUpper);
    var colProducts := ProductsWithSlack(d, x, m.colLower, m.colUpper);
    var rowProducts := ProductsWithSlack(y, a, m.rowLower, m.rowUpper);
    DualQuality(
      Max(Worst(errors), Max(Worst(colSigns), Worst(rowSigns))),
      Max(Max(Worst(Scaled(errors, colScale)),
          Max(Worst(Scaled(colSigns, colScale)), Worst(Scaled(rowSigns, rowScale)))),
          Max(Worst(Scaled(colProducts, JointScale(colScale, OwnScale(x)))),
              Worst(Scaled(rowProducts, JointScale(rowScale, RowScales(m, x)))))),
      Max(Worst(colProducts), Worst(rowProducts)))
  }

  predicate AllZero(p: PrimalQuality, d: DualQuality) {
    && p.infeasibility == 0.0 && p.scaled == 0.0
    && d.infeasibility == 0.0 && d.scaled == 0.0 && d.complementarity == 0.0
  }

  // ---- What zero measures mean --------------------------------------------------------

  /** A multiplier at a value that sits on the other bound than the one it prices. */
  predicate AtWrongEnd(mult: real, v: real, lo: Bound, hi: Bound) {
    lo != hi && ((mult > 0.0 && hi == Fin(v)) || (mult < 0.0 && lo == Fin(v)))
  }

  /** A multiplier at a value so far from both bounds that its slack is not measured. */
  predicate BeyondMeasure(mult: real, v: real, lo: Bound, hi: Bound) {
    lo != hi && mult != 0.0 &&
    match NearestDistance(v, UsableLower(lo), UsableUpper(hi))
    case None => false
    case Some(slack) => slack >= MPS_INFINITY
  }

  /** A multiplier whose slack the measures do not see. */
  predicate Unseen(mult: real, v: real, lo: Bound, hi: Bound) {
    AtWrongEnd(mult, v, lo, hi) || BeyondMeasure(mult, v, lo, hi)
  }

  predicate SomeUnseen(mult: seq<real>, v: seq<real>, lo: seq<Bound>, hi: seq<Bound>)
    requires |mult| == |v| == |lo| == |hi|
  {
    exists i :: 0 <= i < |v| && Unseen(mult[i], v[i], lo[i], hi[i])
  }

  predicate Plain(lo: Bound, hi: Bound) {
    !lo.PosInf? && !hi.NegInf? && (lo.Fin? ==> IsFiniteBound(lo)) && (hi.Fin? ==> IsFiniteBound(hi))
  }

  /** The measures see the nearest bound, up to a distance, and the optimality conditions the
      priced one; that is the whole difference between them. */
  lemma ZeroItemIsTight(mult: real, v: real, lo: Bound, hi: Bound)
    requires Plain(lo, hi) && Within(lo, v, hi)
    ensures (WrongSign(mult, lo, hi) == 0.0 && Product(mult, v, lo, hi) == 0.0 && !Unseen(mult, v, lo, hi))
            <==> Kkt.Tight(mult, v, lo, hi)
    ensures Product(mult, v, lo, hi) >= 0.0
  {
    if lo != hi && mult != 0.0 && NearestDistance(v, UsableLower(lo), UsableUpper(hi)).Some? {
      var nearest := NearestDistance(v, UsableLower(lo), UsableUpper(hi)).value;
      ZeroProduct(Abs(mult), nearest);
      if Kkt.Tight(mult, v, lo, hi) { assert nearest == 0.0; }
    }
  }

  lemma ZeroProduct(f: real, a: real)
    requires f > 0.0 && a >= 0.0
    ensures f * a >= 0.0 && (f * a == 0.0 <==> a == 0.0)
  {
  }

  lemma ZeroItemsAreTight(mult: seq<real>, v: seq<real>, lo: seq<Bound>, hi: seq<Bound>)
    requires |mult| == |v| == |lo| == |hi| && Kkt.AllWithin(lo, v, hi)
    requires forall i :: 0 <= i < |v| ==> Plain(lo[i], hi[i])
    ensures (Worst(WrongSigns(mult, lo, hi)) == 0.0 && Worst(ProductsWithSlack(mult, v, lo, hi)) == 0.0
             && !SomeUnseen(mult, v, lo, hi)) <==> Kkt.AllTight(mult, v, lo, hi)
    ensures forall i :: 0 <= i < |v| ==> ProductsWithSlack(mult, v, lo, hi)[i] >= 0.0
  {
    hide WrongSign, Product, Unseen, Kkt.Tight, Plain, Within;
    var w, p := WrongSigns(mult, lo, hi), ProductsWithSlack(mult, v, lo, hi);
    forall i | 0 <= i < |v|
      ensures w[i] == 0.0 && p[i] == 0.0 && !Unseen(mult[i], v[i], lo[i], hi[i])
        <==> Kkt.Tight(mult[i], v[i], lo[i], hi[i])
      ensures p[i] >= 0.0
    {
      ZeroItemIsTight(mult[i], v[i], lo[i], hi[i]);
    }
    ZeroWorst(w);
    ZeroWorst(p);
  }

  lemma ZeroWorst(s: seq<real>)
    requires forall i :: 0 <= i < |s| ==> s[i] >= 0.0
    ensures Worst(s) == 0.0 <==> forall i :: 0 <= i < |s| ==> s[i] == 0.0
    ensures Worst(s) >= 0.0
  {
    MaxToBound(s, |s|, 0.0);
  }

  lemma {:induction false} ColDotSigned(m: Model, col: seq<Entry>, y: seq<real>, k: nat)
    requires k <= |col| && ValidColumn(col, |y|)
    ensures ColDotTo(col, Signed(m, y), k) == m.Sense() * ColDotTo(col, y, k)
  {
    if k > 0 {
      ColDotSigned(m, col, y, k - 1);
      var e := col[k - 1];
      assert Term(e, Signed(m, y)) == m.Sense() * Term(e, y);
    }
  }

  /** The reported reduced costs agree with the reported prices, in either sense. */
  lemma ConsistentMeansReduced(m: Model, x: seq<real>, rowDual: seq<real>, colDual: seq<real>)
    requires m.Valid() && |x| == |colDual| == |m.cols| && |rowDual| == m.numRows && m.hessian == []
    ensures Worst(Inconsistencies(m, rowDual, colDual)) == 0.0
            <==> Signed(m, colDual) == Kkt.ReducedCosts(m, x, Signed(m, rowDual))
  {
    hide Kkt.ReducedCosts, ColDotTo;
    ZeroWorst(Inconsistencies(m, rowDual, colDual));
    forall j | 0 <= j < |x|
      ensures Inconsistencies(m, rowDual, colDual)[j] == 0.0
              <==> Signed(m, colDual)[j] == Kkt.ReducedCosts(m, x, Signed(m, rowDual))[j]
    {
      ColDotSigned(m, m.cols[j], rowDual, |m.cols[j]|);
      Kkt.ReducedCostAt(m, x, Signed(m, rowDual), j);
      SenseCancels(m.Sense(), m.colCost[j], ColDot(m.cols[j], rowDual), colDual[j]);
    }
  }

  lemma SenseCancels(s: real, c: real, a: real, d: real)
    requires s == 1.0 || s == -1.0
    ensures c - a - d == 0.0 <==> s * d == s * (c + 0.0) - s * a
  {
  }

  predicate PlainModel(m: Model)
    requires m.Valid()
  {
    && (forall j :: 0 <= j < |m.cols| ==> Plain(m.colLower[j], m.colUpper[j]))
    && (forall i :: 0 <= i < m.numRows ==> Plain(m.rowLower[i], m.rowUpper[i]))
  }

  lemma NoExcessIsWithin(lo: Bound, v: real, hi: Bound)
    requires Plain(lo, hi)
    ensures UsableExcess(lo, v, hi) == 0.0 <==> Within(lo, v, hi)
  {
  }

  lemma ZeroExcessIsFeasible(m: Model, x: seq<real>)
    requires m.Valid() && |x| == |m.cols| && PlainModel(m)
    ensures PrimalQualityOf(m, x).infeasibility == 0.0 <==> Feasible(m, x)
  {
    hide UsableExcess, Plain, Within, Objective, Scaled;
    var a := Times(m, x);
    var columns, rows := Excesses(m.colLower, x, m.colUpper), Excesses(m.rowLower, a, m.rowUpper);
    forall j | 0 <= j < |x| ensures columns[j] == 0.0 <==> Within(m.colLower[j], x[j], m.colUpper[j]) {
      NoExcessIsWithin(m.colLower[j], x[j], m.colUpper[j]);
    }
    forall i | 0 <= i < m.numRows ensures rows[i] == 0.0 <==> Within(m.rowLower[i], a[i], m.rowUpper[i]) {
      NoExcessIsWithin(m.rowLower[i], a[i], m.rowUpper[i]);
    }
    ExcessesNonneg(m.colLower, x, m.colUpper);
    ExcessesNonneg(m.rowLower, a, m.rowUpper);
    ZeroWorst(columns);
    ZeroWorst(rows);
  }

  lemma ExcessesNonneg(lo: seq<Bound>, v: seq<real>, hi: seq<Bound>)
    requires |lo| == |v| == |hi|
    ensures forall i :: 0 <= i < |v| ==> Excesses(lo, v, hi)[i] >= 0.0
  {
  }

  lemma DualZeroParts(m: Model, x: seq<real>, rowDual: seq<real>, colDual: seq<real>)
    requires m.Valid() && |x| == |colDual| == |m.cols| && |rowDual| == m.numRows && PlainModel(m) && Feasible(m, x)
    ensures var q, y, d := DualQualityOf(m, x, rowDual, colDual), Signed(m, rowDual), Signed(m, colDual);
      q.infeasibility == 0.0 && q.scaled == 0.0 && q.complementarity == 0.0 <==>
        && Worst(Inconsistencies(m, rowDual, colDual)) == 0.0
        && Worst(WrongSigns(d, m.colLower, m.colUpper)) == 0.0 && Worst(WrongSigns(y, m.rowLower, m.rowUpper)) == 0.0
        && Worst(ProductsWithSlack(d, x, m.colLower, m.colUpper)) == 0.0
        && Worst(ProductsWithSlack(y, Times(m, x), m.rowLower, m.rowUpper)) == 0.0
  {
    hide Times, WrongSign, Product, Inconsistency, ColumnPriceScale, Plain, Within, Mul, MaxTo, Scaled, Max;
    var y, d, a := Signed(m, rowDual), Signed(m, colDual), Times(m, x);
    var colScale, rowScale := ColumnPriceScales(m, rowDual), Repeat(Max(1.0, Magnitude(rowDual)), m.numRows);
    AtLeastOne(Magnitude(rowDual));
    ZeroItemsAreTight(d, x, m.colLower, m.colUpper);
    ZeroItemsAreTight(y, a, m.rowLower, m.rowUpper);
    ScaledIsSmaller(Inconsistencies(m, rowDual, colDual), colScale);
    ScaledIsSmaller(WrongSigns(d, m.colLower, m.colUpper), colScale);
    ScaledIsSmaller(WrongSigns(y, m.rowLower, m.rowUpper), rowScale);
    ScaledIsSmaller(ProductsWithSlack(d, x, m.colLower, m.colUpper), JointScale(colScale, OwnScale(x)));
    ScaledIsSmaller(ProductsWithSlack(y, a, m.rowLower, m.rowUpper), JointScale(rowScale, RowScales(m, x)));
    var errors := Inconsistencies(m, rowDual, colDual);
    var colSigns, rowSigns := WrongSigns(d, m.colLower, m.colUpper), WrongSigns(y, m.rowLower, m.rowUpper);
    var colProducts := ProductsWithSlack(d, x, m.colLower, m.colUpper);
    var rowProducts := ProductsWithSlack(y, a, m.rowLower, m.rowUpper);
    ZeroMax3(Worst(errors), Worst(colSigns), Worst(rowSigns));
    ZeroMax3(Worst(Scaled(errors, colScale)), Worst(Scaled(colSigns, colScale)), Worst(Scaled(rowSigns, rowScale)));
    ZeroMax2(Worst(colProducts), Worst(rowProducts));
    ZeroMax2(Worst(Scaled(colProducts, JointScale(colScale, OwnScale(x)))),
             Worst(Scaled(rowProducts, JointScale(rowScale, RowScales(m, x)))));
    ZeroMax2(Max(Worst(Scaled(errors, colScale)),
                 Max(Worst(Scaled(colSigns, colScale)), Worst(Scaled(rowSigns, rowScale)))),
             Max(Worst(Scaled(colProducts, JointScale(colScale, OwnScale(x)))),
                 Worst(Scaled(rowProducts, JointScale(rowScale, RowScales(m, x))))));
  }

  lemma ZeroMax2(a: real, b: real)
    requires a >= 0.0 && b >= 0.0
    ensures Max(a, b) >= 0.0 && (Max(a, b) == 0.0 <==> a == 0.0 && b == 0.0)
  {
  }

  lemma ZeroMax3(a: real, b: real, c: real)
    requires a >= 0.0 && b >= 0.0 && c >= 0.0
    ensures Max(a, Max(b, c)) >= 0.0 && (Max(a, Max(b, c)) == 0.0 <==> a == 0.0 && b == 0.0 && c == 0.0)
  {
  }

  /** For an LP the five measures are all zero, with no multiplier out of their sight, exactly when
      the point and its reported duals satisfy the optimality conditions. */
  lemma ZeroMeasuresAreKkt(m: Model, x: seq<real>, rowDual: seq<real>, colDual: seq<real>)
    requires m.Valid() && |x| == |colDual| == |m.cols| && |rowDual| == m.numRows && PlainModel(m) && m.hessian == []
    ensures var y, d := Signed(m, rowDual), Signed(m, colDual);
      AllZero(PrimalQualityOf(m, x), DualQualityOf(m, x, rowDual, colDual))
      && !SomeUnseen(d, x, m.colLower, m.colUpper) && !SomeUnseen(y, Times(m, x), m.rowLower, m.rowUpper)
      <==> Kkt.KktHolds(m, x, y) && d == Kkt.ReducedCosts(m, x, y)
  {
    hide SomeUnseen, Signed, Kkt.ReducedCosts, PrimalQualityOf, DualQualityOf, Times, Kkt.AllTight;
    var y, d := Signed(m, rowDual), Signed(m, colDual);
    ScaledPrimalIsSmaller(m, x);
    ZeroExcessIsFeasible(m, x);
    if Feasible(m, x) {
      DualZeroParts(m, x, rowDual, colDual);
      ConsistentMeansReduced(m, x, rowDual, colDual);
      ZeroItemsAreTight(d, x, m.colLower, m.colUpper);
      ZeroItemsAreTight(y, Times(m, x), m.rowLower, m.rowUpper);
    }
  }

  /** Minimise -x over 0 <= x <= 1. */
  function UnitInterval(): Model {
    LpModel.Model(0, [[]], [-1.0], 0.0, false, [Fin(0.0)], [Fin(1.0)], [], [], [])
  }

  /** Zero measures alone do not imply optimality: at x = 0 of the unit interval the multiplier
      prices the upper bound, and the measures only see the lower one. */
  lemma ZeroMeasuresAreNotEnough()
    ensures var m := UnitInterval();
      && m.Valid() && PlainModel(m)
      && AllZero(PrimalQualityOf(m, [0.0]), DualQualityOf(m, [0.0], [], [-1.0]))
      && Feasible(m, [0.0]) && !IsOptimal(m, [0.0])
  {
    hide PrimalQualityOf, DualQualityOf, MinimiseObjective;
    var m, x, d: seq<real> := UnitInterval(), [0.0], [-1.0];
    ScaledPrimalIsSmaller(m, x);
    ZeroExcessIsFeasible(m, x);
    UnitIntervalParts();
    DualZeroParts(m, x, [], d);
    UnitIntervalObjectives();
    assert Feasible(m, [1.0]);
  }

  lemma UnitIntervalParts()
    ensures var m, d: seq<real> := UnitInterval(), Signed(UnitInterval(), [-1.0]);
      && Worst(Inconsistencies(m, [], [-1.0])) == 0.0
      && Worst(WrongSigns(d, m.colLower, m.colUpper)) == 0.0
          && Worst(WrongSigns(Signed(m, []), m.rowLower, m.rowUpper)) == 0.0
      && Worst(ProductsWithSlack(d, [0.0], m.colLower, m.colUpper)) == 0.0
      && Worst(ProductsWithSlack(Signed(m, []), Times(m, [0.0]), m.rowLower, m.rowUpper)) == 0.0
  {
    var m, d: seq<real> := UnitInterval(), Signed(UnitInterval(), [-1.0]);
    assert ColDotTo(m.cols[0], [], 0) == 0.0;
    assert Inconsistency(m, [], [-1.0], 0) == 0.0;
    assert d[0] == -1.0;
    assert Product(-1.0, 0.0, Fin(0.0), Fin(1.0)) == 0.0;
    ZeroWorst(Inconsistencies(m, [], [-1.0]));
    ZeroWorst(WrongSigns(d, m.colLower, m.colUpper));
    ZeroWorst(ProductsWithSlack(d, [0.0], m.colLower, m.colUpper));
    ZeroWorst(WrongSigns(Signed(m, []), m.rowLower, m.rowUpper));
    ZeroWorst(ProductsWithSlack(Signed(m, []), Times(m, [0.0]), m.rowLower, m.rowUpper));
  }

  lemma UnitIntervalObjectives()
    ensures MinimiseObjective(UnitInterval(), [1.0]) < MinimiseObjective(UnitInterval(), [0.0])
  {
    var m := UnitInterval();
    assert DotTo(m.colCost, [1.0], 1) == DotTo(m.colCost, [1.0], 0) + Mul(-1.0, 1.0);
    assert DotTo(m.colCost, [0.0], 1) == DotTo(m.colCost, [0.0], 0) + Mul(-1.0, 0.0);
  }

  /** Minimise x over x >= 0. */
  function HalfLine(): Model {
    LpModel.Model(0, [[]], [1.0], 0.0, false, [Fin(0.0)], [PosInf], [], [], [])
  }

  /** Nor does ruling out multipliers at a wrong end suffice: at x = 1e30 of the half line the
      multiplier prices the right bound, and its distance is too large to be recorded. */
  lemma FarAwayIsNotMeasured()
    ensures var m := HalfLine();
      && m.Valid() && PlainModel(m)
      && AllZero(PrimalQualityOf(m, [MPS_INFINITY]), DualQualityOf(m, [MPS_INFINITY], [], [1.0]))
      && !AtWrongEnd(1.0, MPS_INFINITY, m.colLower[0], m.colUpper[0])
      && Feasible(m, [MPS_INFINITY]) && !IsOptimal(m, [MPS_INFINITY])
  {
    hide PrimalQualityOf, DualQualityOf, MinimiseObjective;
    var m, x, d: seq<real> := HalfLine(), [MPS_INFINITY], [1.0];
    ScaledPrimalIsSmaller(m, x);
    ZeroExcessIsFeasible(m, x);
    HalfLineParts();
    DualZeroParts(m, x, [], d);
    HalfLineObjectives();
    assert Feasible(m, [0.0]);
  }

  lemma HalfLineParts()
    ensures var m, d: seq<real> := HalfLine(), Signed(HalfLine(), [1.0]);
      && Worst(Inconsistencies(m, [], [1.0])) == 0.0
      && Worst(WrongSigns(d, m.colLower, m.colUpper)) == 0.0
          && Worst(WrongSigns(Signed(m, []), m.rowLower, m.rowUpper)) == 0.0
      && Worst(ProductsWithSlack(d, [MPS_INFINITY], m.colLower, m.colUpper)) == 0.0
      && Worst(ProductsWithSlack(Signed(m, []), Times(m, [MPS_INFINITY]), m.rowLower, m.rowUpper)) == 0.0
  {
    var m, d: seq<real> := HalfLine(), Signed(HalfLine(), [1.0]);
    assert ColDotTo(m.cols[0], [], 0) == 0.0;
    assert Inconsistency(m, [], [1.0], 0) == 0.0;
    assert d[0] == 1.0;
    assert Product(1.0, MPS_INFINITY, Fin(0.0), PosInf) == 0.0;
    ZeroWorst(Inconsistencies(m, [], [1.0]));
    ZeroWorst(WrongSigns(d, m.colLower, m.colUpper));
    ZeroWorst(ProductsWithSlack(d, [MPS_INFINITY], m.colLower, m.colUpper));
    ZeroWorst(WrongSigns(Signed(m, []), m.rowLower, m.rowUpper));
    ZeroWorst(ProductsWithSlack(Signed(m, []), Times(m, [MPS_INFINITY]), m.rowLower, m.rowUpper));
  }

  lemma HalfLineObjectives()
    ensures MinimiseObjective(HalfLine(), [0.0]) < MinimiseObjective(HalfLine(), [MPS_INFINITY])
  {
    var m := HalfLine();
    assert DotTo(m.colCost, [MPS_INFINITY], 1) == DotTo(m.colCost, [MPS_INFINITY], 0) + Mul(1.0, MPS_INFINITY);
    assert DotTo(m.colCost, [0.0], 1) == DotTo(m.colCost, [0.0], 0) + Mul(1.0, 0.0);
  }

  // ---- The measures as loops ----------------------------------------------------------

  /** The running worst absolute and scaled violation. */
  datatype Record = Record(absolute: real, scaled: real)
  {
    function With(violation: real, scale: real): Record
      requires scale >= 1.0
    {
      if violation <= 0.0 then this else Record(Max(absolute, violation), Max(scaled, violation / scale))
    }

    predicate Is(s: seq<real>, scale: seq<real>, k: nat, from: Record)
      requires k <= |s| == |scale| && forall i :: 0 <= i < |s| ==> scale[i] >= 1.0
    {
      absolute == Max(from.absolute, MaxTo(s, k)) && scaled == Max(from.scaled, MaxTo(Scaled(s, scale), k))
    }
  }

  lemma WithNext(r: Record, s: seq<real>, scale: seq<real>, k: nat, from: Record)
    requires k < |s| == |scale| && forall i :: 0 <= i < |s| ==> scale[i] >= 1.0
    requires r.Is(s, scale, k, from) && s[k] >= 0.0
    ensures r.With(s[k], scale[k]).Is(s, scale, k + 1, from)
  {
    RatioIsSmaller(s[k], scale[k]);
    MaxToBound(s, k, 0.0);
    MaxToBound(Scaled(s, scale), k, 0.0);
  }

  /** Both bounds of a value, recorded one after the other, are its excess recorded once. */
  lemma RecordBothBounds(r: Record, lo: Bound, v: real, hi: Bound, scale: real)
    requires scale >= 1.0
    ensures var r1 := if IsFiniteBound(lo) then r.With(lo.v - v, scale) else r;
            var r2 := if IsFiniteBound(hi) then r1.With(v - hi.v, scale) else r1;
            r2 == r.With(UsableExcess(lo, v, hi), scale)
  {
    if IsFiniteBound(lo) && IsFiniteBound(hi) && lo.v - v > 0.0 && v - hi.v > 0.0 {
      var a, b := lo.v - v, v - hi.v;
      if a <= b { RatioOrder(a, b, scale); } else { RatioOrder(b, a, scale); }
    }
  }

  lemma RatioOrder(a: real, b: real, scale: real)
    requires scale >= 1.0 && a <= b
    ensures a / scale <= b / scale
  {
    var p, q := a / scale, b / scale;
    assert p * scale == a && q * scale == b;
    if p > q { MulLe(scale, q, p); }
  }

  method RecordBounds(lo: seq<Bound>, v: seq<real>, hi: seq<Bound>, scale: seq<real>, from: Record) returns (r: Record)
    requires |lo| == |v| == |hi| == |scale| && forall i :: 0 <= i < |v| ==> scale[i] >= 1.0
    requires from.absolute >= 0.0 && from.scaled >= 0.0
    ensures r.Is(Excesses(lo, v, hi), scale, |v|, from)
  {
    ExcessesNonneg(lo, v, hi);
    r := from;
    for i := 0 to |v|
      invariant r.Is(Excesses(lo, v, hi), scale, i, from)
    {
      RecordBothBounds(r, lo[i], v[i], hi[i], scale[i]);
      WithNext(r, Excesses(lo, v, hi), scale, i, from);
      if IsFiniteBound(lo[i]) { r := r.With(lo[i].v - v[i], scale[i]); }
      if IsFiniteBound(hi[i]) { r := r.With(v[i] - hi[i].v, scale[i]); }
    }
  }

  method MeasurePrimal(m: Model, x: seq<real>) returns (q: PrimalQuality)
    requires m.Valid() && |x| == |m.cols|
    ensures q == PrimalQualityOf(m, x) && q.activity == Times(m, x)
  {
    hide Excesses, Scaled, RowScales;
    var activity, rowScale := MeasureRows(m, x);
    var columns := RecordBounds(m.colLower, x, m.colUpper, OwnScale(x), Record(0.0, 0.0));
    MaxToBound(Excesses(m.colLower, x, m.colUpper), |x|, 0.0);
    MaxToBound(Scaled(Excesses(m.colLower, x, m.colUpper), OwnScale(x)), |x|, 0.0);
    var rows := RecordBounds(m.rowLower, activity, m.rowUpper, rowScale, columns);
    var objective, _ := MeasureObjective(m, x);
    q := PrimalQuality(activity, rows.absolute, rows.scaled, objective);
  }

  /** The duals must agree with each other: c - A'y against the reported reduced costs. */
  method RecordConsistency(m: Model, rowDual: seq<real>, colDual: seq<real>) returns (r: Record, scale: seq<real>)
    requires m.Valid() && |colDual| == |m.cols| && |rowDual| == m.numRows
    ensures scale == ColumnPriceScales(m, rowDual)
    ensures r.Is(Inconsistencies(m, rowDual, colDual), scale, |m.cols|, Record(0.0, 0.0))
  {
    hide Inconsistency, ColumnPriceScale;
    r, scale := Record(0.0, 0.0), [];
    ghost var scales, errors := ColumnPriceScales(m, rowDual), Inconsistencies(m, rowDual, colDual);
    for j := 0 to |m.cols|
      invariant scale == scales[..j]
      invariant r.Is(errors, scales, j, Record(0.0, 0.0))
    {
      var error, columnScale := MeasureConsistency(m, rowDual, colDual, j);
      WithNext(r, errors, scales, j, Record(0.0, 0.0));
      scale := scale + [columnScale];
      if m.hessian == [] { r := r.With(error, columnScale); }
    }
  }

  method MeasureConsistency(m: Model, rowDual: seq<real>, colDual: seq<real>, j: nat) returns (error: real, scale: real)
    requires m.Valid() && |colDual| == |m.cols| && |rowDual| == m.numRows && j < |m.cols|
    ensures scale == ColumnPriceScale(m, rowDual, j)
    ensures if m.hessian == [] then error == Inconsistency(m, rowDual, colDual, j)
      else Inconsistency(m, rowDual, colDual, j) == 0.0
  {
    var sum, largest := AggregateColumn(m.cols[j], rowDual, Abs(m.colCost[j]));
    error, scale := Abs(m.colCost[j] - sum - colDual[j]), Max(1.0, largest);
  }

  /** Sign conditions and complementary slackness of one family of multipliers. Equal bounds
      are skipped; a product is recorded only against a bound that exists. */
  method RecordMultipliers(mult: seq<real>, v: seq<real>, lo: seq<Bound>, hi: seq<Bound>,
                           scale: seq<real>, primalScale: seq<real>, from: Record)
    returns (signs: Record, products: Record)
    requires |mult| == |v| == |lo| == |hi| == |scale| == |primalScale|
    requires forall i :: 0 <= i < |v| ==> scale[i] >= 1.0
    requires from.absolute >= 0.0 && from.scaled >= 0.0
    ensures signs.Is(WrongSigns(mult, lo, hi), scale, |v|, from)
    ensures products.Is(ProductsWithSlack(mult, v, lo, hi), JointScale(scale, primalScale), |v|, Record(0.0, 0.0))
  {
    hide Mul, WrongSign, Product, Record.With, Record.Is;
    signs, products := from, Record(0.0, 0.0);
    ghost var w, p, joint := WrongSigns(mult, lo, hi), ProductsWithSlack(mult, v, lo, hi),
        JointScale(scale, primalScale);
    IsAtStart(w, scale, from);
    IsAtStart(p, joint, Record(0.0, 0.0));
    for i := 0 to |v|
      invariant signs.Is(w, scale, i, from)
      invariant products.Is(p, joint, i, Record(0.0, 0.0))
    {
      ProductNonneg(mult[i], v[i], lo[i], hi[i]);
      WithNext(signs, w, scale, i, from);
      WithNext(products, p, joint, i, Record(0.0, 0.0));
      signs, products := RecordOne(mult[i], v[i], lo[i], hi[i], scale[i], Max(1.0, Mul(scale[i], primalScale[i])),
          signs, products);
    }
  }

  lemma IsAtStart(s: seq<real>, scale: seq<real>, from: Record)
    requires |s| == |scale| && forall i :: 0 <= i < |s| ==> scale[i] >= 1.0
    requires from.absolute >= 0.0 && from.scaled >= 0.0
    ensures from.Is(s, scale, 0, from)
  {
  }

  lemma WithNothing(r: Record, scale: real)
    requires scale >= 1.0
    ensures r.With(0.0, scale) == r
  {
  }

  method RecordOne(mult: real, v: real, lo: Bound, hi: Bound, scale: real, joint: real, signs0: Record,
      products0: Record)
    returns (signs: Record, products: Record)
    requires scale >= 1.0 && joint >= 1.0
    ensures signs == signs0.With(WrongSign(mult, lo, hi), scale)
    ensures products == products0.With(Product(mult, v, lo, hi), joint)
  {
    hide NearestDistance, Record.With, IsFiniteBound;
    signs, products := signs0, products0;
    WithNothing(signs0, scale);
    WithNothing(products0, joint);
    ProductNonneg(mult, v, lo, hi);
    if lo != hi {
      if mult > 0.0 && !IsFiniteBound(lo) { signs := signs.With(mult, scale); }
      if mult < 0.0 && !IsFiniteBound(hi) { signs := signs.With(-mult, scale); }
      var slack := NearestDistance(v, UsableLower(lo), UsableUpper(hi));
      if mult != 0.0 && slack.Some? && slack.value < MPS_INFINITY {
        products := products.With(Mul(Abs(mult), slack.value), joint);
      }
    }
  }

  lemma ProductNonneg(mult: real, v: real, lo: Bound, hi: Bound)
    ensures Product(mult, v, lo, hi) >= 0.0
    ensures mult == 0.0 ==> Product(mult, v, lo, hi) == 0.0
  {
    if lo != hi && NearestDistance(v, UsableLower(lo), UsableUpper(hi)).Some? {
      MulLe(Abs(mult), 0.0, NearestDistance(v, UsableLower(lo), UsableUpper(hi)).value);
    }
  }

  method MeasureDual(m: Model, x: seq<real>, activity: seq<real>, rowDual: seq<real>, colDual: seq<real>)
    returns (q: DualQuality)
    requires m.Valid() && |x| == |colDual| == |m.cols| && |rowDual| == m.numRows && activity == Times(m, x)
    ensures q == DualQualityOf(m, x, rowDual, colDual)
  {
    hide Times, Inconsistencies, WrongSigns, ProductsWithSlack, ColumnPriceScale, Scaled, MaxTo, Magnitude;
    var errors, colScale := RecordConsistency(m, rowDual, colDual);
    var norm := Max(1.0, Magnitude(rowDual));
    var _, rowActivityScale := MeasureRows(m, x);
    var rowScale := Repeat(norm, m.numRows);
    WorstIsNonneg(Inconsistencies(m, rowDual, colDual));
    WorstIsNonneg(Scaled(Inconsistencies(m, rowDual, colDual), colScale));
    var colSigns, colProducts :=
      RecordMultipliers(Signed(m, colDual), x, m.colLower, m.colUpper, colScale, OwnScale(x), errors);
    WorstIsNonneg(WrongSigns(Signed(m, colDual), m.colLower, m.colUpper));
    WorstIsNonneg(Scaled(WrongSigns(Signed(m, colDual), m.colLower, m.colUpper), colScale));
    var rowSigns, rowProducts :=
      RecordMultipliers(Signed(m, rowDual), activity, m.rowLower, m.rowUpper, rowScale, rowActivityScale, colSigns);
    q := DualQuality(rowSigns.absolute, Max(rowSigns.scaled, Max(colProducts.scaled, rowProducts.scaled)),
                     Max(colProducts.absolute, rowProducts.absolute));
    WorstIsNonneg(WrongSigns(Signed(m, rowDual), m.rowLower, m.rowUpper));
    WorstIsNonneg(Scaled(WrongSigns(Signed(m, rowDual), m.rowLower, m.rowUpper), rowScale));
    WorstIsNonneg(ProductsWithSlack(Signed(m, colDual), x, m.colLower, m.colUpper));
    WorstIsNonneg(ProductsWithSlack(Signed(m, rowDual), activity, m.rowLower, m.rowUpper));
    WorstIsNonneg(Scaled(ProductsWithSlack(Signed(m, colDual), x, m.colLower, m.colUpper),
        JointScale(colScale, OwnScale(x))));
    WorstIsNonneg(Scaled(ProductsWithSlack(Signed(m, rowDual), activity, m.rowLower, m.rowUpper),
        JointScale(rowScale, rowActivityScale)));
  }

  lemma WorstIsNonneg(s: seq<real>)
    ensures MaxTo(s, |s|) >= 0.0
  {
    MaxToBound(s, |s|, 0.0);
  }

  /** The two checkers of an LP answer agree one way: what the verifier accepts at zero tolerance
      has zero measures in the solver's own report. */
  lemma AcceptedHasZeroMeasures(m: Model, p: Point)
    requires m.Valid() && p.Fits(m) && PlainModel(m) && m.hessian == [] && Judge(m, p, EXACT).Accepts()
    ensures AllZero(PrimalQualityOf(m, p.x), DualQualityOf(m, p.x, p.rowDual, p.colDual))
  {
    hide Judge, Kkt.KktHolds, AllZero, PrimalQualityOf, DualQualityOf, Kkt.ReducedCosts;
    ExactAcceptanceIsKkt(m, p);
    assert Prices(m, p) == Signed(m, p.rowDual);
    assert Reduced(m, p) == Signed(m, p.colDual);
    ZeroMeasuresAreKkt(m, p.x, p.rowDual, p.colDual);
  }
}
