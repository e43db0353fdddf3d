/** Rescaled programs. Multiplying row i by r_i > 0 and substituting x_j = t_j z_j is a change
    of variables: a bijection of the feasible points that keeps every objective value. */
module Scaling {
  import opened Vectors
  import opened LpModel
  import opened RowLp
  import Quadratic

  predicate AllPositive(s: seq<real>) {
    forall i :: 0 <= i < |s| ==> s[i] > 0.0
  }

  function ScaleBound(b: Bound, f: real): Bound {
    match b
    case Fin(v) => Fin(Mul(v, f))
    case _ => b
  }

  function DivideBound(b: Bound, f: real): Bound
    requires f > 0.0
  {
    match b
    case Fin(v) => Fin(v / f)
    case _ => b
  }

  function ScaleRow(row: seq<Entry>, r: real, t: seq<real>): (s: seq<Entry>)
    requires ValidColumn(row, |t|)
    ensures |s| == |row| && ValidColumn(s, |t|)
    ensures forall k :: 0 <= k < |row| ==> s[k] == Entry(row[k].row, row[k].val * r * t[row[k].row])
  {
    seq(|row|, k requires 0 <= k < |row| => Entry(row[k].row, row[k].val * r * t[row[k].row]))
  }

  function Scaled(p: Lp, r: seq<real>, t: seq<real>): (q: Lp)
    requires p.Valid() && |r| == |p.rows| && |t| == p.NumCols() && AllPositive(t)
    ensures q.Valid() && |q.rows| == |p.rows| && q.NumCols() == p.NumCols()
  {
    var n, m := p.NumCols(), |p.rows|;
    Lp(seq(m, i requires 0 <= i < m => ScaleRow(p.rows[i], r[i], t)),
       seq(m, i requires 0 <= i < m => ScaleBound(p.rowLower[i], r[i])),
       seq(m, i requires 0 <= i < m => ScaleBound(p.rowUpper[i], r[i])),
       seq(n, j requires 0 <= j < n => Mul(p.cost[j], t[j])),
       seq(n, j requires 0 <= j < n => DivideBound(p.lower[j], t[j])),
       seq(n, j requires 0 <= j < n => DivideBound(p.upper[j], t[j])))
  }

  /** z_j = x_j / t_j */
  function Shrink(t: seq<real>, x: seq<real>): (z: seq<real>)
    requires AllPositive(t)
    ensures |x| == |t| ==> |z| == |x| && forall j :: 0 <= j < |x| ==> z[j] == x[j] / t[j]
  {
    if |x| == |t| then seq(|x|, j requires 0 <= j < |x| => x[j] / t[j]) else x
  }

  /** x_j = t_j z_j */
  function Stretch(t: seq<real>, z: seq<real>): (x: seq<real>)
    requires |t| == |z|
    ensures |x| == |z| && forall j :: 0 <= j < |z| ==> x[j] == Mul(t[j], z[j])
  {
    seq(|z|, j requires 0 <= j < |z| => Mul(t[j], z[j]))
  }

  lemma DivideMultiply(x: real, t: real)
    requires t > 0.0
    ensures Mul(t, x / t) == x && Mul(t, x) / t == x
  {
  }

  lemma StretchShrink(t: seq<real>, x: seq<real>)
    requires AllPositive(t) && |t| == |x|
    ensures Stretch(t, Shrink(t, x)) == x && Shrink(t, Stretch(t, x)) == x
  {
    forall j | 0 <= j < |x| ensures Mul(t[j], x[j] / t[j]) == x[j] && Mul(t[j], x[j]) / t[j] == x[j] {
      DivideMultiply(x[j], t[j]);
    }
  }

  lemma ScaledTerm(v: real, r: real, t: real, z: real, sum: real)
    ensures r * sum + Mul(v * r * t, z) == r * (sum + Mul(v, Mul(t, z)))
  {
  }

  lemma {:induction false} ScaledActivity(row: seq<Entry>, r: real, t: seq<real>, z: seq<real>, k: nat)
    requires |t| == |z| && ValidColumn(row, |t|) && k <= |row|
    ensures ColDotTo(ScaleRow(row, r, t), z, k) == r * ColDotTo(row, Stretch(t, z), k)
  {
    if k > 0 {
      ScaledActivity(row, r, t, z, k - 1);
      var e := row[k - 1];
      assert ScaleRow(row, r, t)[k - 1] == Entry(e.row, e.val * r * t[e.row]);
      ScaledTerm(e.val, r, t[e.row], z[e.row], ColDotTo(row, Stretch(t, z), k - 1));
    }
    assert k == 0 ==> r * 0.0 == 0.0;
  }

  lemma {:induction false} ScaledCost(c: seq<real>, s: seq<real>, t: seq<real>, z: seq<real>, k: nat)
    requires |c| == |s| == |t| == |z| && k <= |c| && forall j :: 0 <= j < |c| ==> s[j] == Mul(c[j], t[j])
    ensures DotTo(s, z, k) == DotTo(c, Stretch(t, z), k)
  {
    hide Mul;
    if k > 0 {
      ScaledCost(c, s, t, z, k - 1);
      MulAssociates(c[k - 1], t[k - 1], z[k - 1]);
    }
  }

  lemma MulAssociates(a: real, b: real, c: real)
    ensures Mul(Mul(a, b), c) == Mul(a, Mul(b, c))
  {
  }

  lemma DivideLe(f: real, a: real, b: real)
    requires f > 0.0
    ensures a / f <= b <==> a <= Mul(f, b)
    ensures b <= a / f <==> Mul(f, b) <= a
  {
    assert f * (a / f) == a;
    MulLt(f, b, a / f);
    MulLt(f, a / f, b);
  }

  lemma MulLtScaled(f: real, a: real, b: real)
    requires f > 0.0
    ensures a < b <==> f * a < Mul(b, f)
    ensures b < a <==> Mul(b, f) < f * a
  {
    MulLt(f, a, b);
    MulLt(f, b, a);
    assert Mul(b, f) == f * b;
  }

  lemma ScaledRowWithin(lo: Bound, v: real, hi: Bound, f: real, w: real)
    requires f > 0.0 && w == f * v
    ensures Within(ScaleBound(lo, f), w, ScaleBound(hi, f)) <==> Within(lo, v, hi)
  {
    hide Mul;
    if lo.Fin? { MulLtScaled(f, v, lo.v); }
    if hi.Fin? { MulLtScaled(f, v, hi.v); }
  }

  lemma ScaledColumnWithin(lo: Bound, v: real, hi: Bound, f: real)
    requires f > 0.0
    ensures Within(DivideBound(lo, f), v, DivideBound(hi, f)) <==> Within(lo, Mul(f, v), hi)
  {
    hide Mul;
    if lo.Fin? { DivideLe(f, lo.v, v); }
    if hi.Fin? { DivideLe(f, hi.v, v); }
  }

  lemma ScaledRow(p: Lp, r: seq<real>, t: seq<real>, z: seq<real>, i: nat)
    requires p.Valid() && |r| == |p.rows| && |t| == |z| == p.NumCols() && AllPositive(r) && AllPositive(t) && i < |r|
    ensures var q := Scaled(p, r, t);
      Within(q.rowLower[i], Activities(q, z)[i], q.rowUpper[i])
      <==> Within(p.rowLower[i], Activities(p, Stretch(t, z))[i], p.rowUpper[i])
  {
    hide Mul, Within, ScaleBound;
    var q, a := Scaled(p, r, t), ColDot(p.rows[i], Stretch(t, z));
    ScaledActivity(p.rows[i], r[i], t, z, |p.rows[i]|);
    assert q.rowLower[i] == ScaleBound(p.rowLower[i], r[i]) && q.rowUpper[i] == ScaleBound(p.rowUpper[i], r[i]);
    assert Activities(q, z)[i] == r[i] * a;
    ScaledRowWithin(p.rowLower[i], a, p.rowUpper[i], r[i], Activities(q, z)[i]);
  }

  /** What the units are: row i counts r_i times what it counted, and so do its bounds; column j is counted in
      units of t_j. */
  lemma ScaledUnits(p: Lp, r: seq<real>, t: seq<real>, z: seq<real>)
    requires p.Valid() && |r| == |p.rows| && |t| == |z| == p.NumCols() && AllPositive(r) && AllPositive(t)
    ensures var q := Scaled(p, r, t);
      && (forall i :: 0 <= i < |r| ==> Activities(q, z)[i] == r[i] * Activities(p, Stretch(t, z))[i])
      && (forall i, v :: 0 <= i < |r| ==>
          (Within(q.rowLower[i], Mul(r[i], v), q.rowUpper[i]) <==> Within(p.rowLower[i], v, p.rowUpper[i])))
      && (forall j, v :: 0 <= j < |t| ==>
          (Within(q.lower[j], v, q.upper[j]) <==> Within(p.lower[j], Mul(t[j], v), p.upper[j])))
  {
    hide Mul, Within, ScaleBound, DivideBound;
    var q := Scaled(p, r, t);
    forall i | 0 <= i < |r| ensures Activities(q, z)[i] == r[i] * Activities(p, Stretch(t, z))[i] {
      ScaledActivity(p.rows[i], r[i], t, z, |p.rows[i]|);
    }
    forall i, v | 0 <= i < |r|
      ensures Within(q.rowLower[i], Mul(r[i], v), q.rowUpper[i]) <==> Within(p.rowLower[i], v, p.rowUpper[i]) {
      MulIs(r[i], v);
      ScaledRowWithin(p.rowLower[i], v, p.rowUpper[i], r[i], Mul(r[i], v));
    }
    forall j, v | 0 <= j < |t|
      ensures Within(q.lower[j], v, q.upper[j]) <==> Within(p.lower[j], Mul(t[j], v), p.upper[j]) {
      ScaledColumnWithin(p.lower[j], v, p.upper[j], t[j]);
    }
  }

  lemma MulIs(a: real, b: real)
    ensures Mul(a, b) == a * b
  {
  }

  /** The change of variables: the same point in other units, with the same objective. */
  lemma ScalingKeepsFeasibility(p: Lp, r: seq<real>, t: seq<real>, z: seq<real>)
    requires p.Valid() && |r| == |p.rows| && |t| == |z| == p.NumCols() && AllPositive(r) && AllPositive(t)
    ensures RowLp.Feasible(Scaled(p, r, t), z) <==> RowLp.Feasible(p, Stretch(t, z))
    ensures Objective(Scaled(p, r, t), z) == Objective(p, Stretch(t, z))
  {
    hide Mul, Within, ScaleBound, DivideBound, Activities;
    var q, x := Scaled(p, r, t), Stretch(t, z);
    ScaledCost(p.cost, q.cost, t, z, |z|);
    forall j | 0 <= j < |z| ensures Within(q.lower[j], z[j], q.upper[j]) <==> Within(p.lower[j], x[j], p.upper[j]) {
      ScaledColumnWithin(p.lower[j], z[j], p.upper[j], t[j]);
    }
    forall i | 0 <= i < |p.rows|
      ensures Within(q.rowLower[i], Activities(q, z)[i], q.rowUpper[i])
              <==> Within(p.rowLower[i], Activities(p, x)[i], p.rowUpper[i]) {
      ScaledRow(p, r, t, z, i);
    }
  }

  /** Both directions of the bijection: optima correspond, at the same objective. */
  lemma ScalingKeepsOptimum(p: Lp, r: seq<real>, t: seq<real>, x: seq<real>)
    requires p.Valid() && |r| == |p.rows| && |t| == |x| == p.NumCols() && AllPositive(r) && AllPositive(t)
    ensures Objective(Scaled(p, r, t), Shrink(t, x)) == Objective(p, x)
    ensures IsOptimal(Scaled(p, r, t), Shrink(t, x)) <==> IsOptimal(p, x)
  {
    hide RowLp.Feasible, Objective, Stretch, Shrink;
    var q, z := Scaled(p, r, t), Shrink(t, x);
    StretchShrink(t, x);
    ScalingKeepsFeasibility(p, r, t, z);
    if IsOptimal(p, x) {
      forall w | RowLp.Feasible(q, w) ensures |w| == q.NumCols() && Objective(q, z) <= Objective(q, w) {
        FeasibleLength(q, w);
        ScalingKeepsFeasibility(p, r, t, w);
      }
    }
    if IsOptimal(q, z) {
      forall w | RowLp.Feasible(p, w) ensures |w| == p.NumCols() && Objective(p, x) <= Objective(p, w) {
        FeasibleLength(p, w);
        StretchShrink(t, w);
        ScalingKeepsFeasibility(p, r, t, Shrink(t, w));
      }
    }
  }

  /** Every optimum of the original is one of the rescaled program, in its own units. */
  lemma EveryOptimumScales(p: Lp, r: seq<real>, t: seq<real>)
    requires p.Valid() && |r| == |p.rows| && |t| == p.NumCols() && AllPositive(r) && AllPositive(t)
    ensures forall x :: IsOptimal(p, x) ==> SameOptimum(p, Scaled(p, r, t), x, Shrink(t, x))
  {
    hide Objective, Scaled, Shrink;
    forall x | IsOptimal(p, x) ensures SameOptimum(p, Scaled(p, r, t), x, Shrink(t, x)) {
      ScalingKeepsOptimum(p, r, t, x);
    }
  }

  /** z is optimal for q, at the objective x has in p. */
  ghost predicate SameOptimum(p: Lp, q: Lp, x: seq<real>, z: seq<real>)
    requires p.Valid() && q.Valid()
  {
    IsOptimal(q, z) && |x| == p.NumCols() && Objective(q, z) == Objective(p, x)
  }

  lemma FeasibleLength(p: Lp, x: seq<real>)
    requires p.Valid()
    ensures RowLp.Feasible(p, x) ==> |x| == p.NumCols()
  {
  }

  // ---- The same for a program written by columns ------------------------------------------

  function ScaleColumn(col: seq<Entry>, r: seq<real>, t: real): (s: seq<Entry>)
    requires ValidColumn(col, |r|)
    ensures |s| == |col| && ValidColumn(s, |r|)
    ensures forall k :: 0 <= k < |col| ==> s[k] == Entry(col[k].row, col[k].val * r[col[k].row] * t)
  {
    seq(|col|, k requires 0 <= k < |col| => Entry(col[k].row, col[k].val * r[col[k].row] * t))
  }

  /** q is m with row i multiplied by r_i and column j in units of t_j. */
  ghost predicate IsRescaled(m: Model, q: Model, r: seq<real>, t: seq<real>)
    requires m.Valid() && q.Valid() && |r| == m.numRows && |t| == |m.cols| && AllPositive(r) && AllPositive(t)
  {
    && q.numRows == m.numRows && |q.cols| == |m.cols|
    && m.hessian == q.hessian == [] && q.offset == m.offset && q.maximize == m.maximize
    && (forall j :: 0 <= j < |m.cols| ==> q.cols[j] == ScaleColumn(m.cols[j], r, t[j]))
    && (forall j :: 0 <= j < |m.cols| ==> q.colCost[j] == Mul(m.colCost[j], t[j]))
    && (forall j :: 0 <= j < |m.cols| ==>
         q.colLower[j] == DivideBound(m.colLower[j], t[j]) && q.colUpper[j] == DivideBound(m.colUpper[j], t[j]))
    && (forall i :: 0 <= i < m.numRows ==>
         q.rowLower[i] == ScaleBound(m.rowLower[i], r[i]) && q.rowUpper[i] == ScaleBound(m.rowUpper[i], r[i]))
  }

  lemma ScaledEntry(w: real, v: real, r: real, t: real, z: real, was: real, now: real)
    requires w == v * r * t && now == r * was
    ensures now + Mul(w, z) == r * (was + Mul(v, Mul(t, z)))
  {
    ScaledTerm(v, r, t, z, was);
  }

  lemma {:induction false} ScaledColumnAdd(a: seq<real>, b: seq<real>, col: seq<Entry>, r: seq<real>, t: real, z: real,
      k: nat)
    requires |a| == |b| == |r| && ValidColumn(col, |r|) && k <= |col|
    requires forall i :: 0 <= i < |a| ==> b[i] == r[i] * a[i]
    ensures forall i :: 0 <= i < |a| ==>
      AddColumnTo(b, ScaleColumn(col, r, t), z, k)[i] == r[i] * AddColumnTo(a, col, Mul(t, z), k)[i]
  {
    hide Mul;
    if k > 0 {
      ScaledColumnAdd(a, b, col, r, t, z, k - 1);
      var e := col[k - 1];
      ghost var was, now := AddColumnTo(a, col, Mul(t, z), k - 1), AddColumnTo(b, ScaleColumn(col, r, t), z, k - 1);
      ScaledEntry(ScaleColumn(col, r, t)[k - 1].val, e.val, r[e.row], t, z, was[e.row], now[e.row]);
    }
  }

  lemma {:induction false} RescaledTimes(m: Model, q: Model, r: seq<real>, t: seq<real>, z: seq<real>, j: nat)
    requires m.Valid() && q.Valid() && |r| == m.numRows && |t| == |m.cols| == |z| && AllPositive(r) && AllPositive(t)
    requires IsRescaled(m, q, r, t) && j <= |z|
    ensures forall i :: 0 <= i < m.numRows ==> TimesTo(q, z, j)[i] == r[i] * TimesTo(m, Stretch(t, z), j)[i]
  {
    hide Mul, AddColumnTo;
    if j > 0 {
      RescaledTimes(m, q, r, t, z, j - 1);
      ScaledColumnAdd(TimesTo(m, Stretch(t, z), j - 1), TimesTo(q, z, j - 1), m.cols[j - 1], r, t[j - 1], z[j - 1],
          |m.cols[j - 1]|);
    } else {
      forall i | 0 <= i < m.numRows ensures r[i] * 0.0 == 0.0 {}
    }
  }

  lemma RescaledFeasible(m: Model, q: Model, r: seq<real>, t: seq<real>, z: seq<real>)
    requires m.Valid() && q.Valid() && |r| == m.numRows && |t| == |m.cols| == |z| && AllPositive(r) && AllPositive(t)
    requires IsRescaled(m, q, r, t)
    ensures LpModel.Feasible(q, z) <==> LpModel.Feasible(m, Stretch(t, z))
    ensures Quadratic.MinimiseObjective(q, z) == Quadratic.MinimiseObjective(m, Stretch(t, z))
  {
    hide Mul, Within, ScaleBound, DivideBound, Times;
    var x := Stretch(t, z);
    ScaledCost(m.colCost, q.colCost, t, z, |z|);
    forall j | 0 <= j < |z|
        ensures Within(q.colLower[j], z[j], q.colUpper[j]) <==> Within(m.colLower[j], x[j], m.colUpper[j]) {
      ScaledColumnWithin(m.colLower[j], z[j], m.colUpper[j], t[j]);
    }
    forall i | 0 <= i < m.numRows
      ensures Within(q.rowLower[i], Times(q, z)[i], q.rowUpper[i])
              <==> Within(m.rowLower[i], Times(m, x)[i], m.rowUpper[i]) {
      RescaledRow(m, q, r, t, z, i);
    }
  }

  lemma RescaledRow(m: Model, q: Model, r: seq<real>, t: seq<real>, z: seq<real>, i: nat)
    requires m.Valid() && q.Valid() && |r| == m.numRows && |t| == |m.cols| == |z| && AllPositive(r) && AllPositive(t)
    requires IsRescaled(m, q, r, t) && i < m.numRows
    ensures Within(q.rowLower[i], Times(q, z)[i], q.rowUpper[i])
            <==> Within(m.rowLower[i], Times(m, Stretch(t, z))[i], m.rowUpper[i])
  {
    RescaledTimes(m, q, r, t, z, |z|);
    hide TimesTo, Within, ScaleBound, IsRescaled;
    ScaledRowWithin(m.rowLower[i], Times(m, Stretch(t, z))[i], m.rowUpper[i], r[i], Times(q, z)[i]);
  }

  /** Optima correspond in both directions, at the same objective. */
  lemma RescaledOptimum(m: Model, q: Model, r: seq<real>, t: seq<real>, x: seq<real>)
    requires m.Valid() && q.Valid() && |r| == m.numRows && |t| == |m.cols| == |x| && AllPositive(r) && AllPositive(t)
    requires IsRescaled(m, q, r, t)
    ensures Quadratic.MinimiseObjective(q, Shrink(t, x)) == Quadratic.MinimiseObjective(m, x)
    ensures Quadratic.IsOptimal(q, Shrink(t, x)) <==> Quadratic.IsOptimal(m, x)
  {
    hide LpModel.Feasible, Quadratic.MinimiseObjective, Stretch, Shrink;
    var z := Shrink(t, x);
    StretchShrink(t, x);
    RescaledFeasible(m, q, r, t, z);
    if Quadratic.IsOptimal(m, x) {
      forall w | LpModel.Feasible(q, w)
        ensures |w| == |q.cols| && Quadratic.MinimiseObjective(q, z) <= Quadratic.MinimiseObjective(q, w) {
        FeasiblePointLength(q, w);
        RescaledFeasible(m, q, r, t, w);
      }
    }
    if Quadratic.IsOptimal(q, z) {
      forall w | LpModel.Feasible(m, w)
        ensures |w| == |m.cols| && Quadratic.MinimiseObjective(m, x) <= Quadratic.MinimiseObjective(m, w) {
        FeasiblePointLength(m, w);
        StretchShrink(t, w);
        RescaledFeasible(m, q, r, t, Shrink(t, w));
      }
    }
  }

  lemma FeasiblePointLength(m: Model, x: seq<real>)
    requires m.Valid()
    ensures LpModel.Feasible(m, x) ==> |x| == |m.cols|
  {
  }
}
