/** Certificates of infeasibility: one multiplier per row. The rows aggregate to
    required <= d.x with d = A'y; the column box allows at most `reachable`. */
module Farkas {
  import opened Vectors
  import opened LpModel

  const PRIMAL_FEASIBILITY: real := 0.0000001
  const ZERO_DROP: real := 0.00000000001

  // ---- The pieces of an aggregate -----------------------------------------------------

  predicate SomeNonzero(y: seq<real>) { exists i :: 0 <= i < |y| && y[i] != 0.0 }

  /** Every row multiplier leans on a bound its row has. */
  predicate RowsPriced(m: Model, y: seq<real>)
    requires m.Valid() && |y| == m.numRows
  {
    forall i :: 0 <= i < |y| ==> PricesRealBound(y[i], m.rowLower[i], m.rowUpper[i])
  }

  function RowTerms(m: Model, y: seq<real>): (r: seq<real>)
    requires m.Valid() && |y| == m.numRows
    ensures |r| == |y|
    ensures forall i :: 0 <= i < |y| ==> r[i] == BoundContribution(y[i], m.rowLower[i], m.rowUpper[i])
  {
    seq(|y|, i requires 0 <= i < |y| => BoundContribution(y[i], m.rowLower[i], m.rowUpper[i]))
  }

  /** The least value the rows force on the aggregate. */
  function Required(m: Model, y: seq<real>): real
    requires m.Valid() && |y| == m.numRows
  {
    Sum(RowTerms(m, y))
  }

  /** The largest |value * y| over the first k entries of a column, or `from` if larger. */
  function ColumnScale(col: seq<Entry>, y: seq<real>, k: nat, from: real): (scale: real)
    requires k <= |col| && ValidColumn(col, |y|)
    ensures scale >= from
  {
    if k == 0 then from else Max(ColumnScale(col, y, k - 1, from), Abs(Term(col[k - 1], y)))
  }

  function ScaleTo(m: Model, y: seq<real>, j: nat, from: real): real
    requires m.Valid() && |y| == m.numRows && j <= |m.cols|
  {
    if j == 0 then from else ColumnScale(m.cols[j - 1], y, |m.cols[j - 1]|, ScaleTo(m, y, j - 1, from))
  }

  /** The largest term of A'y. */
  function TermScale(m: Model, y: seq<real>): real
    requires m.Valid() && |y| == m.numRows
  {
    ScaleTo(m, y, |m.cols|, 0.0)
  }

  /** An aggregate coefficient at or below this is read as zero. */
  function ZeroLevel(m: Model, y: seq<real>, zeroDrop: real): real
    requires m.Valid() && |y| == m.numRows
  {
    zeroDrop * Max(1.0, TermScale(m, y))
  }

  /** A kept aggregate coefficient is bounded in the direction it prefers. */
  predicate ColumnBounded(dj: real, lo: Bound, hi: Bound, zero: real) {
    (dj > zero ==> hi.Fin?) && (dj < -zero ==> lo.Fin?)
  }

  predicate ColumnsBounded(m: Model, d: seq<real>, zero: real)
    requires m.Valid() && |d| == |m.cols|
  {
    forall j :: 0 <= j < |d| ==> ColumnBounded(d[j], m.colLower[j], m.colUpper[j], zero)
  }

  /** The most a column's bounds let its kept coefficient contribute. */
  function ColumnReach(dj: real, lo: Bound, hi: Bound, zero: real): real {
    if dj > zero && hi.Fin? then dj * hi.v
    else if dj < -zero && lo.Fin? then dj * lo.v
    else 0.0
  }

  function ReachTerms(m: Model, d: seq<real>, zero: real): (r: seq<real>)
    requires m.Valid() && |d| == |m.cols|
    ensures |r| == |d|
    ensures forall j :: 0 <= j < |d| ==> r[j] == ColumnReach(d[j], m.colLower[j], m.colUpper[j], zero)
  {
    seq(|d|, j requires 0 <= j < |d| => ColumnReach(d[j], m.colLower[j], m.colUpper[j], zero))
  }

  function Reachable(m: Model, d: seq<real>, zero: real): real
    requires m.Valid() && |d| == |m.cols|
  {
    Sum(ReachTerms(m, d, zero))
  }

  // ---- The solver's own checker -------------------------------------------------------

  function Max4(a: real, b: real, c: real, d: real): real { Max(Max(Max(a, b), c), d) }

  /** The contradiction is beyond what the arithmetic could have invented. */
  predicate ClearMargin(required: real, reachable: real, scale: real, feasTol: real) {
    required - reachable > feasTol * Max4(1.0, Abs(required), Abs(reachable), scale)
  }

  /** What `FarkasProvesInfeasible` decides, at any pair of tolerances. */
  predicate Accepts(m: Model, y: seq<real>, zeroDrop: real, feasTol: real)
    requires m.Valid()
  {
    && |y| == m.numRows
    && SomeNonzero(y)
    && RowsPriced(m, y)
    && var d, zero := TransposeTimes(m, y), ZeroLevel(m, y, zeroDrop);
       && ColumnsBounded(m, d, zero)
       && ClearMargin(Required(m, y), Reachable(m, d, zero), TermScale(m, y), feasTol)
  }

  predicate Proves(m: Model, y: seq<real>)
    requires m.Valid()
  {
    Accepts(m, y, ZERO_DROP, PRIMAL_FEASIBILITY)
  }

  method FarkasProvesInfeasible(m: Model, y: seq<real>) returns (ok: bool)
    requires m.Valid()
    ensures ok == Proves(m, y)
  {
    if |y| != m.numRows { return false; }
    if forall i :: 0 <= i < |y| ==> y[i] == 0.0 { return false; }
    var priced, required := AggregateRows(m, y);
    if !priced { return false; }
    var d, scale := AggregateColumns(m, y);
    var bounded, reachable := BoxReach(m, d, ZERO_DROP * Max(1.0, scale));
    if !bounded { return false; }
    ok := ClearMargin(required, reachable, scale, PRIMAL_FEASIBILITY);
  }

  /** The least the rows force; fails when a multiplier leans on a bound its row does not have. */
  method AggregateRows(m: Model, y: seq<real>) returns (ok: bool, required: real)
    requires m.Valid() && |y| == m.numRows
    ensures ok == RowsPriced(m, y)
    ensures ok ==> required == Required(m, y)
  {
    ok, required := true, 0.0;
    for i := 0 to |y|
      invariant forall k :: 0 <= k < i ==> PricesRealBound(y[k], m.rowLower[k], m.rowUpper[k])
      invariant required == SumTo(RowTerms(m, y), i)
    {
      if y[i] > 0.0 {
        if !m.rowLower[i].Fin? { return false, required; }
        required := required + y[i] * m.rowLower[i].v;
      } else if y[i] < 0.0 {
        if !m.rowUpper[i].Fin? { return false, required; }
        required := required + y[i] * m.rowUpper[i].v;
      }
    }
  }

  /** The most the box allows; fails when a kept coefficient meets no bound. */
  method BoxReach(m: Model, d: seq<real>, zero: real) returns (ok: bool, reachable: real)
    requires m.Valid() && |d| == |m.cols| && zero >= 0.0
    ensures ok == ColumnsBounded(m, d, zero)
    ensures ok ==> reachable == Reachable(m, d, zero)
  {
    ok, reachable := true, 0.0;
    for j := 0 to |d|
      invariant forall k :: 0 <= k < j ==> ColumnBounded(d[k], m.colLower[k], m.colUpper[k], zero)
      invariant reachable == SumTo(ReachTerms(m, d, zero), j)
    {
      if d[j] > zero {
        if !m.colUpper[j].Fin? { return false, reachable; }
        reachable := reachable + d[j] * m.colUpper[j].v;
      } else if d[j] < -zero {
        if !m.colLower[j].Fin? { return false, reachable; }
        reachable := reachable + d[j] * m.colLower[j].v;
      }
    }
  }

  /** d = A'y and the largest term it was summed from, column by column. */
  method AggregateColumns(m: Model, y: seq<real>) returns (d: seq<real>, scale: real)
    requires m.Valid() && |y| == m.numRows
    ensures d == TransposeTimes(m, y)
    ensures scale == TermScale(m, y)
  {
    d := Zeros(|m.cols|);
    scale := 0.0;
    for j := 0 to |m.cols|
      invariant |d| == |m.cols|
      invariant forall i :: 0 <= i < j ==> d[i] == ColDot(m.cols[i], y)
      invariant scale == ScaleTo(m, y, j, 0.0)
    {
      var sum;
      sum, scale := AggregateColumn(m.cols[j], y, scale);
      d := d[j := sum];
    }
  }

  method AggregateColumn(col: seq<Entry>, y: seq<real>, from: real) returns (sum: real, scale: real)
    requires ValidColumn(col, |y|)
    ensures sum == ColDot(col, y)
    ensures scale == ColumnScale(col, y, |col|, from)
  {
    sum, scale := 0.0, from;
    for k := 0 to |col|
      invariant sum == ColDotTo(col, y, k)
      invariant scale == ColumnScale(col, y, k, from)
    {
      var term := Term(col[k], y);
      sum := sum + term;
      scale := Max(scale, Abs(term));
    }
  }

  // ---- The scale is the largest term --------------------------------------------------

  lemma {:induction false} ColumnScaleFrom(col: seq<Entry>, y: seq<real>, k: nat, a: real, b: real)
    requires k <= |col| && ValidColumn(col, |y|)
    ensures ColumnScale(col, y, k, Max(a, b)) == Max(a, ColumnScale(col, y, k, b))
  {
    if k > 0 { ColumnScaleFrom(col, y, k - 1, a, b); }
  }

  /** Starting the running maximum at `a` is the same as taking the maximum with `a` at the end. */
  lemma {:induction false} ScaleFrom(m: Model, y: seq<real>, j: nat, a: real, b: real)
    requires m.Valid() && |y| == m.numRows && j <= |m.cols|
    ensures ScaleTo(m, y, j, Max(a, b)) == Max(a, ScaleTo(m, y, j, b))
  {
    if j > 0 {
      ScaleFrom(m, y, j - 1, a, b);
      ColumnScaleFrom(m.cols[j - 1], y, |m.cols[j - 1]|, a, ScaleTo(m, y, j - 1, b));
    }
  }

  // ---- Soundness ----------------------------------------------------------------------

  /** |x_j| over the columns whose nonzero aggregate coefficient is read as zero. */
  function DroppedTerms(d: seq<real>, x: seq<real>, zero: real): (r: seq<real>)
    requires |d| == |x|
    ensures |r| == |x|
    ensures forall j :: 0 <= j < |x| ==> r[j] == if d[j] != 0.0 && -zero <= d[j] <= zero then Abs(x[j]) else 0.0
  {
    seq(|x|, j requires 0 <= j < |x| => if d[j] != 0.0 && -zero <= d[j] <= zero then Abs(x[j]) else 0.0)
  }

  function DroppedNorm(d: seq<real>, x: seq<real>, zero: real): real
    requires |d| == |x|
  {
    Sum(DroppedTerms(d, x, zero))
  }

  /** Inside the box, one column contributes at most its reach, plus at most zero*|x_j| if dropped. */
  lemma ColumnReachBound(dj: real, lo: Bound, xj: real, hi: Bound, zero: real)
    requires zero >= 0.0 && Within(lo, xj, hi) && ColumnBounded(dj, lo, hi, zero)
    ensures dj * xj <= ColumnReach(dj, lo, hi, zero)
                       + zero * (if dj != 0.0 && -zero <= dj <= zero then Abs(xj) else 0.0)
  {
    if dj > zero {
      MulLe(dj, xj, hi.v);
    } else if dj < -zero {
      MulGe(dj, lo.v, xj);
    } else if xj >= 0.0 {
      MulLe(xj, dj, zero);
    } else {
      MulLe(-xj, -dj, zero);
    }
  }

  /** Aggregating the rows of a feasible point. */
  lemma RequiredIsForced(m: Model, y: seq<real>, x: seq<real>)
    requires m.Valid() && |y| == m.numRows && RowsPriced(m, y) && Feasible(m, x)
    ensures Required(m, y) <= Dot(TransposeTimes(m, y), x)
  {
    var a := Times(m, x);
    forall i | 0 <= i < m.numRows ensures RowTerms(m, y)[i] <= Products(y, a)[i] {
      ContributionIsLowerBound(y[i], m.rowLower[i], a[i], m.rowUpper[i]);
    }
    SumToLe(RowTerms(m, y), Products(y, a), m.numRows);
    DotIsSum(y, a, m.numRows);
    SumSwap(m, y, x);
  }

  lemma BoxLength(m: Model, x: seq<real>)
    requires m.Valid() && InBox(m, x)
    ensures |x| == |m.cols|
  {
  }

  lemma ColumnAllows(m: Model, d: seq<real>, x: seq<real>, zero: real, j: nat)
    requires m.Valid() && |d| == |m.cols| && InBox(m, x) && zero >= 0.0 && ColumnsBounded(m, d, zero) && j < |d|
    ensures Products(d, x)[j] <= ReachTerms(m, d, zero)[j] + zero * DroppedTerms(d, x, zero)[j]
  {
    ColumnReachBound(d[j], m.colLower[j], x[j], m.colUpper[j], zero);
  }

  /** What the column box allows the aggregate, dropped columns included. */
  lemma BoxAllows(m: Model, d: seq<real>, x: seq<real>, zero: real)
    requires m.Valid() && |d| == |m.cols| && InBox(m, x) && zero >= 0.0 && ColumnsBounded(m, d, zero)
    ensures Dot(d, x) <= Reachable(m, d, zero) + zero * DroppedNorm(d, x, zero)
  {
    hide ReachTerms, DroppedTerms, Products, ColumnsBounded, InBox, DotTo;
    BoxLength(m, x);
    var p, r, n := Products(d, x), ReachTerms(m, d, zero), DroppedTerms(d, x, zero);
    forall j | 0 <= j < |d| ensures p[j] <= r[j] + zero * n[j] {
      ColumnAllows(m, d, x, zero, j);
    }
    SumToBound(p, r, n, zero, |d|);
    DotIsSum(d, x, |d|);
  }

  /** A margin of 1e-7 times the comparison scale against a dropped 1e-11 per unit of norm. */
  lemma MarginBeatsDrop(required: real, reachable: real, s: real, comparison: real, norm: real)
    requires 1.0 <= s <= comparison
    requires required - reachable > PRIMAL_FEASIBILITY * comparison
    requires required <= reachable + (ZERO_DROP * s) * norm
    ensures norm > 10000.0
  {
    if norm <= 10000.0 {
      MulLe(ZERO_DROP * s, norm, 10000.0);
    }
  }

  /** Farkas soundness at the solver's own thresholds. A column whose aggregate coefficient is
      dropped as rounding can hide a feasible point, but only one that is at least 10,000 away
      in those columns. */
  lemma AcceptedMeansFarAway(m: Model, y: seq<real>, x: seq<real>)
    requires m.Valid() && Proves(m, y) && Feasible(m, x)
    ensures DroppedNorm(TransposeTimes(m, y), x, ZeroLevel(m, y, ZERO_DROP)) > 10000.0
  {
    hide RowsPriced, ColumnsBounded, Required, Reachable, DroppedNorm, TermScale, SomeNonzero;
    var d, zero := TransposeTimes(m, y), ZeroLevel(m, y, ZERO_DROP);
    RequiredIsForced(m, y, x);
    BoxAllows(m, d, x, zero);
    var required, reachable := Required(m, y), Reachable(m, d, zero);
    MarginBeatsDrop(required, reachable, Max(1.0, TermScale(m, y)),
                    Max4(1.0, Abs(required), Abs(reachable), TermScale(m, y)), DroppedNorm(d, x, zero));
  }

  /** No nonzero aggregate coefficient is small enough to be read as zero. */
  predicate NothingDropped(m: Model, y: seq<real>, zeroDrop: real)
    requires m.Valid() && |y| == m.numRows
  {
    forall j :: 0 <= j < |m.cols| ==>
      TransposeTimes(m, y)[j] == 0.0 || Abs(TransposeTimes(m, y)[j]) > ZeroLevel(m, y, zeroDrop)
  }

  /** With no nonzero coefficient dropped an accepted certificate is an outright proof. */
  lemma AcceptedMeansInfeasible(m: Model, y: seq<real>)
    requires m.Valid() && Proves(m, y)
    requires NothingDropped(m, y, ZERO_DROP)
    ensures Infeasible(m)
  {
    var d, zero := TransposeTimes(m, y), ZeroLevel(m, y, ZERO_DROP);
    forall x | Feasible(m, x) ensures false {
      AcceptedMeansFarAway(m, y, x);
      SumToZero(DroppedTerms(d, x, zero), |x|);
    }
  }

  // ---- Exactness at zero tolerance ----------------------------------------------------

  /** The bounds of one column admit some value. */
  predicate ProperBounds(lo: Bound, hi: Bound) {
    !lo.PosInf? && !hi.NegInf? && (lo.Fin? && hi.Fin? ==> lo.v <= hi.v)
  }

  predicate ProperBox(m: Model)
    requires m.Valid()
  {
    forall j :: 0 <= j < |m.cols| ==> ProperBounds(m.colLower[j], m.colUpper[j])
  }

  /** The aggregate inequality has no solution in the column box. */
  ghost predicate AggregateContradictsBox(m: Model, y: seq<real>)
    requires m.Valid() && |y| == m.numRows
  {
    forall x :: InBox(m, x) ==> Dot(TransposeTimes(m, y), x) < Required(m, y)
  }

  /** The value that takes a column as far as its bounds allow in the direction of dj. */
  function CornerValue(dj: real, lo: Bound, hi: Bound): real {
    if dj > 0.0 && hi.Fin? then hi.v
    else if lo.Fin? then lo.v
    else if hi.Fin? then hi.v
    else 0.0
  }

  function Corner(m: Model, d: seq<real>): (x: seq<real>)
    requires m.Valid() && |d| == |m.cols|
    ensures |x| == |d|
    ensures forall j :: 0 <= j < |d| ==> x[j] == CornerValue(d[j], m.colLower[j], m.colUpper[j])
  {
    seq(|d|, j requires 0 <= j < |d| => CornerValue(d[j], m.colLower[j], m.colUpper[j]))
  }

  lemma {:induction false} CornerAttains(m: Model, d: seq<real>, k: nat)
    requires m.Valid() && |d| == |m.cols| && k <= |d| && ProperBox(m) && ColumnsBounded(m, d, 0.0)
    ensures DotTo(d, Corner(m, d), k) == SumTo(ReachTerms(m, d, 0.0), k)
  {
    if k > 0 {
      CornerAttains(m, d, k - 1);
      assert ColumnBounded(d[k - 1], m.colLower[k - 1], m.colUpper[k - 1], 0.0);
    }
  }

  /** Moving one column whose aggregate coefficient is not bounded reaches any target. */
  lemma FreeColumnReaches(m: Model, d: seq<real>, j: nat, target: real) returns (x: seq<real>)
    requires m.Valid() && |d| == |m.cols| && j < |d| && ProperBox(m)
    requires !ColumnBounded(d[j], m.colLower[j], m.colUpper[j], 0.0)
    ensures InBox(m, x) && Dot(d, x) >= target
  {
    var corner := Corner(m, d);
    var missing := target - Dot(d, corner);
    if missing <= 0.0 { return corner; }
    var step := missing / d[j];
    assert d[j] * step == missing;
    DotToUpdate(d, corner, j, step, |d|);
    x := corner[j := corner[j] + step];
    if d[j] > 0.0 { assert step > 0.0; } else { assert step < 0.0; }
  }

  /** Every aggregate coefficient is bounded and together they cannot reach what is required. */
  predicate BoxFallsShort(m: Model, y: seq<real>)
    requires m.Valid() && |y| == m.numRows
  {
    ColumnsBounded(m, TransposeTimes(m, y), 0.0) && Required(m, y) > Reachable(m, TransposeTimes(m, y), 0.0)
  }

  lemma ProperContradiction(m: Model, y: seq<real>)
    requires m.Valid() && |y| == m.numRows && ProperBox(m) && AggregateContradictsBox(m, y)
    ensures BoxFallsShort(m, y)
  {
    var d := TransposeTimes(m, y);
    if j :| 0 <= j < |d| && !ColumnBounded(d[j], m.colLower[j], m.colUpper[j], 0.0) {
      var x := FreeColumnReaches(m, d, j, Required(m, y));
      assert false;
    }
    CornerAttains(m, d, |d|);
    assert InBox(m, Corner(m, d));
  }

  /** No point of the box satisfies the aggregate exactly when the box has no point at all, or
      falls short of what the rows require. */
  lemma ContradictionIsShortfall(m: Model, y: seq<real>)
    requires m.Valid() && |y| == m.numRows
    ensures AggregateContradictsBox(m, y) <==> !ProperBox(m) || BoxFallsShort(m, y)
  {
    var d := TransposeTimes(m, y);
    if ProperBox(m) {
      if AggregateContradictsBox(m, y) { ProperContradiction(m, y); }
    } else {
      forall x ensures !InBox(m, x) { NoPointInImproperBox(m, x); }
    }
    if BoxFallsShort(m, y) {
      forall x | InBox(m, x) ensures Dot(d, x) < Required(m, y) { BoxAllows(m, d, x, 0.0); }
    }
  }

  lemma NoPointInImproperBox(m: Model, x: seq<real>)
    requires m.Valid() && !ProperBox(m)
    ensures !InBox(m, x)
  {
    var j :| 0 <= j < |m.cols| && !ProperBounds(m.colLower[j], m.colUpper[j]);
    if |x| == |m.cols| { assert !Within(m.colLower[j], x[j], m.colUpper[j]); }
  }

  /** At zero tolerance the checker accepts exactly the certificates that are proofs: the rows
      are really there, and no point of the column box satisfies the aggregate they imply. What
      it misses is only a box that is empty by itself. */
  lemma ExactAtZeroTolerance(m: Model, y: seq<real>)
    requires m.Valid() && |y| == m.numRows
    ensures SomeNonzero(y) && RowsPriced(m, y) && AggregateContradictsBox(m, y)
            <==> Accepts(m, y, 0.0, 0.0) || (SomeNonzero(y) && RowsPriced(m, y) && !ProperBox(m))
  {
    hide AggregateContradictsBox, Required, Reachable, ProperBox, RowsPriced, ColumnsBounded, TermScale;
    ContradictionIsShortfall(m, y);
  }

  // ---- What dropping small coefficients costs ----------------------------------------------

  /** What the coefficients read as zero could still contribute. */
  function DroppedReachTerms(m: Model, d: seq<real>, zero: real): (r: seq<real>)
    requires m.Valid() && |d| == |m.cols|
    ensures |r| == |d|
    ensures forall j :: 0 <= j < |d| ==>
      r[j] == if -zero <= d[j] <= zero then ColumnReach(d[j], m.colLower[j], m.colUpper[j], 0.0) else 0.0
  {
    seq(|d|, j requires 0 <= j < |d| =>
      if -zero <= d[j] <= zero then ColumnReach(d[j], m.colLower[j], m.colUpper[j], 0.0) else 0.0)
  }

  function DroppedReach(m: Model, d: seq<real>, zero: real): real
    requires m.Valid() && |d| == |m.cols|
  {
    Sum(DroppedReachTerms(m, d, zero))
  }

  /** The coefficients read as zero meet a bound in the direction they prefer. */
  predicate DroppedBounded(m: Model, d: seq<real>, zero: real)
    requires m.Valid() && |d| == |m.cols|
  {
    forall j :: 0 <= j < |d| && -zero <= d[j] <= zero ==> ColumnBounded(d[j], m.colLower[j], m.colUpper[j], 0.0)
  }

  /** Reading small coefficients as zero takes their reach out of the comparison: the margin
      grows exactly when that reach is positive, and their bounds are no longer asked for. */
  lemma ReachSplits(m: Model, d: seq<real>, zero: real)
    requires m.Valid() && |d| == |m.cols| && zero >= 0.0
    ensures Reachable(m, d, 0.0) == Reachable(m, d, zero) + DroppedReach(m, d, zero)
    ensures Reachable(m, d, zero) < Reachable(m, d, 0.0) <==> DroppedReach(m, d, zero) > 0.0
    ensures ColumnsBounded(m, d, 0.0) <==> ColumnsBounded(m, d, zero) && DroppedBounded(m, d, zero)
  {
    hide ColumnReach;
    forall j | 0 <= j < |d|
      ensures ReachTerms(m, d, 0.0)[j] == ReachTerms(m, d, zero)[j] + DroppedReachTerms(m, d, zero)[j]
      ensures ColumnBounded(d[j], m.colLower[j], m.colUpper[j], 0.0)
              <==> ColumnBounded(d[j], m.colLower[j], m.colUpper[j], zero)
                   && (-zero <= d[j] <= zero ==> ColumnBounded(d[j], m.colLower[j], m.colUpper[j], 0.0))
    {
      ColumnReachSplits(d[j], m.colLower[j], m.colUpper[j], zero);
    }
    SumToLinear(ReachTerms(m, d, zero), DroppedReachTerms(m, d, zero), ReachTerms(m, d, 0.0), 1.0, 1.0, |d|);
  }

  lemma ColumnReachSplits(dj: real, lo: Bound, hi: Bound, zero: real)
    requires zero >= 0.0
    ensures ColumnReach(dj, lo, hi, 0.0)
            == ColumnReach(dj, lo, hi, zero) + if -zero <= dj <= zero then ColumnReach(dj, lo, hi, 0.0) else 0.0
  {
  }

  /** An accepted certificate is a contradiction exactly when the coefficients read as zero are
      bounded where they lean and their reach does not use up the margin, or the box is empty. */
  lemma AcceptedIsProofIff(m: Model, y: seq<real>)
    requires m.Valid() && Proves(m, y)
    ensures var d, zero := TransposeTimes(m, y), ZeroLevel(m, y, ZERO_DROP);
      AggregateContradictsBox(m, y)
      <==> !ProperBox(m)
           || (DroppedBounded(m, d, zero) && Required(m, y) > Reachable(m, d, zero) + DroppedReach(m, d, zero))
  {
    hide AggregateContradictsBox, Required, Reachable, DroppedReach, DroppedBounded, ProperBox, ColumnsBounded,
      TermScale;
    ContradictionIsShortfall(m, y);
    ReachSplits(m, TransposeTimes(m, y), ZeroLevel(m, y, ZERO_DROP));
  }

  /** x / 10^12 >= 1 with 0 <= x. */
  function FarFeasible(): Model {
    Model(1, [[Entry(0, 0.000000000001)]], [0.0], 0.0, false, [Fin(0.0)], [PosInf], [Fin(1.0)], [PosInf], [])
  }

  /** Dropping a small coefficient makes a proof easier to pass, not harder: this certificate is
      accepted although x = 10^12 is feasible. Kept, the coefficient would meet an infinite bound. */
  lemma DroppingCanAcceptAFeasibleModel()
    ensures var m, y := FarFeasible(), [1.0];
      m.Valid() && Proves(m, y) && !Accepts(m, y, 0.0, PRIMAL_FEASIBILITY) && Feasible(m, [1000000000000.0])
  {
    var m, y, x := FarFeasible(), [1.0], [1000000000000.0];
    assert ColDotTo(m.cols[0], y, 1) == ColDotTo(m.cols[0], y, 0) + 0.000000000001;
    assert TransposeTimes(m, y) == [0.000000000001];
    assert ColumnScale(m.cols[0], y, 1, 0.0) == 0.000000000001;
    assert ScaleTo(m, y, 1, 0.0) == 0.000000000001;
    assert SumTo(RowTerms(m, y), 1) == SumTo(RowTerms(m, y), 0) + 1.0;
    var d := TransposeTimes(m, y);
    assert SumTo(ReachTerms(m, d, ZeroLevel(m, y, ZERO_DROP)), 1) == 0.0;
    assert !ColumnBounded(d[0], m.colLower[0], m.colUpper[0], 0.0);
    assert AddColumnTo(Zeros(1), m.cols[0], x[0], 1)
        == AddEntry(AddColumnTo(Zeros(1), m.cols[0], x[0], 0), m.cols[0][0], x[0]);
    assert TimesTo(m, x, 1) == AddColumnTo(TimesTo(m, x, 0), m.cols[0], x[0], 1);
  }
}
