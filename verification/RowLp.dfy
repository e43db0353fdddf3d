/** Linear programs written row by row, as the generators build them: minimise c.x subject to
    rowLower <= A x <= rowUpper and lower <= x <= upper. A row is a list of entries whose index
    is the column, so the rows of A are the columns of its transpose and the same sums apply. */
module RowLp {
  import opened Vectors
  import opened LpModel
  import Kkt

  datatype Lp = Lp(
    rows: seq<seq<Entry>>, rowLower: seq<Bound>, rowUpper: seq<Bound>,
    cost: seq<real>, lower: seq<Bound>, upper: seq<Bound>)
  {
    predicate Valid() {
      && |rowLower| == |rowUpper| == |rows|
      && |lower| == |upper| == |cost|
      && forall i :: 0 <= i < |rows| ==> ValidColumn(rows[i], |cost|)
    }

    function NumCols(): nat { |cost| }

    /** The transposed matrix: one column per row. */
    function Transposed(): (m: Model)
      requires Valid()
      ensures m.Valid() && m.numRows == |cost| && m.cols == rows
    {
      Model(|cost|, rows, Zeros(|rows|), 0.0, false, rowLower, rowUpper, lower, upper, [])
    }
  }

  /** A x */
  function Activities(p: Lp, x: seq<real>): (a: seq<real>)
    requires p.Valid() && |x| == p.NumCols()
    ensures |a| == |p.rows|
    ensures forall i :: 0 <= i < |a| ==> a[i] == ColDot(p.rows[i], x)
  {
    TransposeTimes(p.Transposed(), x)
  }

  /** A'y, accumulated row by row. */
  function Pulled(p: Lp, y: seq<real>): (r: seq<real>)
    requires p.Valid() && |y| == |p.rows|
    ensures |r| == p.NumCols()
  {
    Times(p.Transposed(), y)
  }

  lemma PulledUnfolds(p: Lp, y: seq<real>)
    requires p.Valid() && |y| == |p.rows|
    ensures Pulled(p, y) == TimesTo(p.Transposed(), y, |y|)
  {
  }

  function Objective(p: Lp, x: seq<real>): real
    requires p.Valid() && |x| == p.NumCols()
  {
    Dot(p.cost, x)
  }

  ghost predicate Feasible(p: Lp, x: seq<real>)
    requires p.Valid()
  {
    && |x| == p.NumCols()
    && Kkt.AllWithin(p.lower, x, p.upper)
    && Kkt.AllWithin(p.rowLower, Activities(p, x), p.rowUpper)
  }

  ghost predicate IsOptimal(p: Lp, x: seq<real>)
    requires p.Valid()
  {
    Feasible(p, x) && forall z :: Feasible(p, z) ==> Objective(p, x) <= Objective(p, z)
  }

  /** c - A'y */
  function Reduced(p: Lp, y: seq<real>): (d: seq<real>)
    requires p.Valid() && |y| == |p.rows|
    ensures |d| == p.NumCols()
    ensures forall j :: 0 <= j < |d| ==> d[j] == p.cost[j] - Pulled(p, y)[j]
  {
    seq(p.NumCols(), j requires 0 <= j < p.NumCols() => p.cost[j] - Pulled(p, y)[j])
  }

  /** A feasible point whose row prices and reduced costs are each tight where nonzero. */
  ghost predicate KktHolds(p: Lp, x: seq<real>, y: seq<real>)
    requires p.Valid()
  {
    && Feasible(p, x) && |y| == |p.rows|
    && Kkt.AllTight(y, Activities(p, x), p.rowLower, p.rowUpper)
    && Kkt.AllTight(Reduced(p, y), x, p.lower, p.upper)
  }

  /** The cost of any point, split over the reduced costs and the row prices. */
  lemma CostSplits(p: Lp, y: seq<real>, z: seq<real>)
    requires p.Valid() && |y| == |p.rows| && |z| == p.NumCols()
    ensures Objective(p, z) == Dot(Reduced(p, y), z) + Dot(y, Activities(p, z))
  {
    hide Mul, Times, TransposeTimes;
    SumSwap(p.Transposed(), z, y);
    DotToCommutes(y, Activities(p, z), |y|);
    DotToCommutes(z, Pulled(p, y), |z|);
    DotAdd(Reduced(p, y), Pulled(p, y), p.cost, z, |z|);
  }

  lemma {:induction false} DotAdd(a: seq<real>, b: seq<real>, c: seq<real>, z: seq<real>, k: nat)
    requires |a| == |b| == |c| == |z| && k <= |z| && forall i :: 0 <= i < k ==> a[i] == c[i] - b[i]
    ensures DotTo(c, z, k) == DotTo(a, z, k) + DotTo(b, z, k)
  {
    if k > 0 {
      DotAdd(a, b, c, z, k - 1);
      AddProducts(a[k - 1], b[k - 1], c[k - 1], z[k - 1]);
    }
  }

  lemma AddProducts(a: real, b: real, c: real, z: real)
    requires a == c - b
    ensures Mul(c, z) == Mul(a, z) + Mul(b, z)
  {
  }

  /** An LP built around a point with tight prices has that point as an optimum. */
  lemma KktIsOptimal(p: Lp, x: seq<real>, y: seq<real>)
    requires p.Valid() && KktHolds(p, x, y)
    ensures IsOptimal(p, x)
  {
    hide Objective, Activities, Reduced, Dot;
    var d := Reduced(p, y);
    CostSplits(p, y, x);
    Kkt.TightHasNoGap(y, Activities(p, x), p.rowLower, p.rowUpper);
    Kkt.TightHasNoGap(d, x, p.lower, p.upper);
    Kkt.PricedGapsSum(y, Activities(p, x), p.rowLower, p.rowUpper);
    Kkt.PricedGapsSum(d, x, p.lower, p.upper);
    forall z | Feasible(p, z) ensures Objective(p, x) <= Objective(p, z) {
      CostSplits(p, y, z);
      Kkt.PricedGapsNonneg(y, Activities(p, z), p.rowLower, p.rowUpper);
      Kkt.PricedGapsNonneg(d, z, p.lower, p.upper);
      Kkt.PricedGapsSum(y, Activities(p, z), p.rowLower, p.rowUpper);
      Kkt.PricedGapsSum(d, z, p.lower, p.upper);
    }
  }

  // ---- Appending to a row and to the program --------------------------------------------

  lemma {:induction false} ColDotPrefix(a: seq<Entry>, b: seq<Entry>, y: seq<real>, k: nat)
    requires k <= |a| && a <= b && ValidColumn(b, |y|)
    ensures ColDotTo(a, y, k) == ColDotTo(b, y, k)
  {
    if k > 0 { ColDotPrefix(a, b, y, k - 1); }
  }

  lemma ColDotAppend(col: seq<Entry>, e: Entry, y: seq<real>)
    requires ValidColumn(col, |y|) && e.row < |y|
    ensures ColDot(col + [e], y) == ColDot(col, y) + Term(e, y)
  {
    ColDotPrefix(col, col + [e], y, |col|);
  }

  lemma {:induction false} ColDotConcat(a: seq<Entry>, b: seq<Entry>, y: seq<real>)
    requires ValidColumn(a, |y|) && ValidColumn(b, |y|)
    ensures ColDot(a + b, y) == ColDot(a, y) + ColDot(b, y)
    decreases |b|
  {
    if b == [] {
      assert a + b == a;
    } else {
      var front, last := b[..|b| - 1], b[|b| - 1];
      assert a + b == (a + front) + [last] && b == front + [last];
      ColDotConcat(a, front, y);
      ColDotAppend(a + front, last, y);
      ColDotAppend(front, last, y);
    }
  }

  lemma {:induction false} AddColumnPrefix(out: seq<real>, a: seq<Entry>, b: seq<Entry>, t: real, k: nat)
    requires k <= |a| && a <= b && ValidColumn(b, |out|)
    ensures AddColumnTo(out, a, t, k) == AddColumnTo(out, b, t, k)
  {
    if k > 0 { AddColumnPrefix(out, a, b, t, k - 1); }
  }

  lemma AddColumnAppend(out: seq<real>, col: seq<Entry>, e: Entry, t: real)
    requires ValidColumn(col, |out|) && e.row < |out|
    ensures AddColumnTo(out, col + [e], t, |col| + 1) == AddEntry(AddColumnTo(out, col, t, |col|), e, t)
  {
    AddColumnPrefix(out, col, col + [e], t, |col|);
  }

  function AppendRow(p: Lp, entries: seq<Entry>, lo: Bound, hi: Bound): (q: Lp)
    requires p.Valid() && ValidColumn(entries, p.NumCols())
    ensures q.Valid() && q.NumCols() == p.NumCols()
  {
    p.(rows := p.rows + [entries], rowLower := p.rowLower + [lo], rowUpper := p.rowUpper + [hi])
  }

  /** One more row is one more condition, and the objective does not see it. */
  lemma AppendedRow(p: Lp, entries: seq<Entry>, lo: Bound, hi: Bound, x: seq<real>)
    requires p.Valid() && ValidColumn(entries, p.NumCols()) && |x| == p.NumCols()
    ensures var q := AppendRow(p, entries, lo, hi);
      && Activities(q, x) == Activities(p, x) + [ColDot(entries, x)]
      && (Feasible(q, x) <==> (Feasible(p, x) && Within(lo, ColDot(entries, x), hi)))
      && Objective(q, x) == Objective(p, x)
  {
    var q := AppendRow(p, entries, lo, hi);
    assert Activities(q, x) == Activities(p, x) + [ColDot(entries, x)];
    if Feasible(q, x) {
      forall i | 0 <= i < |p.rows| ensures Within(p.rowLower[i], Activities(p, x)[i], p.rowUpper[i]) {
        assert Within(q.rowLower[i], Activities(q, x)[i], q.rowUpper[i]);
      }
      assert Within(q.rowLower[|p.rows|], Activities(q, x)[|p.rows|], q.rowUpper[|p.rows|]);
    }
  }
}
