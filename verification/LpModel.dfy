/** The model every checker reads: minimise or maximise  offset + c.x + x'Qx/2  subject to
    rowLower <= A x <= rowUpper and colLower <= x <= colUpper. The matrix is a list of
    columns, each a list of (row, value) entries, and A x is accumulated entry by entry. */
module LpModel {
  import opened Vectors

  /** A bound as the source stores it in a double: -inf, a finite value or +inf. */
  datatype Bound = NegInf | Fin(v: real) | PosInf

  predicate AboveLower(lo: Bound, v: real) { lo.NegInf? || (lo.Fin? && lo.v <= v) }

  predicate BelowUpper(hi: Bound, v: real) { hi.PosInf? || (hi.Fin? && v <= hi.v) }

  predicate Within(lo: Bound, v: real, hi: Bound) { AboveLower(lo, v) && BelowUpper(hi, v) }

  const MPS_INFINITY: real := 1000000000000000000000000000000.0

  /** A usable bound. Magnitudes of 1e30 and more mean infinity. */
  predicate IsFiniteBound(b: Bound) { b.Fin? && -MPS_INFINITY < b.v < MPS_INFINITY }

  datatype Entry = Entry(row: nat, val: real)

  /** One stored entry of the Hessian's lower triangle: row >= col. */
  datatype HessianEntry = HessianEntry(row: nat, col: nat, val: real)

  datatype Model = Model(
    numRows: nat,
    cols: seq<seq<Entry>>,
    colCost: seq<real>,
    offset: real,
    maximize: bool,
    colLower: seq<Bound>,
    colUpper: seq<Bound>,
    rowLower: seq<Bound>,
    rowUpper: seq<Bound>,
    hessian: seq<HessianEntry>)
  {
    function NumCols(): nat { |cols| }

    predicate Valid() {
      && |colCost| == |colLower| == |colUpper| == |cols|
      && |rowLower| == |rowUpper| == numRows
      && (forall j :: 0 <= j < |cols| ==> ValidColumn(cols[j], numRows))
      && (forall k :: 0 <= k < |hessian| ==> hessian[k].col <= hessian[k].row < |cols|)
    }

    /** -1 for a maximisation, so that sense * objective is always to be minimised. */
    function Sense(): real { if maximize then -1.0 else 1.0 }
  }

  predicate ValidColumn(col: seq<Entry>, numRows: nat) {
    forall k :: 0 <= k < |col| ==> col[k].row < numRows
  }

  /** Readers turn every bound of magnitude 1e30 or more into an infinity. */
  predicate NormalisedColumns(m: Model)
    requires m.Valid()
  {
    forall j :: 0 <= j < |m.cols| ==>
      (m.colLower[j].Fin? ==> IsFiniteBound(m.colLower[j])) && (m.colUpper[j].Fin? ==> IsFiniteBound(m.colUpper[j]))
  }

  // ---- A'y and A x --------------------------------------------------------------------

  /** One entry's term of a_j.y */
  function Term(e: Entry, y: seq<real>): real
    requires e.row < |y|
  {
    Mul(e.val, y[e.row])
  }

  /** The first k terms of a column's product with y. */
  function ColDotTo(col: seq<Entry>, y: seq<real>, k: nat): real
    requires k <= |col| && ValidColumn(col, |y|)
  {
    if k == 0 then 0.0 else ColDotTo(col, y, k - 1) + Term(col[k - 1], y)
  }

  function ColDot(col: seq<Entry>, y: seq<real>): real
    requires ValidColumn(col, |y|)
  {
    ColDotTo(col, y, |col|)
  }

  /** A'y */
  function TransposeTimes(m: Model, y: seq<real>): (d: seq<real>)
    requires m.Valid() && |y| == m.numRows
    ensures |d| == |m.cols|
    ensures forall j :: 0 <= j < |d| ==> d[j] == ColDot(m.cols[j], y)
  {
    seq(|m.cols|, j requires 0 <= j < |m.cols| => ColDot(m.cols[j], y))
  }

  /** The product of one list of entries with a point, entry by entry. */
  method EvaluateRow(entries: seq<Entry>, x: seq<real>) returns (sum: real)
    requires ValidColumn(entries, |x|)
    ensures sum == ColDot(entries, x)
  {
    sum := 0.0;
    for k := 0 to |entries|
      invariant sum == ColDotTo(entries, x, k)
    {
      sum := sum + Term(entries[k], x);
    }
  }

  /** What the first k entries of a list add up to at one index. */
  function Coefficient(entries: seq<Entry>, i: nat, k: nat): real
    requires k <= |entries|
  {
    if k == 0 then 0.0
    else Coefficient(entries, i, k - 1) + if entries[k - 1].row == i then entries[k - 1].val else 0.0
  }

  /** `out` with one entry, times xj, added to its row. */
  function AddEntry(out: seq<real>, e: Entry, xj: real): (r: seq<real>)
    requires e.row < |out|
    ensures |r| == |out|
  {
    out[e.row := out[e.row] + Mul(e.val, xj)]
  }

  /** `out` after the first k entries of a column, each times xj, have been added to it. */
  function AddColumnTo(out: seq<real>, col: seq<Entry>, xj: real, k: nat): (r: seq<real>)
    requires k <= |col| && ValidColumn(col, |out|)
    ensures |r| == |out|
  {
    if k == 0 then out
    else
      var prev := AddColumnTo(out, col, xj, k - 1);
      AddEntry(prev, col[k - 1], xj)
  }

  /** A x restricted to the first j columns. */
  function TimesTo(m: Model, x: seq<real>, j: nat): (r: seq<real>)
    requires m.Valid() && |x| == |m.cols| && j <= |x|
    ensures |r| == m.numRows
  {
    if j == 0 then Zeros(m.numRows)
    else AddColumnTo(TimesTo(m, x, j - 1), m.cols[j - 1], x[j - 1], |m.cols[j - 1]|)
  }

  /** A x */
  function Times(m: Model, x: seq<real>): (r: seq<real>)
    requires m.Valid() && |x| == |m.cols|
    ensures |r| == m.numRows
  {
    TimesTo(m, x, |x|)
  }

  /** A x reads only the columns. */
  lemma SameProducts(m: Model, q: Model, x: seq<real>)
    requires m.Valid() && q.Valid() && m.numRows == q.numRows && m.cols == q.cols && |x| == |m.cols|
    ensures Times(m, x) == Times(q, x)
  {
    SameProductsTo(m, q, x, |x|);
  }

  lemma {:induction false} SameProductsTo(m: Model, q: Model, x: seq<real>, j: nat)
    requires m.Valid() && q.Valid() && m.numRows == q.numRows && m.cols == q.cols && |x| == |m.cols| && j <= |x|
    ensures TimesTo(m, x, j) == TimesTo(q, x, j)
  {
    if j > 0 { SameProductsTo(m, q, x, j - 1); }
  }

  /** Adding a column at zero changes nothing, so a loop may skip it. */
  lemma {:induction false} AddNothing(out: seq<real>, col: seq<Entry>, k: nat)
    requires k <= |col| && ValidColumn(col, |out|)
    ensures AddColumnTo(out, col, 0.0, k) == out
  {
    if k > 0 { AddNothing(out, col, k - 1); }
  }

  lemma TermTimes(sum: real, v: real, y: real, xj: real)
    ensures Mul(sum + Mul(v, y), xj) == Mul(sum, xj) + y * Mul(v, xj)
  {
  }

  lemma {:induction false} DotAddColumn(y: seq<real>, out: seq<real>, col: seq<Entry>, xj: real, k: nat)
    requires |y| == |out| && k <= |col| && ValidColumn(col, |out|)
    ensures Dot(y, AddColumnTo(out, col, xj, k)) == Dot(y, out) + Mul(ColDotTo(col, y, k), xj)
  {
    if k > 0 {
      DotAddColumn(y, out, col, xj, k - 1);
      var prev, e := AddColumnTo(out, col, xj, k - 1), col[k - 1];
      DotToUpdate(y, prev, e.row, Mul(e.val, xj), |y|);
      TermTimes(ColDotTo(col, y, k - 1), e.val, y[e.row], xj);
    }
  }

  lemma {:induction false} DotTimesTo(m: Model, y: seq<real>, x: seq<real>, j: nat)
    requires m.Valid() && |y| == m.numRows && |x| == |m.cols| && j <= |x|
    ensures Dot(y, TimesTo(m, x, j)) == DotTo(TransposeTimes(m, y), x, j)
  {
    if j == 0 {
      DotToZero(y, Zeros(m.numRows), |y|);
    } else {
      DotTimesTo(m, y, x, j - 1);
      DotAddColumn(y, TimesTo(m, x, j - 1), m.cols[j - 1], x[j - 1], |m.cols[j - 1]|);
    }
  }

  /** The exchange of summation behind every duality argument: y.(A x) = (A'y).x */
  lemma SumSwap(m: Model, y: seq<real>, x: seq<real>)
    requires m.Valid() && |y| == m.numRows && |x| == |m.cols|
    ensures Dot(y, Times(m, x)) == Dot(TransposeTimes(m, y), x)
  {
    DotTimesTo(m, y, x, |x|);
  }

  /** w = s*u + t*v, entry by entry. */
  predicate Combines(w: seq<real>, s: real, u: seq<real>, t: real, v: seq<real>) {
    |u| == |v| == |w| && forall i :: 0 <= i < |w| ==> w[i] == s * u[i] + t * v[i]
  }

  /** Linearity of the accumulated product: A(s*u + t*v) = s*A u + t*A v. */
  lemma {:induction false} AddColumnLinear(a: seq<real>, b: seq<real>, c: seq<real>, col: seq<Entry>,
                                           xa: real, xb: real, xc: real, s: real, t: real, k: nat)
    requires |a| == |b| == |c| && k <= |col| && ValidColumn(col, |a|)
    requires Combines(c, s, a, t, b) && xc == s * xa + t * xb
    ensures Combines(AddColumnTo(c, col, xc, k), s, AddColumnTo(a, col, xa, k), t, AddColumnTo(b, col, xb, k))
  {
    hide AddEntry, Combines;
    if k > 0 {
      AddColumnLinear(a, b, c, col, xa, xb, xc, s, t, k - 1);
      AddEntryLinear(AddColumnTo(a, col, xa, k - 1), AddColumnTo(b, col, xb, k - 1), AddColumnTo(c, col, xc, k - 1),
                     col[k - 1], xa, xb, xc, s, t);
    }
  }

  lemma AddEntryLinear(a: seq<real>, b: seq<real>, c: seq<real>, e: Entry,
                       xa: real, xb: real, xc: real, s: real, t: real)
    requires |a| == |b| == |c| && e.row < |a| && xc == s * xa + t * xb
    requires Combines(c, s, a, t, b)
    ensures Combines(AddEntry(c, e, xc), s, AddEntry(a, e, xa), t, AddEntry(b, e, xb))
  {
    hide Mul;
    AddTermLinear(a[e.row], b[e.row], c[e.row], e.val, xa, xb, xc, s, t);
  }

  lemma AddTermLinear(a: real, b: real, c: real, v: real, xa: real, xb: real, xc: real, s: real, t: real)
    requires xc == s * xa + t * xb && c == s * a + t * b
    ensures c + Mul(v, xc) == s * (a + Mul(v, xa)) + t * (b + Mul(v, xb))
  {
    Distribute(v, s * xa, t * xb);
    Distribute(s, a, v * xa);
    Distribute(t, b, v * xb);
    assert v * (s * xa) == s * (v * xa) && v * (t * xb) == t * (v * xb);
  }

  lemma {:induction false} TimesToLinear(m: Model, u: seq<real>, v: seq<real>, w: seq<real>, s: real, t: real, j: nat)
    requires m.Valid() && |u| == |v| == |w| == |m.cols| && j <= |u|
    requires Combines(w, s, u, t, v)
    ensures Combines(TimesTo(m, w, j), s, TimesTo(m, u, j), t, TimesTo(m, v, j))
  {
    CombinesAt(w, s, u, t, v, j);
    hide AddColumnTo, Combines;
    if j == 0 {
      CombinesZeros(m.numRows, s, t);
    } else {
      TimesToLinear(m, u, v, w, s, t, j - 1);
      AddColumnLinear(TimesTo(m, u, j - 1), TimesTo(m, v, j - 1), TimesTo(m, w, j - 1),
                      m.cols[j - 1], u[j - 1], v[j - 1], w[j - 1], s, t, |m.cols[j - 1]|);
    }
  }

  lemma CombinesAt(w: seq<real>, s: real, u: seq<real>, t: real, v: seq<real>, j: nat)
    requires Combines(w, s, u, t, v)
    ensures 0 < j <= |w| ==> w[j - 1] == s * u[j - 1] + t * v[j - 1]
  {
  }

  lemma CombinesZeros(n: nat, s: real, t: real)
    ensures Combines(Zeros(n), s, Zeros(n), t, Zeros(n))
  {
  }

  lemma TimesCombine(m: Model, s: real, u: seq<real>, t: real, v: seq<real>, i: nat)
    requires m.Valid() && |u| == |v| == |m.cols| && i < m.numRows
    ensures Times(m, Combine(s, u, t, v))[i] == s * Times(m, u)[i] + t * Times(m, v)[i]
  {
    TimesToLinear(m, u, v, Combine(s, u, t, v), s, t, |u|);
  }

  // ---- Feasibility --------------------------------------------------------------------

  ghost predicate InBox(m: Model, x: seq<real>)
    requires m.Valid()
  {
    |x| == |m.cols| && forall j :: 0 <= j < |x| ==> Within(m.colLower[j], x[j], m.colUpper[j])
  }

  ghost predicate Feasible(m: Model, x: seq<real>)
    requires m.Valid()
  {
    && InBox(m, x)
    && forall i :: 0 <= i < m.numRows ==> Within(m.rowLower[i], Times(m, x)[i], m.rowUpper[i])
  }

  ghost predicate Infeasible(m: Model)
    requires m.Valid()
  {
    forall x :: !Feasible(m, x)
  }

  // ---- The dual objective's terms -----------------------------------------------------

  /** What a multiplier contributes to the dual objective: a positive one prices the lower
      bound, a negative one the upper; a bound that does not exist contributes nothing. */
  function BoundContribution(multiplier: real, lo: Bound, hi: Bound): real {
    if multiplier > 0.0 && lo.Fin? then multiplier * lo.v
    else if multiplier < 0.0 && hi.Fin? then multiplier * hi.v
    else 0.0
  }

  /** A multiplier leans only on a bound that exists. */
  predicate PricesRealBound(multiplier: real, lo: Bound, hi: Bound) {
    (multiplier > 0.0 ==> lo.Fin?) && (multiplier < 0.0 ==> hi.Fin?)
  }

  /** A value inside its bounds, times a multiplier, is at least the multiplier's contribution. */
  lemma ContributionIsLowerBound(multiplier: real, lo: Bound, value: real, hi: Bound)
    requires PricesRealBound(multiplier, lo, hi) && Within(lo, value, hi)
    ensures BoundContribution(multiplier, lo, hi) <= multiplier * value
  {
    if multiplier > 0.0 {
      MulLe(multiplier, lo.v, value);
    } else if multiplier < 0.0 {
      MulGe(multiplier, value, hi.v);
    }
  }
}
