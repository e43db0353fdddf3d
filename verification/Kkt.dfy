/** Signs, prices and slacks: the pieces of the optimality conditions, and the duality
    argument they support, for linear and convex quadratic objectives. */
module Kkt {
  import opened Vectors
  import opened LpModel
  import opened Quadratic

  /** The gradient of the objective, in minimise space. */
  function Cost(m: Model, x: seq<real>): (r: seq<real>)
    requires m.Valid() && |x| == |m.cols|
    ensures |r| == |x|
  {
    seq(|x|, j requires 0 <= j < |x| => m.Sense() * (m.colCost[j] + HessianTimes(m, x)[j]))
  }

  /** d = c + Qx - A'y, in minimise space. */
  function ReducedCosts(m: Model, x: seq<real>, y: seq<real>): (r: seq<real>)
    requires m.Valid() && |x| == |m.cols| && |y| == m.numRows
    ensures |r| == |x|
  {
    seq(|x|, j requires 0 <= j < |x| => Cost(m, x)[j] - ColDot(m.cols[j], y))
  }

  // ---- The dual objective -------------------------------------------------------------

  function Contributions(mult: seq<real>, lo: seq<Bound>, hi: seq<Bound>): (r: seq<real>)
    requires |mult| == |lo| == |hi|
    ensures |r| == |mult|
    ensures forall i :: 0 <= i < |mult| ==> r[i] == BoundContribution(mult[i], lo[i], hi[i])
  {
    seq(|mult|, i requires 0 <= i < |mult| => BoundContribution(mult[i], lo[i], hi[i]))
  }

  /** The Lagrangian bound of row prices y and reduced costs d, in minimise space. */
  function DualInMinimiseSpace(m: Model, y: seq<real>, d: seq<real>): real
    requires m.Valid() && |y| == m.numRows && |d| == |m.cols|
  {
    Sum(Contributions(y, m.rowLower, m.rowUpper)) + Sum(Contributions(d, m.colLower, m.colUpper))
  }

  /** The dual objective in the model's sense. Subtracting x'Qx/2 makes it the Dorn dual. */
  function DualObjective(m: Model, x: seq<real>, y: seq<real>, d: seq<real>): real
    requires m.Valid() && |x| == |d| == |m.cols| && |y| == m.numRows
  {
    m.Sense() * DualInMinimiseSpace(m, y, d) + m.offset - QuadraticObjective(m, x)
  }

  predicate AllPriced(mult: seq<real>, lo: seq<Bound>, hi: seq<Bound>)
    requires |mult| == |lo| == |hi|
  {
    forall i :: 0 <= i < |mult| ==> PricesRealBound(mult[i], lo[i], hi[i])
  }

  predicate AllWithin(lo: seq<Bound>, v: seq<real>, hi: seq<Bound>)
    requires |lo| == |v| == |hi|
  {
    forall i :: 0 <= i < |v| ==> Within(lo[i], v[i], hi[i])
  }

  /** How much of mult*value lies beyond the contribution of the priced bound. */
  function PricedGap(mult: real, v: real, lo: Bound, hi: Bound): real {
    mult * v - BoundContribution(mult, lo, hi)
  }

  function PricedGaps(mult: seq<real>, v: seq<real>, lo: seq<Bound>, hi: seq<Bound>): (r: seq<real>)
    requires |mult| == |v| == |lo| == |hi|
    ensures |r| == |v|
    ensures forall i :: 0 <= i < |v| ==> r[i] == PricedGap(mult[i], v[i], lo[i], hi[i])
  {
    seq(|v|, i requires 0 <= i < |v| => PricedGap(mult[i], v[i], lo[i], hi[i]))
  }

  lemma {:induction false} SumPricedGaps(mult: seq<real>, v: seq<real>, lo: seq<Bound>, hi: seq<Bound>, k: nat)
    requires |mult| == |v| == |lo| == |hi| && k <= |v|
    ensures SumTo(PricedGaps(mult, v, lo, hi), k) == DotTo(mult, v, k) - SumTo(Contributions(mult, lo, hi), k)
  {
    if k > 0 { SumPricedGaps(mult, v, lo, hi, k - 1); }
  }

  lemma PricedGapsSum(mult: seq<real>, v: seq<real>, lo: seq<Bound>, hi: seq<Bound>)
    requires |mult| == |v| == |lo| == |hi|
    ensures Sum(PricedGaps(mult, v, lo, hi)) == Dot(mult, v) - Sum(Contributions(mult, lo, hi))
  {
    SumPricedGaps(mult, v, lo, hi, |v|);
  }

  lemma PricedGapsNonneg(mult: seq<real>, v: seq<real>, lo: seq<Bound>, hi: seq<Bound>)
    requires |mult| == |v| == |lo| == |hi| && AllPriced(mult, lo, hi) && AllWithin(lo, v, hi)
    ensures Sum(PricedGaps(mult, v, lo, hi)) >= 0.0
  {
    forall i | 0 <= i < |v| ensures PricedGaps(mult, v, lo, hi)[i] >= 0.0 {
      ContributionIsLowerBound(mult[i], lo[i], v[i], hi[i]);
    }
    SumToNonneg(PricedGaps(mult, v, lo, hi), |v|);
  }

  // ---- Weak duality -------------------------------------------------------------------

  /** The gradient times any point, split over reduced costs and row prices. */
  lemma GradientSplits(m: Model, x: seq<real>, y: seq<real>, z: seq<real>)
    requires m.Valid() && |x| == |z| == |m.cols| && |y| == m.numRows
    ensures m.Sense() * (Dot(m.colCost, z) + Form(m, z, x)) == Dot(ReducedCosts(m, x, y), z) + Dot(y, Times(m, z))
  {
    SumSwap(m, y, z);
    DotHessianTimes(m, z, x);
    GradientSplitsTo(m, x, y, z, |z|);
    DotToCommutes(z, HessianTimes(m, x), |z|);
  }

  lemma ReducedCostAt(m: Model, x: seq<real>, y: seq<real>, j: nat)
    requires m.Valid() && |x| == |m.cols| && |y| == m.numRows && j < |x|
    ensures ReducedCosts(m, x, y)[j]
            == m.Sense() * (m.colCost[j] + HessianTimes(m, x)[j]) - TransposeTimes(m, y)[j]
  {
  }

  lemma {:induction false} GradientSplitsTo(m: Model, x: seq<real>, y: seq<real>, z: seq<real>, k: nat)
    requires m.Valid() && |x| == |z| == |m.cols| && |y| == m.numRows && k <= |z|
    ensures m.Sense() * (DotTo(m.colCost, z, k) + DotTo(HessianTimes(m, x), z, k))
            == DotTo(ReducedCosts(m, x, y), z, k) + DotTo(TransposeTimes(m, y), z, k)
  {
    hide Mul, ReducedCosts, HessianTimes, TransposeTimes;
    if k > 0 {
      GradientSplitsTo(m, x, y, z, k - 1);
      ReducedCostAt(m, x, y, k - 1);
      SplitTerm(m.Sense(), m.colCost[k - 1], HessianTimes(m, x)[k - 1], TransposeTimes(m, y)[k - 1],
                ReducedCosts(m, x, y)[k - 1], z[k - 1],
                DotTo(m.colCost, z, k - 1) + DotTo(HessianTimes(m, x), z, k - 1),
                DotTo(m.colCost, z, k) + DotTo(HessianTimes(m, x), z, k),
                DotTo(ReducedCosts(m, x, y), z, k - 1) + DotTo(TransposeTimes(m, y), z, k - 1));
    }
  }

  lemma SplitTerm(s: real, c: real, q: real, a: real, rc: real, z: real, before: real, after: real, sum: real)
    requires s == 1.0 || s == -1.0
    requires rc == s * (c + q) - a
    requires after == before + Mul(c, z) + Mul(q, z) && s * before == sum
    ensures s * after == sum + Mul(rc, z) + Mul(a, z)
  {
  }

  /** The gap between primal and dual is the sum of the priced gaps: no other term is left over
      when d is exactly c + Qx - A'y. */
  lemma GapIdentity(m: Model, x: seq<real>, y: seq<real>)
    requires m.Valid() && |x| == |m.cols| && |y| == m.numRows
    ensures var d := ReducedCosts(m, x, y);
      MinimiseObjective(m, x) - m.Sense() * DualObjective(m, x, y, d)
      == Sum(PricedGaps(y, Times(m, x), m.rowLower, m.rowUpper)) + Sum(PricedGaps(d, x, m.colLower, m.colUpper))
  {
    hide Form, Times, PricedGaps, ReducedCosts, Contributions;
    var d := ReducedCosts(m, x, y);
    GradientSplits(m, x, y, x);
    PricedGapsSum(y, Times(m, x), m.rowLower, m.rowUpper);
    PricedGapsSum(d, x, m.colLower, m.colUpper);
    SenseSquared(m, m.offset, Dot(m.colCost, x), Form(m, x, x), DualInMinimiseSpace(m, y, d));
  }

  lemma SenseSquared(m: Model, offset: real, cx: real, q: real, dual: real)
    ensures var s := m.Sense();
      s * (offset + cx + 0.5 * q) - s * (s * dual + offset - 0.5 * q) == s * (cx + q) - dual
  {
  }

  /** A convex objective lies above its tangent at x. */
  lemma AboveTangent(m: Model, x: seq<real>, z: seq<real>)
    requires m.Valid() && |x| == |z| == |m.cols| && ConvexInMinimiseSpace(m)
    ensures MinimiseObjective(m, z)
            >= m.Sense() * (m.offset - QuadraticObjective(m, x)) + m.Sense() * (Dot(m.colCost, z) + Form(m, z, x))
  {
    var w := Combine(1.0, z, -1.0, x);
    FormExpand(m, z, -1.0, x);
    assert m.Sense() * Form(m, w, w) >= 0.0;
    TangentArithmetic(m.Sense(), m.offset, Dot(m.colCost, z), Form(m, z, z), Form(m, z, x), Form(m, x, x),
        Form(m, w, w));
  }

  lemma TangentArithmetic(s: real, offset: real, cz: real, zz: real, zx: real, xx: real, ww: real)
    requires s == 1.0 || s == -1.0
    requires ww == zz + 2.0 * -1.0 * zx + -1.0 * -1.0 * xx && s * ww >= 0.0
    ensures s * (offset + cz + 0.5 * zz) >= s * (offset - 0.5 * xx) + s * (cz + zx)
  {
  }

  /** Correctly signed prices: the Lagrangian at a feasible point is at least the dual. */
  lemma LagrangianBound(m: Model, y: seq<real>, d: seq<real>, z: seq<real>)
    requires m.Valid() && |d| == |m.cols| && |y| == m.numRows && Feasible(m, z)
    requires AllPriced(y, m.rowLower, m.rowUpper) && AllPriced(d, m.colLower, m.colUpper)
    ensures Dot(d, z) + Dot(y, Times(m, z)) >= DualInMinimiseSpace(m, y, d)
  {
    PricedGapsNonneg(y, Times(m, z), m.rowLower, m.rowUpper);
    PricedGapsNonneg(d, z, m.colLower, m.colUpper);
    PricedGapsSum(y, Times(m, z), m.rowLower, m.rowUpper);
    PricedGapsSum(d, z, m.colLower, m.colUpper);
  }

  lemma SenseOfDual(s: real, dual: real, offset: real, q: real)
    requires s == 1.0 || s == -1.0
    ensures s * (s * dual + offset - q) == dual + s * (offset - q)
  {
  }

  /** Weak duality: correctly signed prices bound every feasible point's objective. */
  lemma WeakDuality(m: Model, x: seq<real>, y: seq<real>, z: seq<real>)
    requires m.Valid() && |x| == |m.cols| && |y| == m.numRows && ConvexInMinimiseSpace(m) && Feasible(m, z)
    requires AllPriced(y, m.rowLower, m.rowUpper) && AllPriced(ReducedCosts(m, x, y), m.colLower, m.colUpper)
    ensures MinimiseObjective(m, z) >= m.Sense() * DualObjective(m, x, y, ReducedCosts(m, x, y))
  {
    hide Form, DualInMinimiseSpace, Times, ReducedCosts, Objective, QuadraticObjective;
    var d := ReducedCosts(m, x, y);
    AboveTangent(m, x, z);
    GradientSplits(m, x, y, z);
    LagrangianBound(m, y, d, z);
    SenseOfDual(m.Sense(), DualInMinimiseSpace(m, y, d), m.offset, QuadraticObjective(m, x));
  }

  /** The optimality conditions of a known primal-dual pair: x is feasible, every price leans on
      a bound that exists, and each price is zero unless that bound is tight. */
  ghost predicate KktHolds(m: Model, x: seq<real>, y: seq<real>)
    requires m.Valid()
  {
    && Feasible(m, x) && |y| == m.numRows
    && AllTight(y, Times(m, x), m.rowLower, m.rowUpper)
    && AllTight(ReducedCosts(m, x, y), x, m.colLower, m.colUpper)
  }

  predicate Tight(mult: real, v: real, lo: Bound, hi: Bound) {
    (mult > 0.0 ==> lo == Fin(v)) && (mult < 0.0 ==> hi == Fin(v))
  }

  predicate AllTight(mult: seq<real>, v: seq<real>, lo: seq<Bound>, hi: seq<Bound>)
    requires |mult| == |v| == |lo| == |hi|
  {
    forall i :: 0 <= i < |v| ==> Tight(mult[i], v[i], lo[i], hi[i])
  }

  lemma TightHasNoGap(mult: seq<real>, v: seq<real>, lo: seq<Bound>, hi: seq<Bound>)
    requires |mult| == |v| == |lo| == |hi| && AllTight(mult, v, lo, hi)
    ensures AllPriced(mult, lo, hi) && Sum(PricedGaps(mult, v, lo, hi)) == 0.0
  {
    forall i | 0 <= i < |v| ensures PricesRealBound(mult[i], lo[i], hi[i]) && PricedGaps(mult, v, lo, hi)[i] == 0.0 {
      assert Tight(mult[i], v[i], lo[i], hi[i]);
    }
    SumToZero(PricedGaps(mult, v, lo, hi), |v|);
  }

  /** A point with tight prices is optimal, in either sense, for a linear or convex objective. */
  lemma KktIsOptimal(m: Model, x: seq<real>, y: seq<real>)
    requires m.Valid() && KktHolds(m, x, y) && ConvexInMinimiseSpace(m)
    ensures IsOptimal(m, x)
  {
    TightHasNoGap(y, Times(m, x), m.rowLower, m.rowUpper);
    TightHasNoGap(ReducedCosts(m, x, y), x, m.colLower, m.colUpper);
    GapIdentity(m, x, y);
    forall z | Feasible(m, z) ensures MinimiseObjective(m, x) <= MinimiseObjective(m, z) { WeakDuality(m, x, y, z); }
  }

  /** A linear objective is convex. */
  lemma LinearIsConvex(m: Model)
    requires m.Valid() && m.hessian == []
    ensures ConvexInMinimiseSpace(m)
  {
  }
}
