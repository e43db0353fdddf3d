/** What the two tests of an infeasibility certificate say, without their scales and at any
    tolerance: which multipliers each accepts, and what the two sides of the aggregate are. */
module CertificateMeaning {
  import opened Vectors
  import opened LpModel
  import opened Scales
  import opened Farkas
  import opened Elements
  import opened CertificateChecks
  import opened IisChecks

  // ---- The scale ----------------------------------------------------------------------------------

  /** v is at most tol relative to some term of A'y. */
  ghost predicate SomeTermTolerates(m: Model, y: seq<real>, tol: real, v: real)
    requires m.Valid() && |y| == m.numRows
  {
    exists j, k :: 0 <= j < |m.cols| && 0 <= k < |m.cols[j]| && Tolerated(v, tol, Abs(Term(m.cols[j][k], y)))
  }

  /** Read as zero: at most tol, absolutely or relative to some term of A'y. */
  ghost predicate Negligible(m: Model, y: seq<real>, tol: real, v: real)
    requires m.Valid() && |y| == m.numRows
  {
    v <= tol || SomeTermTolerates(m, y, tol, v)
  }

  lemma {:induction false} TermsTolerate(m: Model, y: seq<real>, n: nat, from: real, tol: real, v: real)
    requires m.Valid() && |y| == m.numRows && n <= |m.cols| && tol >= 0.0
    ensures Tolerated(v, tol, ScaleTo(m, y, n, from)) <==>
      Tolerated(v, tol, from)
      || exists j, k :: 0 <= j < n && 0 <= k < |m.cols[j]| && Tolerated(v, tol, Abs(Term(m.cols[j][k], y)))
  {
    hide Tolerated, Abs, Term, ColumnScale;
    if n > 0 {
      TermsTolerate(m, y, n - 1, from, tol, v);
      ColumnScaleTolerates(m.cols[n - 1], y, |m.cols[n - 1]|, ScaleTo(m, y, n - 1, from), tol, v);
    }
  }

  lemma ScaleTolerates(m: Model, y: seq<real>, tol: real, v: real)
    requires m.Valid() && |y| == m.numRows && tol >= 0.0
    ensures Tolerated(v, tol, TermScale(m, y)) <==> v <= 0.0 || SomeTermTolerates(m, y, tol, v)
  {
    assert Tolerated(v, tol, 0.0) <==> v <= 0.0;
    hide Tolerated, Abs, Term, ScaleTo;
    TermsTolerate(m, y, |m.cols|, 0.0, tol, v);
  }

  lemma ZeroLevelMeans(m: Model, y: seq<real>, tol: real, v: real)
    requires m.Valid() && |y| == m.numRows && tol >= 0.0
    ensures v <= ZeroLevel(m, y, tol) <==> Negligible(m, y, tol, v)
  {
    MaxTolerates(tol, 1.0, TermScale(m, y), v);
    UnitTolerates(v, tol);
    assert v <= ZeroLevel(m, y, tol) <==> Tolerated(v, tol, Max(1.0, TermScale(m, y)));
    hide Tolerated, Max, TermScale, SomeTermTolerates;
    ScaleTolerates(m, y, tol, v);
  }

  // ---- The two sides of the aggregate ---------------------------------------------------------------

  /** b holds, for each row that is priced, the bound that it is priced at. */
  predicate PricedAt(m: Model, y: seq<real>, b: seq<real>)
    requires m.Valid() && |y| == m.numRows
  {
    |b| == |y| && forall i :: 0 <= i < |y| ==>
      (y[i] > 0.0 ==> m.rowLower[i] == Fin(b[i])) && (y[i] < 0.0 ==> m.rowUpper[i] == Fin(b[i]))
  }

  /** The required side is the price of the bounds the multipliers lean on. */
  lemma RequiredIsPrice(m: Model, y: seq<real>, b: seq<real>)
    requires m.Valid() && |y| == m.numRows && PricedAt(m, y, b)
    ensures RowsPriced(m, y) && Required(m, y) == Dot(y, b)
  {
    DotIsSum(y, b, |y|);
    forall i | 0 <= i < |y| ensures RowTerms(m, y)[i] == Products(y, b)[i] {
      if y[i] == 0.0 { MulZero(b[i]); }
    }
    assert RowTerms(m, y) == Products(y, b);
  }

  /** e keeps the coefficients that are not read as zero, and u the bound each of them prefers. */
  ghost predicate KeptAt(m: Model, y: seq<real>, tol: real, e: seq<real>, u: seq<real>)
    requires m.Valid() && |y| == m.numRows
  {
    var d := TransposeTimes(m, y);
    |e| == |u| == |d| && forall j :: 0 <= j < |d| ==>
      && (!Negligible(m, y, tol, d[j]) ==> e[j] == d[j] && m.colUpper[j] == Fin(u[j]))
      && (!Negligible(m, y, tol, -d[j]) ==> e[j] == d[j] && m.colLower[j] == Fin(u[j]))
      && (Negligible(m, y, tol, d[j]) && Negligible(m, y, tol, -d[j]) ==> e[j] == 0.0)
  }

  /** The reachable side is the value of the kept coefficients at the bounds they prefer. */
  lemma ReachableIsKept(m: Model, y: seq<real>, tol: real, e: seq<real>, u: seq<real>)
    requires m.Valid() && |y| == m.numRows && tol >= 0.0 && KeptAt(m, y, tol, e, u)
    ensures var d, zero := TransposeTimes(m, y), ZeroLevel(m, y, tol);
      ColumnsBounded(m, d, zero) && Reachable(m, d, zero) == Dot(e, u)
  {
    ZeroLevelNonneg(m, y, tol);
    hide ZeroLevel, Negligible;
    var d, zero := TransposeTimes(m, y), ZeroLevel(m, y, tol);
    forall j | 0 <= j < |d|
      ensures ReachTerms(m, d, zero)[j] == Products(e, u)[j]
        && ColumnBounded(d[j], m.colLower[j], m.colUpper[j], zero)
    {
      ZeroLevelMeans(m, y, tol, d[j]);
      ZeroLevelMeans(m, y, tol, -d[j]);
      if e[j] == 0.0 { MulZero(u[j]); }
    }
    DotIsSum(e, u, |d|);
    assert ReachTerms(m, d, zero) == Products(e, u);
  }

  lemma ZeroLevelNonneg(m: Model, y: seq<real>, tol: real)
    requires m.Valid() && |y| == m.numRows && tol >= 0.0
    ensures ZeroLevel(m, y, tol) >= 0.0
  {
    MulLe(tol, 0.0, Max(1.0, TermScale(m, y)));
  }

  // ---- What the tests say -----------------------------------------------------------------------------

  predicate IsCombination(y: seq<real>) { exists i :: 0 <= i < |y| && y[i] != 0.0 }

  /** No coefficient that is not read as zero can grow without limit in the column box. */
  ghost predicate AggregateBounded(m: Model, y: seq<real>, tol: real)
    requires m.Valid() && |y| == m.numRows
  {
    var d := TransposeTimes(m, y);
    forall j :: 0 <= j < |d| ==>
      (m.colUpper[j].Fin? || Negligible(m, y, tol, d[j])) && (m.colLower[j].Fin? || Negligible(m, y, tol, -d[j]))
  }

  lemma AggregateMeans(m: Model, y: seq<real>, tol: real)
    requires m.Valid() && |y| == m.numRows && tol >= 0.0
    ensures ColumnsBounded(m, TransposeTimes(m, y), ZeroLevel(m, y, tol)) <==> AggregateBounded(m, y, tol)
  {
    hide ZeroLevel, Negligible;
    var d := TransposeTimes(m, y);
    forall j | 0 <= j < |d|
      ensures ColumnBounded(d[j], m.colLower[j], m.colUpper[j], ZeroLevel(m, y, tol)) <==>
        (m.colUpper[j].Fin? || Negligible(m, y, tol, d[j])) && (m.colLower[j].Fin? || Negligible(m, y, tol, -d[j]))
    {
      ZeroLevelMeans(m, y, tol, d[j]);
      ZeroLevelMeans(m, y, tol, -d[j]);
    }
  }

  /** The shortfall exceeds the tolerance, absolutely and relative to either side. */
  predicate ShortBy(required: real, reachable: real, tol: real) {
    var gap := required - reachable;
    gap > tol && !Tolerated(gap, tol, Abs(required)) && !Tolerated(gap, tol, Abs(reachable))
  }

  lemma MarginMeans(required: real, reachable: real, scale: real, tol: real)
    requires tol >= 0.0
    ensures ClearMargin(required, reachable, scale, tol) <==>
      ShortBy(required, reachable, tol) && !Tolerated(required - reachable, tol, scale)
    ensures Contradiction(required, reachable, tol) <==> ShortBy(required, reachable, tol)
  {
    var gap := required - reachable;
    MarginIs(required, reachable, scale, tol);
    hide Tolerated, Max, Abs, ClearMargin, Contradiction;
    MaxTolerates(tol, 1.0, Abs(required), gap);
    MaxTolerates(tol, Max(1.0, Abs(required)), Abs(reachable), gap);
    MaxTolerates(tol, Max(Max(1.0, Abs(required)), Abs(reachable)), scale, gap);
    UnitTolerates(gap, tol);
  }

  lemma MarginIs(required: real, reachable: real, scale: real, tol: real)
    ensures ClearMargin(required, reachable, scale, tol) <==>
      !Tolerated(required - reachable, tol, Max(Max(Max(1.0, Abs(required)), Abs(reachable)), scale))
    ensures Contradiction(required, reachable, tol) <==>
      !Tolerated(required - reachable, tol, Max(Max(1.0, Abs(required)), Abs(reachable)))
  {
    hide Max, Abs;
  }

  /** The solver's test at any tolerances: some multiplier, each leaning on a bound its row has, an aggregate
      that the box bounds, and a shortfall beyond the tolerance absolutely, relative to either side and relative
      to every term of A'y. */
  lemma AcceptsMeans(m: Model, y: seq<real>, zeroDrop: real, feasTol: real)
    requires m.Valid() && zeroDrop >= 0.0 && feasTol >= 0.0
    ensures Farkas.Accepts(m, y, zeroDrop, feasTol) <==>
      && |y| == m.numRows && IsCombination(y)
      && (forall i :: 0 <= i < |y| ==>
          (y[i] > 0.0 ==> m.rowLower[i].Fin?) && (y[i] < 0.0 ==> m.rowUpper[i].Fin?))
      && AggregateBounded(m, y, zeroDrop)
      && var required, reachable := Required(m, y), Reachable(m, TransposeTimes(m, y), ZeroLevel(m, y, zeroDrop));
         ShortBy(required, reachable, feasTol) && !SomeTermTolerates(m, y, feasTol, required - reachable)
  {
    if |y| == m.numRows {
      hide TransposeTimes, Required, Reachable, ZeroLevel, TermScale, ColumnsBounded, AggregateBounded, ClearMargin,
        SomeTermTolerates, Tolerated;
      var required, reachable := Required(m, y), Reachable(m, TransposeTimes(m, y), ZeroLevel(m, y, zeroDrop));
      AggregateMeans(m, y, zeroDrop);
      MarginMeans(required, reachable, TermScale(m, y), feasTol);
      ScaleTolerates(m, y, feasTol, required - reachable);
    }
  }

  /** The independent checker's test: the same without the terms of A'y. */
  lemma CheckerAcceptsMeans(m: Model, y: seq<real>, zeroDrop: real, margin: real)
    requires m.Valid() && |y| == m.numRows && zeroDrop >= 0.0 && margin >= 0.0
    ensures CheckerAccepts(m, y, zeroDrop, margin) <==>
      && (forall i :: 0 <= i < |y| ==>
          (y[i] > 0.0 ==> m.rowLower[i].Fin?) && (y[i] < 0.0 ==> m.rowUpper[i].Fin?))
      && AggregateBounded(m, y, zeroDrop)
      && ShortBy(Required(m, y), Reachable(m, TransposeTimes(m, y), ZeroLevel(m, y, zeroDrop)), margin)
  {
    hide TransposeTimes, Required, Reachable, ZeroLevel, ColumnsBounded, AggregateBounded, Contradiction, Tolerated;
    AggregateMeans(m, y, zeroDrop);
    MarginMeans(Required(m, y), Reachable(m, TransposeTimes(m, y), ZeroLevel(m, y, zeroDrop)), 0.0, margin);
  }

  /** The thresholds themselves. */
  lemma ProvesMeans(m: Model, y: seq<real>)
    requires m.Valid()
    ensures Farkas.Proves(m, y) <==> Farkas.Accepts(m, y, 0.00000000001, 0.0000001)
    ensures CHECKER_ZERO == 0.00000000001 && CHECKER_MARGIN == 0.000000001
  {
  }

  // ---- Subsystems -------------------------------------------------------------------------------------

  /** A certificate stays inside a set when it prices only its rows and leans, where that counts, only on its
      bounds. */
  lemma SupportMeans(m: Model, y: seq<real>, s: set<Element>, zeroDrop: real)
    requires m.Valid() && |y| == m.numRows && zeroDrop >= 0.0
    ensures var d := TransposeTimes(m, y);
      SupportInside(m, y, s, zeroDrop) <==>
        && (forall i :: 0 <= i < |y| && Row(i) !in s ==> y[i] == 0.0)
        && (forall j :: 0 <= j < |d| && ColUpper(j) !in s ==> Negligible(m, y, zeroDrop, d[j]))
        && (forall j :: 0 <= j < |d| && ColLower(j) !in s ==> Negligible(m, y, zeroDrop, -d[j]))
  {
    hide ZeroLevel, Negligible;
    var d := TransposeTimes(m, y);
    forall j | 0 <= j < |d|
      ensures d[j] > ZeroLevel(m, y, zeroDrop) <==> !Negligible(m, y, zeroDrop, d[j])
      ensures d[j] < -ZeroLevel(m, y, zeroDrop) <==> !Negligible(m, y, zeroDrop, -d[j])
    {
      ZeroLevelMeans(m, y, zeroDrop, d[j]);
      ZeroLevelMeans(m, y, zeroDrop, -d[j]);
    }
  }

  /** v is at most tol, absolutely or relative to the value or to one of its bounds. */
  predicate ValueTolerates(value: real, lo: Bound, hi: Bound, tol: real, v: real) {
    || SizeTolerates(value, tol, v)
    || (lo.Fin? && Tolerated(v, tol, Abs(lo.v))) || (hi.Fin? && Tolerated(v, tol, Abs(hi.v)))
  }

  /** An element's violation is within the tolerance when the value is outside neither bound by more than it,
      absolutely or relative to the value or a bound. */
  lemma ViolationMeans(value: real, lo: Bound, hi: Bound, tol: real)
    requires tol >= 0.0
    ensures Violation(value, lo, hi) <= tol <==>
      && (lo.Fin? ==> ValueTolerates(value, lo, hi, tol, lo.v - value))
      && (hi.Fin? ==> ValueTolerates(value, lo, hi, tol, value - hi.v))
  {
    var a, b := if lo.Fin? then Abs(lo.v) else 0.0, if hi.Fin? then Abs(hi.v) else 0.0;
    var scale := Max(Max(1.0, Abs(value)), Max(a, b));
    var below, above := if lo.Fin? then lo.v - value else 0.0, if hi.Fin? then value - hi.v else 0.0;
    assert Violation(value, lo, hi) == Max(Max(below, above), 0.0) / scale;
    RatioAtMost(Max(Max(below, above), 0.0), scale, tol);
    ScaleOfValue(value, a, b, tol, below);
    ScaleOfValue(value, a, b, tol, above);
    ScaleOfValue(value, a, b, tol, 0.0);
    WorstTolerated(below, above, tol, scale);
    NothingTolerated(value, tol);
    hide Tolerated, Violation, Abs, Max;
  }

  lemma NothingTolerated(value: real, tol: real)
    requires tol >= 0.0
    ensures SizeTolerates(value, tol, 0.0)
  {
  }

  lemma WorstTolerated(below: real, above: real, tol: real, scale: real)
    requires tol >= 0.0 && scale >= 1.0
    ensures Tolerated(Max(Max(below, above), 0.0), tol, scale) <==>
      Tolerated(below, tol, scale) && Tolerated(above, tol, scale)
  {
    MulLe(tol, 0.0, scale);
  }

  lemma ScaleOfValue(value: real, a: real, b: real, tol: real, v: real)
    requires tol >= 0.0 && a >= 0.0 && b >= 0.0
    ensures Tolerated(v, tol, Max(Max(1.0, Abs(value)), Max(a, b))) <==>
      SizeTolerates(value, tol, v) || Tolerated(v, tol, a) || Tolerated(v, tol, b)
  {
    MaxTolerates(tol, Max(1.0, Abs(value)), Max(a, b), v);
    MaxTolerates(tol, 1.0, Abs(value), v);
    MaxTolerates(tol, a, b, v);
    UnitTolerates(v, tol);
  }
}
