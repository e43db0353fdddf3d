/** What the two tests of a ray say, without their scales: which directions each accepts, at any
    tolerance, and what acceptance means for the feasible set at zero tolerance. */
module RayMeaning {
  import opened Vectors
  import opened LpModel
  import opened Quadratic
  import opened Scales
  import Farkas
  import Rays
  import RayChecks
  import CertificateChecks

  /** The direction moves a bounded quantity at most by the tolerance, relative to its own largest step. */
  ghost predicate StepTolerated(d: seq<real>, tol: real, v: real) {
    exists k :: 0 <= k < |d| && Tolerated(v, tol, Abs(d[k]))
  }

  /** v is at most tol, or at most tol relative to a term of A d. */
  ghost predicate TermTolerated(m: Model, d: seq<real>, tol: real, v: real)
    requires m.Valid() && |d| == |m.cols|
  {
    v <= tol || exists j,
        k :: 0 <= j < |d| && 0 <= k < |m.cols[j]| && Tolerated(v, tol, Abs(Mul(m.cols[j][k].val, d[j])))
  }

  /** No column with an upper bound is raised, and none with a lower bound lowered, beyond the tolerance. */
  ghost predicate ColumnsFree(m: Model, d: seq<real>, tol: real)
    requires m.Valid() && |d| == |m.cols|
  {
    && (forall j :: 0 <= j < |d| && m.colUpper[j].Fin? ==> StepTolerated(d, tol, d[j]))
    && (forall j :: 0 <= j < |d| && m.colLower[j].Fin? ==> StepTolerated(d, tol, -d[j]))
  }

  ghost predicate RowsFree(m: Model, d: seq<real>, tol: real)
    requires m.Valid() && |d| == |m.cols|
  {
    && (forall i :: 0 <= i < m.numRows && m.rowUpper[i].Fin? ==> TermTolerated(m, d, tol, Times(m, d)[i]))
    && (forall i :: 0 <= i < m.numRows && m.rowLower[i].Fin? ==> TermTolerated(m, d, tol, -Times(m, d)[i]))
  }

  /** The change of the linear objective per unit step, in minimise space. */
  function Change(m: Model, d: seq<real>): real
    requires m.Valid() && |d| == |m.cols|
  {
    if m.maximize then -Dot(m.colCost, d) else Dot(m.colCost, d)
  }

  /** The objective falls by more than tol, absolutely and relative to every term of c.d. */
  ghost predicate FallsClearly(m: Model, d: seq<real>, tol: real)
    requires m.Valid() && |d| == |m.cols|
  {
    -Change(m, d) > tol && forall j :: 0 <= j < |d| ==> !Tolerated(-Change(m, d), tol, Abs(Mul(m.colCost[j], d[j])))
  }

  predicate IsDirection(d: seq<real>) { exists j :: 0 <= j < |d| && d[j] != 0.0 }

  // ---- The scales ---------------------------------------------------------------------------------

  lemma {:induction false} LargestTolerates(d: seq<real>, k: nat, tol: real, v: real)
    requires k <= |d| && tol >= 0.0
    ensures Tolerated(v, tol, MagnitudeTo(d, k)) <==> v <= 0.0 || exists i :: 0 <= i < k && Tolerated(v, tol, Abs(d[i]))
  {
    hide Abs;
    if k > 0 {
      LargestTolerates(d, k - 1, tol, v);
      hide Tolerated;
      MaxTolerates(tol, MagnitudeTo(d, k - 1), Abs(d[k - 1]), v);
    }
  }

  lemma NothingIsTolerated(d: seq<real>, j: nat, tol: real, v: real)
    requires j < |d| && tol >= 0.0 && v <= 0.0
    ensures Tolerated(v, tol, Abs(d[j])) && StepTolerated(d, tol, v)
  {
    MulLe(tol, 0.0, Abs(d[j]));
  }

  lemma StepTolerates(d: seq<real>, j: nat, tol: real, v: real)
    requires j < |d| && tol >= 0.0
    ensures v <= tol * Magnitude(d) <==> StepTolerated(d, tol, v)
  {
    assert v <= tol * Magnitude(d) <==> Tolerated(v, tol, MagnitudeTo(d, |d|));
    hide Tolerated, Abs, MagnitudeTo;
    LargestTolerates(d, |d|, tol, v);
    if v <= 0.0 { NothingIsTolerated(d, j, tol, v); }
  }

  lemma {:induction false} ColumnTermTolerates(col: seq<Entry>, step: real, k: nat, from: real, tol: real, v: real)
    requires k <= |col| && tol >= 0.0
    ensures Tolerated(v, tol, Rays.ColumnStepScale(col, step, k, from)) <==>
      Tolerated(v, tol, from) || exists q :: 0 <= q < k && Tolerated(v, tol, Abs(Mul(col[q].val, step)))
  {
    hide Tolerated, Abs, Max, Mul;
    if k > 0 {
      ColumnTermTolerates(col, step, k - 1, from, tol, v);
      MaxTolerates(tol, Rays.ColumnStepScale(col, step, k - 1, from), Abs(Mul(col[k - 1].val, step)), v);
    }
  }

  lemma {:induction false} TermsTolerate(m: Model, d: seq<real>, n: nat, tol: real, v: real)
    requires m.Valid() && |d| == |m.cols| && n <= |d| && tol >= 0.0
    ensures Tolerated(v, tol, Rays.RowTermScaleTo(m, d, n)) <==>
      Tolerated(v, tol, 0.0)
      || exists j, k :: 0 <= j < n && 0 <= k < |m.cols[j]| && Tolerated(v, tol, Abs(Mul(m.cols[j][k].val, d[j])))
  {
    hide Tolerated, Abs, Mul, Rays.ColumnStepScale;
    if n > 0 {
      TermsTolerate(m, d, n - 1, tol, v);
      ColumnTermTolerates(m.cols[n - 1], d[n - 1], |m.cols[n - 1]|, Rays.RowTermScaleTo(m, d, n - 1), tol, v);
    }
  }

  lemma TermTolerates(m: Model, d: seq<real>, tol: real, v: real)
    requires m.Valid() && |d| == |m.cols| && tol >= 0.0
    ensures v <= tol * Max(1.0, Rays.RowTermScale(m, d)) <==> TermTolerated(m, d, tol, v)
  {
    UnitTolerates(v, tol);
    MaxTolerates(tol, 1.0, Rays.RowTermScale(m, d), v);
    assert Tolerated(v, tol, Max(1.0, Rays.RowTermScale(m, d))) <==> v <= tol * Max(1.0, Rays.RowTermScale(m, d));
    assert Tolerated(v, tol, 0.0) ==> v <= tol;
    hide Tolerated, Abs, Max, Rays.RowTermScaleTo;
    TermsTolerate(m, d, |d|, tol, v);
  }

  lemma CostTermSize(m: Model, d: seq<real>, j: nat)
    requires m.Valid() && |d| == |m.cols| && j < |d|
    ensures Abs(Rays.CostTerms(m, d)[j]) == Abs(Mul(m.colCost[j], d[j]))
  {
    Rays.SignedTerm(m.Sense(), m.colCost[j], d[j]);
    hide Mul;
  }

  lemma ChangeIsImprovement(m: Model, d: seq<real>)
    requires m.Valid() && |d| == |m.cols|
    ensures Rays.Improvement(m, d) == Change(m, d)
  {
    hide Rays.Improvement;
    Rays.ImprovementIsCost(m, d);
  }

  lemma ImprovesMeans(change: real, size: real, tol: real)
    ensures Rays.Improves(change, size, tol) <==> !Tolerated(-change, tol, Max(1.0, size))
  {
    hide Max;
  }

  lemma FallTolerates(m: Model, d: seq<real>, tol: real)
    requires m.Valid() && |d| == |m.cols| && tol >= 0.0
    ensures Rays.Improves(Rays.Improvement(m, d), Magnitude(Rays.CostTerms(m, d)), tol) <==> FallsClearly(m, d, tol)
  {
    var terms, fall := Rays.CostTerms(m, d), -Change(m, d);
    ChangeIsImprovement(m, d);
    ImprovesMeans(-fall, Magnitude(terms), tol);
    hide Rays.Improvement, Rays.CostTerms, Change, Tolerated, Abs, Max, Mul, MagnitudeTo, Rays.Improves;
    MagnitudeTolerates(terms, |terms|, tol, fall);
    forall j | 0 <= j < |d| ensures Abs(terms[j]) == Abs(Mul(m.colCost[j], d[j])) { CostTermSize(m, d, j); }
  }

  // ---- What the tests say -------------------------------------------------------------------------

  lemma ColumnsMean(m: Model, d: seq<real>, tol: real)
    requires m.Valid() && |d| == |m.cols| && tol >= 0.0 && IsDirection(d)
    ensures Rays.ColumnsUnblocked(m, d, Mul(tol, Magnitude(d))) <==> ColumnsFree(m, d, tol)
  {
    hide StepTolerated, Magnitude;
    forall j | 0 <= j < |d|
      ensures Rays.Unblocked(d[j], m.colLower[j], m.colUpper[j], tol * Magnitude(d)) <==>
        (m.colUpper[j].Fin? ==> StepTolerated(d, tol, d[j])) && (m.colLower[j].Fin? ==> StepTolerated(d, tol, -d[j]))
    {
      StepTolerates(d, j, tol, d[j]);
      StepTolerates(d, j, tol, -d[j]);
    }
  }

  lemma RowsMean(m: Model, d: seq<real>, tol: real)
    requires m.Valid() && |d| == |m.cols| && tol >= 0.0
    ensures Rays.RowsUnblocked(m, Times(m, d), Mul(tol, Max(1.0, Rays.RowTermScale(m, d)))) <==> RowsFree(m, d, tol)
  {
    hide TermTolerated, Rays.RowTermScale, Max, Times;
    var a := Times(m, d);
    forall i | 0 <= i < m.numRows
      ensures Rays.Unblocked(a[i], m.rowLower[i], m.rowUpper[i], tol * Max(1.0, Rays.RowTermScale(m, d))) <==>
        (m.rowUpper[i].Fin? ==> TermTolerated(m, d, tol, a[i]))
            && (m.rowLower[i].Fin? ==> TermTolerated(m, d, tol, -a[i]))
    {
      TermTolerates(m, d, tol, a[i]);
      TermTolerates(m, d, tol, -a[i]);
    }
  }

  lemma CurvatureMeans(curvature: real, tol: real)
    requires tol >= 0.0
    ensures !Rays.CurvesBack(curvature, tol) <==> SizeTolerates(curvature, tol, curvature)
  {
    MaxTolerates(tol, 1.0, Abs(curvature), curvature);
    UnitTolerates(curvature, tol);
  }

  lemma DirectionMeans(d: seq<real>)
    ensures Magnitude(d) != 0.0 <==> IsDirection(d)
  {
    RayChecks.MagnitudeIsZero(d);
  }

  /** The solver's test at any tolerance: a nonzero direction that moves no quantity against a bound it has,
      along which the objective falls and does not curve back, each beyond the tolerance. */
  lemma AcceptsMeans(m: Model, d: seq<real>, tol: real)
    requires m.Valid() && tol >= 0.0
    ensures Rays.Accepts(m, d, tol) <==>
      && |d| == |m.cols| && IsDirection(d) && ColumnsFree(m, d, tol) && RowsFree(m, d, tol) && FallsClearly(m, d, tol)
      && (m.hessian != [] ==> SizeTolerates(Form(m, d, d), tol, Form(m, d, d)))
  {
    hide Rays.ColumnsUnblocked, Rays.RowsUnblocked, Rays.Improves, Rays.CurvesBack, ColumnsFree, RowsFree,
      FallsClearly, SizeTolerates, Magnitude, IsDirection, Times, Form, Rays.RowTermScale, Rays.Improvement, Mul, Max;
    if |d| == |m.cols| {
      DirectionMeans(d);
      if IsDirection(d) {
        ColumnsMean(m, d, tol);
        RowsMean(m, d, tol);
        FallTolerates(m, d, tol);
        CurvatureMeans(Form(m, d, d), tol);
      }
    }
  }

  /** A direction that raises nothing bounded above and lowers nothing bounded below, whose objective falls
      clearly and does not curve back, is accepted at the solver's thresholds, whatever its sizes. */
  lemma CleanRayIsAccepted(m: Model, d: seq<real>)
    requires m.Valid() && |d| == |m.cols|
    requires forall j :: 0 <= j < |d| ==> (m.colUpper[j].Fin? ==> d[j] <= 0.0) && (m.colLower[j].Fin? ==> d[j] >= 0.0)
    requires forall i :: 0 <= i < m.numRows ==>
      (m.rowUpper[i].Fin? ==> Times(m, d)[i] <= 0.0) && (m.rowLower[i].Fin? ==> Times(m, d)[i] >= 0.0)
    requires FallsClearly(m, d, 0.0000001) && Form(m, d, d) <= 0.0
    ensures Rays.Proves(m, d)
  {
    var tol := 0.0000001;
    hide FallsClearly, Times, Form, Rays.Accepts, StepTolerated;
    FallingIsMoving(m, d, tol);
    var k :| 0 <= k < |d| && d[k] != 0.0;
    forall j | 0 <= j < |d|
      ensures (m.colUpper[j].Fin? ==> StepTolerated(d, tol, d[j]))
        && (m.colLower[j].Fin? ==> StepTolerated(d, tol, -d[j]))
    {
      if m.colUpper[j].Fin? { NothingIsTolerated(d, k, tol, d[j]); }
      if m.colLower[j].Fin? { NothingIsTolerated(d, k, tol, -d[j]); }
    }
    AcceptsMeans(m, d, tol);
  }

  lemma {:induction false} StillChangesNothing(c: seq<real>, d: seq<real>, k: nat)
    requires k <= |c| == |d| && !IsDirection(d)
    ensures DotTo(c, d, k) == 0.0
  {
    if k > 0 { StillChangesNothing(c, d, k - 1); }
  }

  lemma FallingIsMoving(m: Model, d: seq<real>, tol: real)
    requires m.Valid() && |d| == |m.cols| && tol >= 0.0 && FallsClearly(m, d, tol)
    ensures IsDirection(d)
  {
    if !IsDirection(d) { StillChangesNothing(m.colCost, d, |d|); }
  }

  // ---- Zero tolerance: recession directions ---------------------------------------------------------

  /** From every feasible point the direction can be followed for ever. */
  ghost predicate StaysFeasible(m: Model, d: seq<real>)
    requires m.Valid() && |d| == |m.cols|
  {
    forall x, t: real :: Feasible(m, x) && t >= 0.0 ==> Feasible(m, Combine(1.0, x, t, d))
  }

  /** A bounded quantity leaves its bounds after a step of this length. */
  lemma LeavesUpper(value: real, step: real, lo: Bound, hi: Bound) returns (t: real)
    requires step > 0.0 && hi.Fin? && Within(lo, value, hi)
    ensures t >= 0.0 && !Within(lo, value + t * step, hi)
  {
    t := (hi.v - value) / step + 1.0;
    assert t * step == hi.v - value + step;
  }

  lemma LeavesLower(value: real, step: real, lo: Bound, hi: Bound) returns (t: real)
    requires step < 0.0 && lo.Fin? && Within(lo, value, hi)
    ensures t >= 0.0 && !Within(lo, value + t * step, hi)
  {
    t := (value - lo.v) / -step + 1.0;
    assert t * -step == value - lo.v - step;
  }

  predicate Free(step: real, lo: Bound, hi: Bound) { (hi.Fin? ==> step <= 0.0) && (lo.Fin? ==> step >= 0.0) }

  lemma LeavesUnlessFree(value: real, step: real, lo: Bound, hi: Bound) returns (t: real)
    requires Within(lo, value, hi)
    ensures t >= 0.0 && (!Free(step, lo, hi) ==> !Within(lo, value + t * step, hi))
  {
    t := 0.0;
    if hi.Fin? && step > 0.0 { t := LeavesUpper(value, step, lo, hi); }
    else if lo.Fin? && step < 0.0 { t := LeavesLower(value, step, lo, hi); }
  }

  lemma CombineAt(x: seq<real>, t: real, d: seq<real>, j: nat)
    requires |x| == |d| && j < |x|
    ensures Combine(1.0, x, t, d)[j] == x[j] + t * d[j]
  {
  }

  lemma StayingColumnIsFree(m: Model, d: seq<real>, x: seq<real>, j: nat)
    requires m.Valid() && |d| == |m.cols| && StaysFeasible(m, d) && Feasible(m, x) && j < |d|
    ensures Free(d[j], m.colLower[j], m.colUpper[j])
  {
    var t := LeavesUnlessFree(x[j], d[j], m.colLower[j], m.colUpper[j]);
    var p := Combine(1.0, x, t, d);
    assert Feasible(m, p);
    CombineAt(x, t, d, j);
    assert Within(m.colLower[j], p[j], m.colUpper[j]);
  }

  lemma StayingRowIsFree(m: Model, d: seq<real>, x: seq<real>, i: nat)
    requires m.Valid() && |d| == |m.cols| && StaysFeasible(m, d) && Feasible(m, x) && i < m.numRows
    ensures Free(Times(m, d)[i], m.rowLower[i], m.rowUpper[i])
  {
    hide Times;
    var t := LeavesUnlessFree(Times(m, x)[i], Times(m, d)[i], m.rowLower[i], m.rowUpper[i]);
    var p := Combine(1.0, x, t, d);
    assert Feasible(m, p);
    TimesCombine(m, 1.0, x, t, d, i);
    assert Within(m.rowLower[i], Times(m, p)[i], m.rowUpper[i]);
  }

  /** At zero tolerance, in a model with a feasible point, the accepted rays are exactly the directions that can
      be followed for ever from every feasible point, along which the linear objective falls and does not curve
      back. */
  lemma AcceptedIsRecession(m: Model, d: seq<real>, x: seq<real>)
    requires m.Valid() && Feasible(m, x)
    ensures Rays.Accepts(m, d, 0.0) <==>
      |d| == |m.cols| && StaysFeasible(m, d) && Change(m, d) < 0.0 && (m.hessian != [] ==> Form(m, d, d) <= 0.0)
  {
    AcceptsMeans(m, d, 0.0);
    if |d| == |m.cols| {
      hide Times, Form, Rays.Accepts, Rays.RowTermScale, Change, StaysFeasible;
      FallsMeans(m, d);
      if Rays.Accepts(m, d, 0.0) { RecessionOf(m, d); }
      if StaysFeasible(m, d) {
        forall j | 0 <= j < |d| ensures Free(d[j], m.colLower[j], m.colUpper[j]) { StayingColumnIsFree(m, d, x, j); }
        forall i | 0 <= i < m.numRows ensures Free(Times(m, d)[i], m.rowLower[i], m.rowUpper[i]) {
          StayingRowIsFree(m, d, x, i);
        }
        if Change(m, d) < 0.0 { FallingIsMoving(m, d, 0.0); FreeMeans(m, d); }
      }
    }
  }

  lemma RecessionOf(m: Model, d: seq<real>)
    requires m.Valid() && Rays.Accepts(m, d, 0.0)
    ensures StaysFeasible(m, d)
  {
    hide Times, Rays.RowTermScale, Rays.Improvement, Form, Magnitude;
    forall x, t: real | Feasible(m, x) && t >= 0.0 ensures Feasible(m, Combine(1.0, x, t, d)) {
      Rays.RayStaysFeasible(m, d, x, t);
    }
  }

  lemma FallsMeans(m: Model, d: seq<real>)
    requires m.Valid() && |d| == |m.cols|
    ensures FallsClearly(m, d, 0.0) <==> Change(m, d) < 0.0
  {
    hide Change, Mul;
  }

  lemma FreeMeans(m: Model, d: seq<real>)
    requires m.Valid() && |d| == |m.cols| && IsDirection(d)
    requires forall j :: 0 <= j < |d| ==> Free(d[j], m.colLower[j], m.colUpper[j])
    requires forall i :: 0 <= i < m.numRows ==> Free(Times(m, d)[i], m.rowLower[i], m.rowUpper[i])
    ensures ColumnsFree(m, d, 0.0) && RowsFree(m, d, 0.0)
  {
    hide Times;
    var k :| 0 <= k < |d| && d[k] != 0.0;
    forall j | 0 <= j < |d| && m.colUpper[j].Fin? ensures StepTolerated(d, 0.0, d[j]) {
      NothingIsTolerated(d, k, 0.0, d[j]);
    }
    forall j | 0 <= j < |d| && m.colLower[j].Fin? ensures StepTolerated(d, 0.0, -d[j]) {
      NothingIsTolerated(d, k, 0.0, -d[j]);
    }
  }

  // ---- The independent checker ----------------------------------------------------------------------

  /** The independent checker's test: rows are held to the ray's own scale, and the fall to its own size. */
  lemma CheckerAcceptsMeans(m: Model, d: seq<real>, primalTol: real, margin: real)
    requires m.Valid() && |d| == |m.cols| && primalTol >= 0.0 && margin >= 0.0
    ensures RayChecks.RayAccepted(m, d, primalTol, margin) <==>
      && IsDirection(d) && ColumnsFree(m, d, primalTol)
      && (forall i :: 0 <= i < m.numRows && m.rowUpper[i].Fin? ==> StepTolerated(d, primalTol, Times(m, d)[i]))
      && (forall i :: 0 <= i < m.numRows && m.rowLower[i].Fin? ==> StepTolerated(d, primalTol, -Times(m, d)[i]))
      && -Change(m, d) > margin && !Tolerated(-Change(m, d), margin, Abs(Change(m, d)))
      && (m.hessian != [] ==> SizeTolerates(Form(m, d, d), margin, Form(m, d, d)))
  {
    if IsDirection(d) {
      var k :| 0 <= k < |d| && d[k] != 0.0;
      ColumnsMean(m, d, primalTol);
      CurvatureMeans(Form(m, d, d), margin);
      ChangeIsImprovement(m, d);
      OwnSize(Change(m, d), margin);
      hide Times, Form, Magnitude, Rays.ColumnsUnblocked, ColumnsFree, StepTolerated, Rays.CurvesBack, SizeTolerates,
        Rays.Improvement, RayChecks.ImprovesBy, Tolerated, Change;
      forall i | 0 <= i < m.numRows
        ensures Rays.Unblocked(Times(m, d)[i], m.rowLower[i], m.rowUpper[i], primalTol * Magnitude(d)) <==>
          (m.rowUpper[i].Fin? ==> StepTolerated(d, primalTol, Times(m, d)[i]))
          && (m.rowLower[i].Fin? ==> StepTolerated(d, primalTol, -Times(m, d)[i]))
      {
        StepTolerates(d, k, primalTol, Times(m, d)[i]);
        StepTolerates(d, k, primalTol, -Times(m, d)[i]);
      }
    }
  }

  lemma OwnSize(change: real, margin: real)
    requires margin >= 0.0
    ensures RayChecks.ImprovesBy(change, margin) <==> -change > margin && !Tolerated(-change, margin, Abs(change))
  {
    MaxTolerates(margin, 1.0, Abs(change), -change);
    UnitTolerates(-change, margin);
  }
}
