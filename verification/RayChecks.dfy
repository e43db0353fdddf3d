/** The independent checker's test of an unboundedness claim, and how it relates to the solver's
    own: the two agree at zero tolerance, and differ at their own thresholds on the rows. */
module RayChecks {
  import opened Vectors
  import opened LpModel
  import opened Quadratic
  import opened Reports
  import opened CertificateChecks
  import Farkas
  import OptimalityChecks
  import Rays

  predicate ImprovesBy(improvement: real, margin: real) {
    improvement < -(margin * Max(1.0, Abs(improvement)))
  }

  /** The verdict on a ray that was offered. Rows and columns share one threshold, scaled by the
      ray's largest component. */
  predicate RayAccepted(m: Model, d: seq<real>, primalTol: real, margin: real)
    requires m.Valid() && |d| == |m.cols|
  {
    var moving := Mul(primalTol, Magnitude(d));
    && Farkas.SomeNonzero(d)
    && Rays.ColumnsUnblocked(m, d, moving)
    && Rays.RowsUnblocked(m, Times(m, d), moving)
    && ImprovesBy(Rays.Improvement(m, d), margin)
    && (m.hessian != [] ==> !Rays.CurvesBack(Form(m, d, d), margin))
  }

  /** The lines about a direction, with the threshold below which a move is rounding. */
  function DirectionLines(m: Model, d: seq<real>, moving: real, margin: real): seq<Line>
    requires m.Valid() && |d| == |m.cols|
  {
    [Line(true, RayIsADirection),
     Line(Rays.ColumnsUnblocked(m, d, moving), RayRespectsColumnBounds),
     Line(Rays.RowsUnblocked(m, Times(m, d), moving), RayRespectsRowBounds),
     Line(ImprovesBy(Rays.Improvement(m, d), margin), RayImprovesObjective)]
    + if m.hessian == [] then [] else [Line(!Rays.CurvesBack(Form(m, d, d), margin), RayDoesNotCurveBack)]
  }

  /** The lines the ray check appends. */
  function RayLines(m: Model, d: seq<real>, primalTol: real, margin: real): seq<Line>
    requires m.Valid() && |d| == |m.cols|
  {
    if !Farkas.SomeNonzero(d) then [Line(false, RayIsADirection)]
    else DirectionLines(m, d, Mul(primalTol, Magnitude(d)), margin)
  }

  /** The report is clean exactly when the ray is accepted. */
  lemma RayLinesPass(m: Model, d: seq<real>, primalTol: real, margin: real)
    requires m.Valid() && |d| == |m.cols|
    ensures AllPass(RayLines(m, d, primalTol, margin)) <==> RayAccepted(m, d, primalTol, margin)
  {
    hide Rays.ColumnsUnblocked, Rays.RowsUnblocked, ImprovesBy, Rays.CurvesBack, Times, Form, Rays.Improvement,
      Magnitude, Mul;
    var lines := RayLines(m, d, primalTol, margin);
    if Farkas.SomeNonzero(d) {
      assert lines[1].ok && lines[2].ok && lines[3].ok && (m.hessian != [] ==> lines[4].ok)
             <==> RayAccepted(m, d, primalTol, margin);
    } else {
      assert !lines[0].ok;
    }
  }

  /** Nothing is claimed without a ray, and then nothing is checked. */
  method VerifyRay(m: Model, ray: map<nat, real>, report: Report, primalTol: real)
    requires m.Valid() && report.Valid()
    modifies report
    ensures report.Valid()
    ensures report.lines == old(report.lines)
      + if ray == map[] then [Line(true, UnboundednessProof)]
        else RayLines(m, Spread(ray, |m.cols|), primalTol, CHECKER_MARGIN)
  {
    hide DirectionLines, Magnitude, Mul;
    if ray == map[] {
      report.Note(UnboundednessProof);
      return;
    }
    var d := Spread(ray, |m.cols|);
    var any := Farkas.SomeNonzero(d);
    if !any {
      report.Check(any, RayIsADirection);
      return;
    }
    var scale := Rays.MeasureMagnitude(d);
    var moving := Mul(primalTol, scale);
    CheckDirection(m, d, report, moving);
  }

  method CheckDirection(m: Model, d: seq<real>, report: Report, moving: real)
    requires m.Valid() && |d| == |m.cols| && report.Valid()
    modifies report
    ensures report.Valid() && report.lines == old(report.lines) + DirectionLines(m, d, moving, CHECKER_MARGIN)
  {
    hide Rays.ColumnsUnblocked, Rays.RowsUnblocked, ImprovesBy, Rays.CurvesBack, Times, Form, Rays.Improvement,
      FailuresIn;
    ghost var before := report.lines;
    report.Check(true, RayIsADirection);
    report.Check(Rays.ColumnsUnblocked(m, d, moving), RayRespectsColumnBounds);
    var activity := AccumulateTimes(m, d);
    report.Check(Rays.RowsUnblocked(m, activity, moving), RayRespectsRowBounds);
    var improvement := MeasureImprovement(m, d);
    report.Check(ImprovesBy(improvement, CHECKER_MARGIN), RayImprovesObjective);
    ghost var first := DirectionLines(m, d, moving, CHECKER_MARGIN)[..4];
    assert report.lines == before + first;
    CheckCurvature(m, d, report);
    Appended(before, first, report.lines[|before| + 4..]);
  }

  lemma Appended(a: seq<Line>, b: seq<Line>, c: seq<Line>)
    ensures (a + b) + c == a + (b + c)
  {
  }

  method MeasureImprovement(m: Model, d: seq<real>) returns (improvement: real)
    requires m.Valid() && |d| == |m.cols|
    ensures improvement == Rays.Improvement(m, d)
  {
    var change := Evaluate(m.colCost, d);
    improvement := m.Sense() * change;
    Rays.ImprovementIsCost(m, d);
  }

  method CheckCurvature(m: Model, d: seq<real>, report: Report)
    requires m.Valid() && |d| == |m.cols| && report.Valid()
    modifies report
    ensures report.Valid()
    ensures report.lines == old(report.lines)
      + if m.hessian == [] then [] else [Line(!Rays.CurvesBack(Form(m, d, d), CHECKER_MARGIN), RayDoesNotCurveBack)]
  {
    hide Rays.CurvesBack, Form;
    if m.hessian != [] {
      var qd := OptimalityChecks.MeasureHessian(m, d);
      var curvature := Evaluate(d, qd);
      DotHessianTimes(m, d, d);
      report.Check(!Rays.CurvesBack(curvature, CHECKER_MARGIN), RayDoesNotCurveBack);
    }
  }

  lemma MagnitudeIsZero(d: seq<real>)
    ensures Magnitude(d) == 0.0 <==> !Farkas.SomeNonzero(d)
  {
    MagnitudeBounds(d, |d|);
    forall i | 0 <= i < |d| ensures Abs(d[i]) <= Magnitude(d) {}
  }

  lemma ZeroTimesAnything(v: real)
    ensures 0.0 * v == 0.0
  {
  }

  /** At zero tolerance the two checkers are the same test, so an accepted ray of a convex
      minimisation never leaves the feasible set and makes the objective run away. */
  lemma AgreeAtZeroTolerance(m: Model, d: seq<real>)
    requires m.Valid() && |d| == |m.cols|
    ensures RayAccepted(m, d, 0.0, 0.0) <==> Rays.Accepts(m, d, 0.0)
  {
    MagnitudeIsZero(d);
    ZeroTimesAnything(Magnitude(d));
    ZeroTimesAnything(Max(1.0, Rays.RowTermScale(m, d)));
    hide Rays.ColumnsUnblocked, Rays.RowsUnblocked, Times, Form, Rays.Improvement, Magnitude, Farkas.SomeNonzero,
      Rays.RowTermScale;
  }

  lemma ImprovementThresholds(improvement: real, costScale: real)
    requires costScale >= 0.0
    ensures Rays.Improves(improvement, costScale, Farkas.PRIMAL_FEASIBILITY) ==> ImprovesBy(improvement, CHECKER_MARGIN)
  {
  }

  /** Exactly when this checker accepts a ray that the solver's own accepted: the rows must also
      be still at the ray's own scale, not only at the scale of their terms, and a quadratic
      objective must not curve back by this checker's smaller margin either. */
  lemma SolverRayIsAccepted(m: Model, d: seq<real>)
    requires m.Valid() && Rays.Proves(m, d)
    ensures RayAccepted(m, d, Farkas.PRIMAL_FEASIBILITY, CHECKER_MARGIN)
            <==> Rays.RowsUnblocked(m, Times(m, d), Farkas.PRIMAL_FEASIBILITY * Magnitude(d))
                 && (m.hessian != [] ==> !Rays.CurvesBack(Form(m, d, d), CHECKER_MARGIN))
  {
    MagnitudeIsZero(d);
    MagnitudeBounds(Rays.CostTerms(m, d), |d|);
    ImprovementThresholds(Rays.Improvement(m, d), Magnitude(Rays.CostTerms(m, d)));
    hide Rays.ColumnsUnblocked, Rays.RowsUnblocked, Times, Rays.Improvement, Magnitude, Farkas.SomeNonzero,
      Rays.RowTermScale, Rays.CurvesBack, Form, ImprovesBy;
  }

  /** The second part can fail: the ray of a barely curved minimisation, which the solver's margin
      lets pass, is rejected here. */
  lemma SolverCurvatureCanBeRejected()
    ensures var m, d := Rays.BarelyCurved(), [1.0];
      m.Valid() && Rays.Proves(m, d) && !RayAccepted(m, d, Farkas.PRIMAL_FEASIBILITY, CHECKER_MARGIN)
  {
    Rays.MinimisationRayCanBeWrong();
    Rays.BarelyCurvedForm([1.0]);
    hide RayAccepted, Rays.Proves, Form;
    SolverRayIsAccepted(Rays.BarelyCurved(), [1.0]);
  }

  /** minimise -x - y  subject to  100 x - 99.999995 y <= 0,  x, y >= 0 */
  function Cancelling(): Model {
    Model(1, [[Entry(0, 100.0)], [Entry(0, -99.999995)]], [-1.0, -1.0], 0.0, false,
          [Fin(0.0), Fin(0.0)], [PosInf, PosInf], [NegInf], [Fin(0.0)], [])
  }

  /** The condition can fail: a row whose large terms cancel moves by 5e-6 along (1, 1), which the
      solver's checker reads as rounding and this one as crossing the bound. */
  lemma SolverRayCanBeRejected()
    ensures var m, d := Cancelling(), [1.0, 1.0];
      m.Valid() && Rays.Proves(m, d) && !RayAccepted(m, d, Farkas.PRIMAL_FEASIBILITY, CHECKER_MARGIN)
  {
    var m, d := Cancelling(), [1.0, 1.0];
    CancellingActivity();
    CancellingMeasures();
    hide Times, Rays.Improvement, Magnitude, Rays.RowTermScale, Rays.CostTerms;
    SolverRayIsAccepted(m, d);
  }

  lemma CancellingActivity()
    ensures var m, d := Cancelling(), [1.0, 1.0];
      m.Valid() && Times(m, d)[0] == 0.000005 && Rays.RowTermScale(m, d) == 100.0
  {
    var m, d := Cancelling(), [1.0, 1.0];
    assert TimesTo(m, d, 1)[0] == 100.0 by {
      assert AddColumnTo(TimesTo(m, d, 0), m.cols[0], 1.0, 1)
          == AddEntry(AddColumnTo(TimesTo(m, d, 0), m.cols[0], 1.0, 0), m.cols[0][0], 1.0);
    }
    assert AddColumnTo(TimesTo(m, d, 1), m.cols[1], 1.0, 1)
        == AddEntry(AddColumnTo(TimesTo(m, d, 1), m.cols[1], 1.0, 0), m.cols[1][0], 1.0);
    assert Times(m, d) == TimesTo(m, d, 2) == AddColumnTo(TimesTo(m, d, 1), m.cols[1], 1.0, 1);
    StepScales(m.cols[0][0], m.cols[1][0]);
    assert Rays.RowTermScaleTo(m, d, 1) == Rays.ColumnStepScale(m.cols[0], 1.0, 1, 0.0);
    assert Rays.RowTermScaleTo(m, d, 2) == Rays.ColumnStepScale(m.cols[1], 1.0, 1, Rays.RowTermScaleTo(m, d, 1));
  }

  lemma StepScales(a: Entry, b: Entry)
    requires a.val == 100.0 && b.val == -99.999995
    ensures Rays.ColumnStepScale([a], 1.0, 1, 0.0) == 100.0 && Rays.ColumnStepScale([b], 1.0, 1, 100.0) == 100.0
  {
    assert Abs(a.val * 1.0) == 100.0 && Abs(b.val * 1.0) == 99.999995;
    assert Rays.ColumnStepScale([a], 1.0, 0, 0.0) == 0.0 && Rays.ColumnStepScale([b], 1.0, 0, 100.0) == 100.0;
  }

  lemma CancellingMeasures()
    ensures var m, d := Cancelling(), [1.0, 1.0];
      m.Valid() && Magnitude(d) == 1.0 && Rays.Improvement(m, d) == -2.0 && Magnitude(Rays.CostTerms(m, d)) == 1.0
  {
    var m, d := Cancelling(), [1.0, 1.0];
    var terms := Rays.CostTerms(m, d);
    assert terms == [-1.0, -1.0];
    TwoMagnitudes(1.0, 1.0);
    TwoMagnitudes(-1.0, -1.0);
    assert SumTo(terms, 1) == SumTo(terms, 0) - 1.0;
  }

  lemma TwoMagnitudes(a: real, b: real)
    ensures Magnitude([a, b]) == Max(Abs(a), Abs(b))
  {
    assert MagnitudeTo([a, b], 1) == Max(MagnitudeTo([a, b], 0), Abs(a));
  }
}
