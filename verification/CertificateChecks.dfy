/** The independent checker's tests of an infeasibility claim: the Farkas certificate and the
    irreducible subsystem. It shares no loop with the solver's own checker. */
module CertificateChecks {
  import opened Vectors
  import opened LpModel
  import opened Farkas
  import opened Elements
  import opened Reports

  const CHECKER_ZERO: real := 0.00000000001
  const CHECKER_MARGIN: real := 0.000000001

  /** The certificate sections of a solution file. Absent names read as zero. */
  datatype Claim = Claim(
    farkas: map<nat, real>,
    iis: seq<Element>,
    irreducible: bool,
    witnesses: map<Element, map<nat, real>>)

  /** A section of named values as a full vector. */
  function Spread(section: map<nat, real>, n: nat): (v: seq<real>)
    ensures |v| == n
    ensures forall i :: 0 <= i < n ==> v[i] == if i in section then section[i] else 0.0
  {
    seq(n, i requires 0 <= i < n => if i in section then section[i] else 0.0)
  }

  // ---- The certificate ----------------------------------------------------------------

  predicate Contradiction(required: real, reachable: real, margin: real) {
    reachable < required - margin * Max(Max(1.0, Abs(required)), Abs(reachable))
  }

  /** The checker's verdict on a certificate that was offered. */
  predicate CheckerAccepts(m: Model, y: seq<real>, zeroDrop: real, margin: real)
    requires m.Valid() && |y| == m.numRows
  {
    && RowsPriced(m, y)
    && var d, zero := TransposeTimes(m, y), ZeroLevel(m, y, zeroDrop);
       && ColumnsBounded(m, d, zero)
       && Contradiction(Required(m, y), Reachable(m, d, zero), margin)
  }

  /** The lines about the aggregate of a certificate that leans on real row bounds. */
  function AggregateLines(m: Model, y: seq<real>, zeroDrop: real, margin: real): seq<Line>
    requires m.Valid() && |y| == m.numRows
  {
    var d, zero := TransposeTimes(m, y), ZeroLevel(m, y, zeroDrop);
    if !ColumnsBounded(m, d, zero) then [Line(false, AggregateIsBoundedAbove)]
    else [Line(true, AggregateIsBoundedAbove),
          Line(Contradiction(Required(m, y), Reachable(m, d, zero), margin), InfeasibilityProof),
          Line(true, CertificateSize)]
  }

  /** The lines the certificate check appends. */
  function FarkasLines(m: Model, y: seq<real>, zeroDrop: real, margin: real): seq<Line>
    requires m.Valid() && |y| == m.numRows
  {
    if !SomeNonzero(y) then [Line(true, InfeasibilityProof)]
    else if !RowsPriced(m, y) then [Line(false, CertificateUsesOnlyRealBounds)]
    else [Line(true, CertificateUsesOnlyRealBounds)] + AggregateLines(m, y, zeroDrop, margin)
  }

  lemma AggregateLinesPass(m: Model, y: seq<real>, zeroDrop: real, margin: real)
    requires m.Valid() && |y| == m.numRows && RowsPriced(m, y)
    ensures AllPass(AggregateLines(m, y, zeroDrop, margin)) <==> CheckerAccepts(m, y, zeroDrop, margin)
  {
    var lines := AggregateLines(m, y, zeroDrop, margin);
    if !ColumnsBounded(m, TransposeTimes(m, y), ZeroLevel(m, y, zeroDrop)) {
      assert !lines[0].ok;
    } else {
      assert lines[1].ok <==> CheckerAccepts(m, y, zeroDrop, margin);
    }
  }

  /** An offered certificate passes every line exactly when the checker accepts it. */
  lemma FarkasLinesPass(m: Model, y: seq<real>, zeroDrop: real, margin: real)
    requires m.Valid() && |y| == m.numRows
    ensures AllPass(FarkasLines(m, y, zeroDrop, margin))
            <==> (SomeNonzero(y) ==> CheckerAccepts(m, y, zeroDrop, margin))
  {
    hide SomeNonzero, RowsPriced;
    if SomeNonzero(y) && RowsPriced(m, y) {
      AggregateLinesPass(m, y, zeroDrop, margin);
      PassCons(Line(true, CertificateUsesOnlyRealBounds), AggregateLines(m, y, zeroDrop, margin));
    } else if SomeNonzero(y) {
      assert !FarkasLines(m, y, zeroDrop, margin)[0].ok;
    }
  }

  /** A'y, accumulated entry by entry. */
  method AccumulateTranspose(m: Model, y: seq<real>) returns (d: seq<real>)
    requires m.Valid() && |y| == m.numRows
    ensures d == TransposeTimes(m, y)
  {
    d := Zeros(|m.cols|);
    for j := 0 to |m.cols|
      invariant |d| == |m.cols|
      invariant forall l :: 0 <= l < j ==> d[l] == ColDot(m.cols[l], y)
      invariant forall l :: j <= l < |m.cols| ==> d[l] == 0.0
    {
      var col := m.cols[j];
      for k := 0 to |col|
        invariant |d| == |m.cols|
        invariant forall l :: 0 <= l < j ==> d[l] == ColDot(m.cols[l], y)
        invariant d[j] == ColDotTo(col, y, k)
        invariant forall l :: j < l < |m.cols| ==> d[l] == 0.0
      {
        d := d[j := d[j] + Term(col[k], y)];
      }
    }
  }

  /** A x from the same entries, skipping columns at zero. */
  method AccumulateTimes(m: Model, x: seq<real>) returns (out: seq<real>)
    requires m.Valid() && |x| == |m.cols|
    ensures out == Times(m, x)
  {
    out := Zeros(m.numRows);
    for j := 0 to |m.cols|
      invariant out == TimesTo(m, x, j)
    {
      if x[j] == 0.0 {
        AddNothing(out, m.cols[j], |m.cols[j]|);
      } else {
        out := AddColumn(out, m.cols[j], x[j]);
      }
    }
  }

  method AddColumn(out0: seq<real>, col: seq<Entry>, xj: real) returns (out: seq<real>)
    requires ValidColumn(col, |out0|)
    ensures out == AddColumnTo(out0, col, xj, |col|)
  {
    out := out0;
    for k := 0 to |col|
      invariant |out| == |out0| && out == AddColumnTo(out0, col, xj, k)
    {
      out := out[col[k].row := out[col[k].row] + Mul(col[k].val, xj)];
    }
  }

  /** The zero level: 1e-11 of the largest term, which is at least 1. */
  method AccumulateZero(m: Model, y: seq<real>) returns (zero: real)
    requires m.Valid() && |y| == m.numRows
    ensures zero == ZeroLevel(m, y, CHECKER_ZERO) >= 0.0
  {
    var termScale := 1.0;
    for j := 0 to |m.cols|
      invariant termScale == ScaleTo(m, y, j, 1.0)
    {
      termScale := LargestTerm(m.cols[j], y, termScale);
    }
    ScaleFrom(m, y, |m.cols|, 1.0, 0.0);
    zero := CHECKER_ZERO * termScale;
  }

  method LargestTerm(col: seq<Entry>, y: seq<real>, from: real) returns (scale: real)
    requires ValidColumn(col, |y|)
    ensures scale == ColumnScale(col, y, |col|, from)
  {
    scale := from;
    for k := 0 to |col|
      invariant scale == ColumnScale(col, y, k, from)
    {
      scale := Max(scale, Abs(Term(col[k], y)));
    }
  }

  method SumRequired(m: Model, y: seq<real>) returns (required: real)
    requires m.Valid() && |y| == m.numRows
    ensures required == Required(m, y)
  {
    required := 0.0;
    for i := 0 to m.numRows
      invariant required == SumTo(RowTerms(m, y), i)
    {
      required := required + BoundContribution(y[i], m.rowLower[i], m.rowUpper[i]);
    }
  }

  method SumReachable(m: Model, d: seq<real>, zero: real) returns (reachable: real, free: seq<nat>)
    requires m.Valid() && |d| == |m.cols| && zero >= 0.0
    ensures reachable == Reachable(m, d, zero)
    ensures free == [] <==> ColumnsBounded(m, d, zero)
  {
    reachable, free := 0.0, [];
    for j := 0 to |m.cols|
      invariant free == [] <==> forall l :: 0 <= l < j ==> ColumnBounded(d[l], m.colLower[l], m.colUpper[l], zero)
      invariant reachable == SumTo(ReachTerms(m, d, zero), j)
    {
      if d[j] > zero {
        if !m.colUpper[j].Fin? { free := free + [j]; } else { reachable := reachable + d[j] * m.colUpper[j].v; }
      } else if d[j] < -zero {
        if !m.colLower[j].Fin? { free := free + [j]; } else { reachable := reachable + d[j] * m.colLower[j].v; }
      }
    }
  }

  method VerifyFarkas(m: Model, claim: Claim, report: Report)
    requires m.Valid() && report.Valid()
    modifies report
    ensures report.Valid()
    ensures report.lines == old(report.lines)
                            + FarkasLines(m, Spread(claim.farkas, m.numRows), CHECKER_ZERO, CHECKER_MARGIN)
  {
    hide AggregateLines;
    var y := Spread(claim.farkas, m.numRows);
    if forall i :: 0 <= i < |y| ==> y[i] == 0.0 {
      report.Note(InfeasibilityProof);
      return;
    }
    var borrowed := exists i :: 0 <= i < |y| && !PricesRealBound(y[i], m.rowLower[i], m.rowUpper[i]);
    report.Check(!borrowed, CertificateUsesOnlyRealBounds);
    if borrowed { return; }
    VerifyAggregate(m, y, report);
  }

  method VerifyAggregate(m: Model, y: seq<real>, report: Report)
    requires m.Valid() && report.Valid() && |y| == m.numRows
    modifies report
    ensures report.Valid()
    ensures report.lines == old(report.lines) + AggregateLines(m, y, CHECKER_ZERO, CHECKER_MARGIN)
  {
    hide Contradiction, ZeroLevel, Required, Reachable, TransposeTimes;
    var required := SumRequired(m, y);
    var d := AccumulateTranspose(m, y);
    var zero := AccumulateZero(m, y);
    var reachable, free := SumReachable(m, d, zero);
    report.Check(free == [], AggregateIsBoundedAbove);
    if free != [] { return; }
    report.Check(Contradiction(required, reachable, CHECKER_MARGIN), InfeasibilityProof);
    report.Note(CertificateSize);
  }

  /** The two checkers agree one way: whatever the solver's own checker accepts, this one does. */
  lemma CheckersAgree(m: Model, y: seq<real>)
    requires m.Valid() && Proves(m, y)
    ensures SomeNonzero(y) && CheckerAccepts(m, y, CHECKER_ZERO, CHECKER_MARGIN)
  {
    var required, reachable := Required(m, y), Reachable(m, TransposeTimes(m, y), ZeroLevel(m, y, ZERO_DROP));
    var comparison := Max4(1.0, Abs(required), Abs(reachable), TermScale(m, y));
    var scale := Max(Max(1.0, Abs(required)), Abs(reachable));
    assert scale <= comparison;
    assert CHECKER_MARGIN * scale <= PRIMAL_FEASIBILITY * comparison;
  }

  /** Soundness of this checker: nothing dropped, an accepted certificate proves infeasibility. */
  lemma CheckerIsSound(m: Model, y: seq<real>, zeroDrop: real, margin: real)
    requires m.Valid() && |y| == m.numRows && zeroDrop >= 0.0 && margin >= 0.0
    requires CheckerAccepts(m, y, zeroDrop, margin) && NothingDropped(m, y, zeroDrop)
    ensures LpModel.Infeasible(m)
  {
    hide Required, Reachable, TransposeTimes, TermScale;
    var d, zero := TransposeTimes(m, y), ZeroLevel(m, y, zeroDrop);
    forall x | Feasible(m, x) ensures false {
      RequiredIsForced(m, y, x);
      BoxAllows(m, d, x, zero);
      SumToZero(DroppedTerms(d, x, zero), |x|);
    }
  }

  /** At the checker's own thresholds: a feasible point hidden by the coefficients read as zero
      is far away in those columns, measured against the largest term of the certificate. */
  lemma CheckedMeansFarAway(m: Model, y: seq<real>, x: seq<real>)
    requires m.Valid() && |y| == m.numRows && CheckerAccepts(m, y, CHECKER_ZERO, CHECKER_MARGIN) && Feasible(m, x)
    ensures Mul(DroppedNorm(TransposeTimes(m, y), x, ZeroLevel(m, y, CHECKER_ZERO)), Max(1.0, TermScale(m, y))) > 100.0
  {
    hide RowsPriced, ColumnsBounded, Required, Reachable, DroppedNorm, TermScale;
    var d, zero := TransposeTimes(m, y), ZeroLevel(m, y, CHECKER_ZERO);
    RequiredIsForced(m, y, x);
    BoxAllows(m, d, x, zero);
    var s, norm := Max(1.0, TermScale(m, y)), DroppedNorm(d, x, zero);
    Regroup(CHECKER_ZERO, s, norm);
    CheckedMarginBeatsDrop(Required(m, y), Reachable(m, d, zero), Mul(norm, s));
  }

  lemma CheckedMarginBeatsDrop(required: real, reachable: real, product: real)
    requires Contradiction(required, reachable, CHECKER_MARGIN)
    requires required <= reachable + CHECKER_ZERO * product
    ensures product > 100.0
  {
    assert required - reachable > CHECKER_MARGIN;
  }

  lemma Regroup(a: real, s: real, norm: real)
    ensures (a * s) * norm == a * Mul(norm, s)
  {
  }
}
