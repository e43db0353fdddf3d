/** The independent checker's test of an irreducible subsystem, and the end-to-end results
    that join it to the deletion filter. */
module IisChecks {
  import opened Vectors
  import opened LpModel
  import opened Farkas
  import opened Elements
  import opened Reports
  import opened CertificateChecks
  import DeletionFilter

  /** Relative distance outside [lo, hi], zero inside. */
  function Violation(value: real, lo: Bound, hi: Bound): real {
    var below := if lo.Fin? then lo.v - value else 0.0;
    var above := if hi.Fin? then value - hi.v else 0.0;
    var worst := Max(Max(below, above), 0.0);
    worst / Max(Max(1.0, Abs(value)), Max(if lo.Fin? then Abs(lo.v) else 0.0, if hi.Fin? then Abs(hi.v) else 0.0))
  }

  /** Neither bound is an infinity on the wrong side. */
  predicate Upright(lo: Bound, hi: Bound) { !lo.PosInf? && !hi.NegInf? }

  lemma ViolationIsZeroInside(value: real, lo: Bound, hi: Bound)
    ensures Violation(value, lo, hi) >= 0.0
    ensures Within(lo, value, hi) ==> Violation(value, lo, hi) == 0.0
    ensures Upright(lo, hi) && !Within(lo, value, hi) ==> Violation(value, lo, hi) > 0.0
  {
  }

  function ElementViolation(m: Model, e: Element, x: seq<real>): real
    requires m.Valid() && Exists(m, e) && |x| == |m.cols|
  {
    Violation(Value(m, e, x), Lower(m, e), Upper(m, e))
  }

  /** A witness passes: it keeps to every other element and violates its own. */
  predicate WitnessPasses(m: Model, iis: seq<Element>, e: Element, x: seq<real>, tol: real)
    requires m.Valid() && |x| == |m.cols| && forall o :: o in iis ==> Exists(m, o)
  {
    forall o :: o in iis ==> (ElementViolation(m, o, x) > tol <==> o == e)
  }

  predicate AllWitnessesPass(m: Model, claim: Claim, tol: real)
    requires m.Valid()
    requires RowsExist(m, claim) && ColumnsExist(m, claim) && WitnessesPresent(claim)
  {
    forall e :: e in claim.iis ==> WitnessPasses(m, claim.iis, e, Spread(claim.witnesses[e], |m.cols|), tol)
  }

  function ElementSet(es: seq<Element>): set<Element> { set e | e in es }

  predicate RowsExist(m: Model, claim: Claim) { forall e :: e in claim.iis && e.Row? ==> Exists(m, e) }

  predicate ColumnsExist(m: Model, claim: Claim) { forall e :: e in claim.iis && !e.Row? ==> Exists(m, e) }

  predicate WitnessesPresent(claim: Claim) { forall e :: e in claim.iis ==> e in claim.witnesses }

  predicate CertificateInside(m: Model, claim: Claim, zeroDrop: real)
    requires m.Valid()
  {
    var y := Spread(claim.farkas, m.numRows);
    SomeNonzero(y) && SupportInside(m, y, ElementSet(claim.iis), zeroDrop)
  }

  /** The lines about witnesses: none is judged unless all are there. */
  function WitnessLines(m: Model, claim: Claim, tol: real): (lines: seq<Line>)
    requires m.Valid() && RowsExist(m, claim) && ColumnsExist(m, claim)
    ensures AllPass(lines) <==> WitnessesPresent(claim) && AllWitnessesPass(m, claim, tol)
  {
    if !WitnessesPresent(claim) then
      var lines := [Line(false, IisWitnessesPresent)];
      assert !lines[0].ok;
      lines
    else
      var lines := [Line(true, IisWitnessesPresent), Line(AllWitnessesPass(m, claim, tol), IisIsIrreducible)];
      assert lines[1].ok == AllWitnessesPass(m, claim, tol);
      lines
  }

  function PropertyLines(m: Model, claim: Claim, zeroDrop: real, tol: real): (lines: seq<Line>)
    requires m.Valid() && RowsExist(m, claim) && ColumnsExist(m, claim)
    ensures AllPass(lines) <==>
      (claim.irreducible ==>
          CertificateInside(m, claim, zeroDrop) && WitnessesPresent(claim) && AllWitnessesPass(m, claim, tol))
  {
    if !claim.irreducible then [Line(true, IisProperties)]
    else
      PassCons(Line(CertificateInside(m, claim, zeroDrop), IisIsInfeasibleOnItsOwn), WitnessLines(m, claim, tol));
      [Line(CertificateInside(m, claim, zeroDrop), IisIsInfeasibleOnItsOwn)] + WitnessLines(m, claim, tol)
  }

  function ColumnLines(m: Model, claim: Claim, zeroDrop: real, tol: real): (lines: seq<Line>)
    requires m.Valid() && RowsExist(m, claim)
    ensures AllPass(lines) <==> ColumnsExist(m, claim) && AllPass(PropertyLines(m, claim, zeroDrop, tol))
  {
    if !ColumnsExist(m, claim) then
      PassCons(Line(false, IisColumnsExistInModel), []);
      [Line(false, IisColumnsExistInModel)] + []
    else
      PassCons(Line(true, IisColumnsExistInModel), PropertyLines(m, claim, zeroDrop, tol));
      [Line(true, IisColumnsExistInModel)] + PropertyLines(m, claim, zeroDrop, tol)
  }

  function RowLines(m: Model, claim: Claim, zeroDrop: real, tol: real): (lines: seq<Line>)
    requires m.Valid()
    ensures AllPass(lines) <==> RowsExist(m, claim) && AllPass(ColumnLines(m, claim, zeroDrop, tol))
  {
    if !RowsExist(m, claim) then
      PassCons(Line(false, IisRowsExistInModel), []);
      [Line(false, IisRowsExistInModel)] + []
    else
      PassCons(Line(true, IisRowsExistInModel), ColumnLines(m, claim, zeroDrop, tol));
      [Line(true, IisRowsExistInModel)] + ColumnLines(m, claim, zeroDrop, tol)
  }

  /** The lines the IIS check appends; a failed structural line ends it. */
  function IisLines(m: Model, claim: Claim, zeroDrop: real, tol: real): (lines: seq<Line>)
    requires m.Valid()
    ensures claim.iis == [] <==> lines == []
    ensures claim.iis != [] ==> (AllPass(lines) <==> AllPass(RowLines(m, claim, zeroDrop, tol)))
  {
    if claim.iis == [] then []
    else
      PassCons(Line(true, Iis), RowLines(m, claim, zeroDrop, tol));
      [Line(true, Iis)] + RowLines(m, claim, zeroDrop, tol)
  }

  /** What passing lines establish, when irreducibility is claimed. */
  predicate IisAccepted(m: Model, claim: Claim, zeroDrop: real, tol: real)
    requires m.Valid()
  {
    && RowsExist(m, claim) && ColumnsExist(m, claim) && WitnessesPresent(claim)
    && CertificateInside(m, claim, zeroDrop)
    && AllWitnessesPass(m, claim, tol)
  }

  lemma IisLinesPass(m: Model, claim: Claim, zeroDrop: real, tol: real)
    requires m.Valid() && claim.irreducible && claim.iis != []
    ensures AllPass(IisLines(m, claim, zeroDrop, tol)) <==> IisAccepted(m, claim, zeroDrop, tol)
  {
  }

  // ---- The check as a loop ------------------------------------------------------------

  /** Does the certificate's support lie inside? Lists what reaches outside. */
  method CheckInside(m: Model, y: seq<real>, s: set<Element>) returns (inside: bool)
    requires m.Valid() && |y| == m.numRows
    ensures inside == SupportInside(m, y, s, CHECKER_ZERO)
  {
    var outsideRows := 0;
    for i := 0 to m.numRows
      invariant outsideRows == 0 <==> forall k :: 0 <= k < i && y[k] != 0.0 ==> Row(k) in s
      invariant outsideRows >= 0
    {
      if y[i] != 0.0 && Row(i) !in s { outsideRows := outsideRows + 1; }
    }
    var d := AccumulateTranspose(m, y);
    var zero := AccumulateZero(m, y);
    var outsideBounds := 0;
    for j := 0 to |m.cols|
      invariant outsideBounds == 0 <==>
        forall l :: 0 <= l < j ==> (d[l] > zero ==> ColUpper(l) in s) && (d[l] < -zero ==> ColLower(l) in s)
      invariant outsideBounds >= 0
    {
      if d[j] > zero && ColUpper(j) !in s { outsideBounds := outsideBounds + 1; }
      else if d[j] < -zero && ColLower(j) !in s { outsideBounds := outsideBounds + 1; }
    }
    inside := outsideRows == 0 && outsideBounds == 0;
  }

  /** Count the failures of one element's witness against every element. */
  method CheckWitness(m: Model, iis: seq<Element>, e: Element, x: seq<real>, tol: real) returns (failures: nat)
    requires m.Valid() && |x| == |m.cols| && forall o :: o in iis ==> Exists(m, o)
    ensures failures == 0 <==> WitnessPasses(m, iis, e, x, tol)
  {
    failures := 0;
    var activity := AccumulateTimes(m, x);
    for k := 0 to |iis|
      invariant failures == 0 <==> forall l :: 0 <= l < k ==> (ElementViolation(m, iis[l], x) > tol <==> iis[l] == e)
    {
      var o := iis[k];
      assert o in iis;
      var v := match o
        case Row(i) => Violation(activity[i], m.rowLower[i], m.rowUpper[i])
        case ColLower(j) => Violation(x[j], m.colLower[j], PosInf)
        case ColUpper(j) => Violation(x[j], NegInf, m.colUpper[j]);
      if o == e && v <= tol { failures := failures + 1; }
      else if o != e && v > tol { failures := failures + 1; }
    }
  }

  method CheckWitnesses(m: Model, claim: Claim, tol: real) returns (ok: bool)
    requires m.Valid() && RowsExist(m, claim) && ColumnsExist(m, claim) && WitnessesPresent(claim)
    ensures ok == AllWitnessesPass(m, claim, tol)
  {
    var failures: nat := 0;
    for k := 0 to |claim.iis|
      invariant failures == 0 <==> forall l :: 0 <= l < k ==>
        WitnessPasses(m, claim.iis, claim.iis[l], Spread(claim.witnesses[claim.iis[l]], |m.cols|), tol)
    {
      var e := claim.iis[k];
      var f := CheckWitness(m, claim.iis, e, Spread(claim.witnesses[e], |m.cols|), tol);
      failures := failures + f;
    }
    ok := failures == 0;
  }

  method VerifyIis(m: Model, claim: Claim, report: Report, primalTol: real)
    requires m.Valid() && report.Valid()
    modifies report
    ensures report.Valid()
    ensures report.lines == old(report.lines) + IisLines(m, claim, CHECKER_ZERO, primalTol)
  {
    if claim.iis == [] { return; }
    report.Note(Iis);
    VerifyRows(m, claim, report, primalTol);
  }

  method VerifyRows(m: Model, claim: Claim, report: Report, primalTol: real)
    requires m.Valid() && report.Valid()
    modifies report
    ensures report.Valid()
    ensures report.lines == old(report.lines) + RowLines(m, claim, CHECKER_ZERO, primalTol)
  {
    report.Check(RowsExist(m, claim), IisRowsExistInModel);
    if !RowsExist(m, claim) { return; }
    VerifyColumns(m, claim, report, primalTol);
  }

  method VerifyColumns(m: Model, claim: Claim, report: Report, primalTol: real)
    requires m.Valid() && report.Valid() && RowsExist(m, claim)
    modifies report
    ensures report.Valid()
    ensures report.lines == old(report.lines) + ColumnLines(m, claim, CHECKER_ZERO, primalTol)
  {
    report.Check(ColumnsExist(m, claim), IisColumnsExistInModel);
    if !ColumnsExist(m, claim) { return; }
    VerifyProperties(m, claim, report, primalTol);
  }

  method VerifyProperties(m: Model, claim: Claim, report: Report, primalTol: real)
    requires m.Valid() && report.Valid() && RowsExist(m, claim) && ColumnsExist(m, claim)
    modifies report
    ensures report.Valid()
    ensures report.lines == old(report.lines) + PropertyLines(m, claim, CHECKER_ZERO, primalTol)
  {
    hide FailuresIn, AllWitnessesPass, SupportInside, Spread, WitnessesPresent;
    if !claim.irreducible {
      report.Note(IisProperties);
      return;
    }
    var y := Spread(claim.farkas, m.numRows);
    var inside := false;
    if SomeNonzero(y) { inside := CheckInside(m, y, ElementSet(claim.iis)); }
    report.Check(inside, IisIsInfeasibleOnItsOwn);
    report.Check(WitnessesPresent(claim), IisWitnessesPresent);
    if !WitnessesPresent(claim) { return; }
    var ok := CheckWitnesses(m, claim, primalTol);
    report.Check(ok, IisIsIrreducible);
  }

  // ---- End to end ---------------------------------------------------------------------

  /** The solution file written from a filter's outcome. */
  ghost predicate WrittenFrom(claim: Claim, m: Model, o: DeletionFilter.Outcome) {
    && Spread(claim.farkas, m.numRows) == o.farkasDual
    && claim.iis == o.Elements()
    && claim.irreducible == !o.inconclusive
    && (!o.inconclusive ==>
          |o.witnesses| == |claim.iis| && forall k :: 0 <= k < |claim.iis| ==>
            claim.iis[k] in claim.witnesses && Spread(claim.witnesses[claim.iis[k]], |m.cols|) == o.witnesses[k])
  }

  /** No row has an infinite bound on the wrong side. */
  predicate UprightRows(m: Model)
    requires m.Valid()
  {
    forall i :: 0 <= i < m.numRows ==> Upright(m.rowLower[i], m.rowUpper[i])
  }

  lemma ConclusiveWitnessPasses(m: Model, iis: seq<Element>, e: Element, w: seq<real>, tol: real)
    requires m.Valid() && tol >= 0.0
    requires (forall o :: o in iis ==> Exists(m, o)) && IsWitness(m, ElementSet(iis), e, w)
    requires e.ColLower? ==> m.colLower[e.j].Fin?
    requires e.ColUpper? ==> m.colUpper[e.j].Fin?
    ensures WitnessPasses(m, iis, e, w, tol) <==> ElementViolation(m, e, w) > tol
    ensures UprightRows(m) ==> ElementViolation(m, e, w) > 0.0
  {
    forall o | o in iis && o != e ensures ElementViolation(m, o, w) == 0.0 {
      assert Satisfies(m, o, w);
      ViolationIsZeroInside(Value(m, o, w), Lower(m, o), Upper(m, o));
    }
    assert e in iis;
    ViolationIsZeroInside(Value(m, e, w), Lower(m, e), Upper(m, e));
  }

  /** End to end: what the filter reports conclusively, the independent checker accepts, the
      certificate at the checker's own thresholds and the witnesses exactly when each leaves
      its own element by more than the tolerance. At zero tolerance they all do, unless a row
      has an infinite bound on the wrong side, which the checker reads as absent. */
  lemma ConclusiveIsAccepted(m: Model, y0: seq<real>, solve: DeletionFilter.Solver, o: DeletionFilter.Outcome,
                             claim: Claim, tol: real)
    requires m.Valid() && |y0| == m.numRows && tol >= 0.0
    requires DeletionFilter.FilterResult(m, y0, solve, o) && !o.inconclusive && WrittenFrom(claim, m, o)
    ensures AllPass(FarkasLines(m, Spread(claim.farkas, m.numRows), CHECKER_ZERO, CHECKER_MARGIN))
    ensures UprightRows(m) ==> AllPass(IisLines(m, claim, CHECKER_ZERO, 0.0))
    ensures AllPass(IisLines(m, claim, CHECKER_ZERO, tol)) <==>
      forall k :: 0 <= k < |claim.iis| ==>
        Exists(m, claim.iis[k]) && |o.witnesses[k]| == |m.cols|
            && ElementViolation(m, claim.iis[k], o.witnesses[k]) > tol
  {
    CheckersAgree(m, o.farkasDual);
    FarkasLinesPass(m, o.farkasDual, CHECKER_ZERO, CHECKER_MARGIN);
    if claim.iis != [] {
      ConclusiveStructure(m, o, claim);
      ConclusiveWitnesses(m, y0, solve, o, claim, tol);
      ConclusiveWitnesses(m, y0, solve, o, claim, 0.0);
      IisLinesPass(m, claim, CHECKER_ZERO, tol);
      IisLinesPass(m, claim, CHECKER_ZERO, 0.0);
    }
  }

  lemma ConclusiveStructure(m: Model, o: DeletionFilter.Outcome, claim: Claim)
    requires m.Valid() && DeletionFilter.Claims(m, o) && !o.inconclusive && WrittenFrom(claim, m, o)
    ensures RowsExist(m, claim) && ColumnsExist(m, claim) && WitnessesPresent(claim)
    ensures CertificateInside(m, claim, CHECKER_ZERO)
    ensures forall k :: 0 <= k < |claim.iis| ==> |o.witnesses[k]| == |m.cols|
  {
    hide Satisfies, Value, IsIis, RowsPriced, ColumnsBounded, ClearMargin;
    assert ElementSet(claim.iis) == o.ElementSet();
    forall k | 0 <= k < |claim.iis|
      ensures Exists(m, claim.iis[k]) && claim.iis[k] in claim.witnesses && |o.witnesses[k]| == |m.cols|
    {
      assert IsWitness(m, o.ElementSet(), claim.iis[k], o.witnesses[k]);
    }
  }

  lemma ConclusiveWitnesses(m: Model, y0: seq<real>, solve: DeletionFilter.Solver, o: DeletionFilter.Outcome,
                            claim: Claim, tol: real)
    requires m.Valid() && |y0| == m.numRows && tol >= 0.0
    requires DeletionFilter.FilterResult(m, y0, solve, o) && !o.inconclusive && WrittenFrom(claim, m, o)
    requires RowsExist(m, claim) && ColumnsExist(m, claim) && WitnessesPresent(claim)
    requires forall k :: 0 <= k < |claim.iis| ==> |o.witnesses[k]| == |m.cols|
    ensures UprightRows(m) ==> forall k :: 0 <= k < |claim.iis| ==>
      ElementViolation(m, claim.iis[k], o.witnesses[k]) > 0.0
    ensures AllWitnessesPass(m, claim, tol) <==>
      forall k :: 0 <= k < |claim.iis| ==> ElementViolation(m, claim.iis[k], o.witnesses[k]) > tol
  {
    hide Satisfies, Violation, Proves, IsIis, SupportInside;
    assert ElementSet(claim.iis) == o.ElementSet();
    forall k | 0 <= k < |claim.iis|
      ensures UprightRows(m) ==> ElementViolation(m, claim.iis[k], o.witnesses[k]) > 0.0
      ensures WitnessPasses(m, claim.iis, claim.iis[k], Spread(claim.witnesses[claim.iis[k]], |m.cols|), tol)
              <==> ElementViolation(m, claim.iis[k], o.witnesses[k]) > tol
    {
      var e := claim.iis[k];
      assert IsWitness(m, o.ElementSet(), e, o.witnesses[k]);
      assert e in DeletionFilter.Candidates(m, y0);
      assert DeletionFilter.IsCandidate(m, y0, e);
      ConclusiveWitnessPasses(m, claim.iis, e, o.witnesses[k], tol);
    }
  }

  /** The checker's own soundness: a certificate and witnesses it accepts at zero witness
      tolerance, with no nonzero aggregate coefficient dropped, prove that the listed elements
      are infeasible on their own. They are irreducible too, except that a row with an infinite
      bound on the wrong side, which no point satisfies, is so only by itself. */
  lemma AcceptedIsIrreducible(m: Model, claim: Claim, zeroDrop: real, margin: real)
    requires m.Valid() && zeroDrop >= 0.0 && margin >= 0.0 && claim.irreducible && claim.iis != []
    requires NothingDropped(m, Spread(claim.farkas, m.numRows), zeroDrop)
    requires AllPass(FarkasLines(m, Spread(claim.farkas, m.numRows), zeroDrop, margin))
    requires AllPass(IisLines(m, claim, zeroDrop, 0.0))
    ensures var s := ElementSet(claim.iis);
      && (forall e :: e in s ==> Exists(m, e)) && (forall x :: !SatisfiesAll(m, s, x))
      && (IsIis(m, s) <==> forall e :: e in s && !Upright(Lower(m, e), Upper(m, e)) ==> s == {e})
  {
    hide FarkasLines, IisLines, CheckerAccepts, SupportInside, NothingDropped, IsIis, Satisfies, AllPass,
      AllWitnessesPass, SatisfiesAll, Spread;
    var y, s := Spread(claim.farkas, m.numRows), ElementSet(claim.iis);
    AcceptedParts(m, claim, zeroDrop, margin);
    AcceptedSubsystemIsInfeasible(m, y, s, zeroDrop, margin);
    if e :| e in s && !Upright(Lower(m, e), Upper(m, e)) {
      ImpossibleIsIisAlone(m, s, e);
      if s == {e} { assert forall o :: o in s ==> o == e; }
    } else {
      WitnessesMakeIis(m, claim);
    }
  }

  /** What the two clean reports say, part by part. */
  lemma AcceptedParts(m: Model, claim: Claim, zeroDrop: real, margin: real)
    requires m.Valid() && claim.irreducible && claim.iis != []
    requires AllPass(FarkasLines(m, Spread(claim.farkas, m.numRows), zeroDrop, margin))
    requires AllPass(IisLines(m, claim, zeroDrop, 0.0))
    ensures RowsExist(m, claim) && ColumnsExist(m, claim) && WitnessesPresent(claim)
    ensures AllWitnessesPass(m, claim, 0.0)
    ensures var y := Spread(claim.farkas, m.numRows);
      CheckerAccepts(m, y, zeroDrop, margin) && SupportInside(m, y, ElementSet(claim.iis), zeroDrop)
  {
    hide FarkasLines, IisLines, CheckerAccepts, SupportInside, AllWitnessesPass, Spread, AllPass;
    IisLinesPass(m, claim, zeroDrop, 0.0);
    FarkasLinesPass(m, Spread(claim.farkas, m.numRows), zeroDrop, margin);
  }

  lemma WitnessesMakeIis(m: Model, claim: Claim)
    requires m.Valid() && RowsExist(m, claim) && ColumnsExist(m, claim) && WitnessesPresent(claim)
    requires AllWitnessesPass(m, claim, 0.0) && forall x :: !SatisfiesAll(m, ElementSet(claim.iis), x)
    requires forall e :: e in claim.iis ==> Upright(Lower(m, e), Upper(m, e))
    ensures IsIis(m, ElementSet(claim.iis))
  {
    var s := ElementSet(claim.iis);
    forall e | e in s ensures exists w :: SatisfiesAll(m, s - {e}, w) {
      var w := Spread(claim.witnesses[e], |m.cols|);
      assert WitnessPasses(m, claim.iis, e, w, 0.0);
      forall o | o in s - {e} ensures Satisfies(m, o, w) {
        assert !(ElementViolation(m, o, w) > 0.0);
        ViolationIsZeroInside(Value(m, o, w), Lower(m, o), Upper(m, o));
      }
      assert SatisfiesAll(m, s - {e}, w);
    }
    WitnessedIsIis(m, s);
  }

  /** An element no point satisfies makes a set irreducible only when it is the whole set. */
  lemma ImpossibleIsIisAlone(m: Model, s: set<Element>, e: Element)
    requires m.Valid() && (forall o :: o in s ==> Exists(m, o)) && (forall x :: !SatisfiesAll(m, s, x))
    requires e in s && !Upright(Lower(m, e), Upper(m, e))
    ensures IsIis(m, s) <==> s == {e}
  {
    forall x ensures !SatisfiesAll(m, {e}, x) {
      if |x| == |m.cols| { assert !Satisfies(m, e, x) && e in {e}; }
    }
    if s == {e} {
      forall part: set<Element> | part < s ensures exists x :: SatisfiesAll(m, part, x) {
        assert part == {};
        assert SatisfiesAll(m, part, Zeros(|m.cols|));
      }
    } else {
      assert {e} < s;
    }
  }

  lemma AcceptedSubsystemIsInfeasible(m: Model, y: seq<real>, s: set<Element>, zeroDrop: real, margin: real)
    requires m.Valid() && |y| == m.numRows && zeroDrop >= 0.0 && margin >= 0.0
    requires CheckerAccepts(m, y, zeroDrop, margin) && SupportInside(m, y, s, zeroDrop)
      && NothingDropped(m, y, zeroDrop)
    ensures forall x :: !SatisfiesAll(m, s, x)
  {
    var r := Relaxed(m, s);
    SameAggregate(m, s, y, zeroDrop);
    CheckerIsSound(r, y, zeroDrop, margin);
    forall x ensures !SatisfiesAll(m, s, x) { RelaxedMeansSatisfies(m, s, x); }
  }
}
