/** The list of PASS/FAIL lines a verification run appends to. */
module Reports {

  /** What a line is about, as printed by the verifier. */
  datatype CheckName =
    | InfeasibilityProof
    | CertificateUsesOnlyRealBounds
    | AggregateIsBoundedAbove
    | CertificateSize
    | IisWitnessesPresent
    | IisIsIrreducible
    | IisProperties
    | IisIsInfeasibleOnItsOwn
    | IisColumnsExistInModel
    | IisRowsExistInModel
    | Iis
    | Structure
    | ColumnBounds
    | Integrality
    | RowActivity
    | ActivityAgreement
    | ObjectiveValue
    | ReducedCostAgreement
    | DualFeasibilityColumns
    | DualFeasibilityRows
    | ComplementarySlackness
    | StrongDuality
    | UnboundednessProof
    | RayIsADirection
    | RayRespectsColumnBounds
    | RayRespectsRowBounds
    | RayImprovesObjective
    | RayDoesNotCurveBack

  datatype Line = Line(ok: bool, name: CheckName)

  function FailuresIn(lines: seq<Line>): nat {
    if lines == [] then 0
    else FailuresIn(lines[..|lines| - 1]) + (if lines[|lines| - 1].ok then 0 else 1)
  }

  predicate AllPass(lines: seq<Line>) { forall k :: 0 <= k < |lines| ==> lines[k].ok }

  class Report {
    var lines: seq<Line>
    var failures: nat

    ghost predicate Valid()
      reads this
    {
      failures == FailuresIn(lines)
    }

    constructor ()
      ensures Valid() && lines == []
    {
      lines, failures := [], 0;
    }

    method Check(ok: bool, name: CheckName)
      requires Valid()
      modifies this
      ensures Valid() && lines == old(lines) + [Line(ok, name)]
    {
      lines := lines + [Line(ok, name)];
      if !ok { failures := failures + 1; }
    }

    method Note(name: CheckName)
      requires Valid()
      modifies this
      ensures Valid() && lines == old(lines) + [Line(true, name)]
    {
      lines := lines + [Line(true, name)];
    }
  }

  /** A run is verified, with failure count zero, exactly when every line passed. */
  lemma {:induction false} NoFailuresIffAllPass(lines: seq<Line>)
    ensures FailuresIn(lines) == 0 <==> AllPass(lines)
  {
    if lines != [] {
      NoFailuresIffAllPass(lines[..|lines| - 1]);
    }
  }

  lemma PassCons(line: Line, rest: seq<Line>)
    ensures AllPass([line] + rest) <==> line.ok && AllPass(rest)
  {
    var all := [line] + rest;
    assert all[0] == line;
    assert forall k :: 0 <= k < |rest| ==> rest[k] == all[k + 1];
    if line.ok && AllPass(rest) {
      forall k | 0 <= k < |all| ensures all[k].ok { if k > 0 { assert all[k] == rest[k - 1]; } }
    }
  }
}
