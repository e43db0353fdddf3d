/** Subsystems of a model: a row (both its bounds), a column's lower bound or its upper bound
    is one element, and an irreducible infeasible subsystem is a set of them. */
module Elements {
  import opened Vectors
  import opened LpModel
  import opened Farkas
  import Quadratic

  datatype Element = Row(i: nat) | ColLower(j: nat) | ColUpper(j: nat)

  predicate Exists(m: Model, e: Element) {
    match e
    case Row(i) => i < m.numRows
    case ColLower(j) => j < |m.cols|
    case ColUpper(j) => j < |m.cols|
  }

  /** The value a point gives an element, and the bounds it is held to. */
  function Value(m: Model, e: Element, x: seq<real>): real
    requires m.Valid() && Exists(m, e) && |x| == |m.cols|
  {
    match e
    case Row(i) => Times(m, x)[i]
    case ColLower(j) => x[j]
    case ColUpper(j) => x[j]
  }

  function Lower(m: Model, e: Element): Bound
    requires m.Valid() && Exists(m, e)
  {
    match e
    case Row(i) => m.rowLower[i]
    case ColLower(j) => m.colLower[j]
    case ColUpper(_) => NegInf
  }

  function Upper(m: Model, e: Element): Bound
    requires m.Valid() && Exists(m, e)
  {
    match e
    case Row(i) => m.rowUpper[i]
    case ColLower(_) => PosInf
    case ColUpper(j) => m.colUpper[j]
  }

  predicate Satisfies(m: Model, e: Element, x: seq<real>)
    requires m.Valid() && Exists(m, e) && |x| == |m.cols|
  {
    Within(Lower(m, e), Value(m, e, x), Upper(m, e))
  }

  ghost predicate SatisfiesAll(m: Model, s: set<Element>, x: seq<real>)
    requires m.Valid()
  {
    |x| == |m.cols| && forall e :: e in s && Exists(m, e) ==> Satisfies(m, e, x)
  }

  /** No point satisfies every element, and any proper part of them has one that does. */
  ghost predicate IsIis(m: Model, s: set<Element>)
    requires m.Valid()
  {
    && (forall e :: e in s ==> Exists(m, e))
    && (forall x :: !SatisfiesAll(m, s, x))
    && (forall part: set<Element> :: part < s ==> exists x :: SatisfiesAll(m, part, x))
  }

  /** `w` shows that `e` is needed: it satisfies every other element, and not `e`. */
  ghost predicate IsWitness(m: Model, s: set<Element>, e: Element, w: seq<real>)
    requires m.Valid()
  {
    e in s && Exists(m, e) && SatisfiesAll(m, s - {e}, w) && !Satisfies(m, e, w)
  }

  /** An infeasible set all of whose elements have evidence of necessity is irreducible. */
  lemma WitnessedIsIis(m: Model, s: set<Element>)
    requires m.Valid() && (forall e :: e in s ==> Exists(m, e))
    requires forall x :: !SatisfiesAll(m, s, x)
    requires forall e :: e in s ==> exists w :: SatisfiesAll(m, s - {e}, w)
    ensures IsIis(m, s)
  {
    forall part: set<Element> | part < s ensures exists x :: SatisfiesAll(m, part, x) {
      var e :| e in s && e !in part;
      var w :| SatisfiesAll(m, s - {e}, w);
      assert SatisfiesAll(m, part, w);
    }
  }

  /** The model with every bound outside `s` removed and the objective cleared. */
  function Relaxed(m: Model, s: set<Element>): (r: Model)
    requires m.Valid()
    ensures r.Valid() && r.cols == m.cols && r.numRows == m.numRows
  {
    m.(rowLower := seq(m.numRows, i requires 0 <= i < m.numRows => if Row(i) in s then m.rowLower[i] else NegInf),
       rowUpper := seq(m.numRows, i requires 0 <= i < m.numRows => if Row(i) in s then m.rowUpper[i] else PosInf),
       colLower := seq(|m.cols|, j requires 0 <= j < |m.cols| => if ColLower(j) in s then m.colLower[j] else NegInf),
       colUpper := seq(|m.cols|, j requires 0 <= j < |m.cols| => if ColUpper(j) in s then m.colUpper[j] else PosInf),
       colCost := Zeros(|m.cols|),
       offset := 0.0)
  }

  /** The relaxed model's feasible points are the points that satisfy the set. */
  lemma RelaxedMeansSatisfies(m: Model, s: set<Element>, x: seq<real>)
    requires m.Valid()
    ensures Feasible(Relaxed(m, s), x) <==> SatisfiesAll(m, s, x)
  {
    var r := Relaxed(m, s);
    if |x| == |m.cols| {
      SameProducts(m, r, x);
      if SatisfiesAll(m, s, x) {
        forall j | 0 <= j < |x| ensures Within(r.colLower[j], x[j], r.colUpper[j]) {
          assert ColLower(j) in s ==> Satisfies(m, ColLower(j), x);
          assert ColUpper(j) in s ==> Satisfies(m, ColUpper(j), x);
        }
        forall i | 0 <= i < m.numRows ensures Within(r.rowLower[i], Times(r, x)[i], r.rowUpper[i]) {
          assert Row(i) in s ==> Satisfies(m, Row(i), x);
        }
      }
      if Feasible(r, x) {
        forall e | e in s && Exists(m, e) ensures Satisfies(m, e, x) {
          match e
          case Row(i) => assert Within(r.rowLower[i], Times(r, x)[i], r.rowUpper[i]);
          case ColLower(j) => assert Within(r.colLower[j], x[j], r.colUpper[j]);
          case ColUpper(j) => assert Within(r.colLower[j], x[j], r.colUpper[j]);
        }
      }
    }
  }

  /** For a linear model the relaxed one is a pure feasibility question: all its feasible points are optimal. */
  lemma RelaxedAsksOnlyForFeasibility(m: Model, s: set<Element>, x: seq<real>)
    requires m.Valid() && m.hessian == []
    ensures Feasible(Relaxed(m, s), x) <==> Quadratic.IsOptimal(Relaxed(m, s), x)
  {
    hide Feasible, DotTo;
    var r := Relaxed(m, s);
    forall z | Feasible(r, z) ensures |z| == |r.cols| && Quadratic.MinimiseObjective(r, z) == 0.0 {
      FeasibleLength(r, z);
      Quadratic.LinearObjective(r, z);
      DotToCommutes(r.colCost, z, |z|);
      DotToZero(z, r.colCost, |z|);
    }
  }

  lemma FeasibleLength(m: Model, x: seq<real>)
    requires m.Valid() && Feasible(m, x)
    ensures |x| == |m.cols|
  {
  }

  // ---- Certificates of a subsystem ----------------------------------------------------

  /** The certificate uses only rows of the set, and its aggregate leans only on its bounds. */
  predicate SupportInside(m: Model, y: seq<real>, s: set<Element>, zeroDrop: real)
    requires m.Valid() && |y| == m.numRows
  {
    var d, zero := TransposeTimes(m, y), ZeroLevel(m, y, zeroDrop);
    && (forall i :: 0 <= i < m.numRows && y[i] != 0.0 ==> Row(i) in s)
    && (forall j :: 0 <= j < |m.cols| && d[j] > zero ==> ColUpper(j) in s)
    && (forall j :: 0 <= j < |m.cols| && d[j] < -zero ==> ColLower(j) in s)
  }

  lemma {:induction false} ScaleSameColumns(m: Model, r: Model, y: seq<real>, j: nat, from: real)
    requires m.Valid() && r.Valid() && m.cols == r.cols && m.numRows == r.numRows && |y| == m.numRows && j <= |m.cols|
    ensures ScaleTo(m, y, j, from) == ScaleTo(r, y, j, from)
    ensures TransposeTimes(m, y) == TransposeTimes(r, y)
  {
    if j > 0 { ScaleSameColumns(m, r, y, j - 1, from); }
    assert TransposeTimes(m, y) == TransposeTimes(r, y);
  }

  /** A certificate whose rows and bounds are real in the relaxed model has its support inside. */
  lemma LeansOnlyInside(m: Model, s: set<Element>, y: seq<real>, zeroDrop: real)
    requires m.Valid() && |y| == m.numRows
    requires var r := Relaxed(m, s);
      RowsPriced(r, y) && ColumnsBounded(r, TransposeTimes(r, y), ZeroLevel(r, y, zeroDrop))
    ensures SupportInside(m, y, s, zeroDrop)
  {
    hide TransposeTimes, ScaleTo, Max;
    var r := Relaxed(m, s);
    ScaleSameColumns(m, r, y, |m.cols|, 0.0);
    var d, zero := TransposeTimes(m, y), ZeroLevel(m, y, zeroDrop);
    forall i | 0 <= i < m.numRows && y[i] != 0.0 ensures Row(i) in s {
      assert PricesRealBound(y[i], r.rowLower[i], r.rowUpper[i]);
    }
    forall j | 0 <= j < |m.cols|
      ensures (d[j] > zero ==> ColUpper(j) in s) && (d[j] < -zero ==> ColLower(j) in s)
    {
      assert ColumnBounded(d[j], r.colLower[j], r.colUpper[j], zero);
    }
  }

  /** With its support inside the set, a certificate aggregates alike in both models. */
  lemma SameAggregate(m: Model, s: set<Element>, y: seq<real>, zeroDrop: real)
    requires m.Valid() && |y| == m.numRows && SupportInside(m, y, s, zeroDrop) && zeroDrop >= 0.0
    ensures var r := Relaxed(m, s);
      && TransposeTimes(m, y) == TransposeTimes(r, y) && TermScale(m, y) == TermScale(r, y)
      && ZeroLevel(m, y, zeroDrop) == ZeroLevel(r, y, zeroDrop)
      && (RowsPriced(m, y) <==> RowsPriced(r, y)) && Required(m, y) == Required(r, y)
      && var d, zero := TransposeTimes(m, y), ZeroLevel(m, y, zeroDrop);
         (ColumnsBounded(m, d, zero) <==> ColumnsBounded(r, d, zero)) && Reachable(m, d, zero) == Reachable(r, d, zero)
  {
    hide ScaleTo, BoundContribution, ColumnReach;
    var r := Relaxed(m, s);
    ScaleSameColumns(m, r, y, |m.cols|, 0.0);
    var d, zero := TransposeTimes(m, y), ZeroLevel(m, y, zeroDrop);
    forall i | 0 <= i < m.numRows
      ensures PricesRealBound(y[i], m.rowLower[i], m.rowUpper[i])
        <==> PricesRealBound(y[i], r.rowLower[i], r.rowUpper[i])
      ensures RowTerms(m, y)[i] == RowTerms(r, y)[i]
    {
      if y[i] == 0.0 { UnusedRow(y[i], m.rowLower[i], m.rowUpper[i], r.rowLower[i], r.rowUpper[i]); }
    }
    assert RowTerms(m, y) == RowTerms(r, y);
    forall j | 0 <= j < |d|
      ensures ColumnBounded(d[j], m.colLower[j], m.colUpper[j], zero)
        <==> ColumnBounded(d[j], r.colLower[j], r.colUpper[j], zero)
      ensures ReachTerms(m, d, zero)[j] == ReachTerms(r, d, zero)[j]
    {
      UnusedBounds(d[j], m.colLower[j], m.colUpper[j], r.colLower[j], r.colUpper[j], zero);
    }
    assert ReachTerms(m, d, zero) == ReachTerms(r, d, zero);
  }

  lemma UnusedRow(yi: real, lo: Bound, hi: Bound, lo': Bound, hi': Bound)
    requires yi == 0.0
    ensures PricesRealBound(yi, lo, hi) && PricesRealBound(yi, lo', hi')
    ensures BoundContribution(yi, lo, hi) == BoundContribution(yi, lo', hi')
  {
  }

  /** Only the bound a coefficient prefers matters. */
  lemma UnusedBounds(dj: real, lo: Bound, hi: Bound, lo': Bound, hi': Bound, zero: real)
    requires zero >= 0.0 && (dj > zero ==> hi == hi') && (dj < -zero ==> lo == lo')
    ensures ColumnBounded(dj, lo, hi, zero) <==> ColumnBounded(dj, lo', hi', zero)
    ensures ColumnReach(dj, lo, hi, zero) == ColumnReach(dj, lo', hi', zero)
  {
  }
}
