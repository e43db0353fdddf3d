/** What a written and reread program means: its activities, feasible points, objective and
    optimality conditions are the original's. */
module MpsMeaning {
  import opened Prelude
  import opened Vectors
  import opened LpModel
  import opened RowLp
  import opened Mps
  import opened MpsRoundTrip
  import Kkt
  import Quadratic
  import OptimalityChecks
  import OptimalityTheorems
  import Robustness
  import Scaling

  /** The checkers' model of what was read. */
  function ModelOf(m: Read): Model {
    Model(|m.rowLower|, m.entries, m.cost, m.offset, false, m.lower, m.upper, m.rowLower, m.rowUpper, [])
  }

  // ---- Coefficients, however they are stored ----------------------------------------------

  lemma AddedProducts(c: real, v: real, t: real)
    ensures Mul(c + v, t) == Mul(c, t) + Mul(v, t) && Mul(0.0, t) == 0.0
  {
  }

  lemma {:induction false} AddedAsCoefficient(out: seq<real>, row: seq<Entry>, t: real, k: nat, j: nat)
    requires k <= |row| && ValidColumn(row, |out|) && j < |out|
    ensures AddColumnTo(out, row, t, k)[j] == out[j] + Mul(Coefficient(row, j, k), t)
  {
    hide Mul;
    if k == 0 {
      AddedProducts(0.0, 0.0, t);
    } else {
      AddedAsCoefficient(out, row, t, k - 1, j);
      AddedProducts(Coefficient(row, j, k - 1), row[k - 1].val, t);
    }
  }

  lemma {:induction false} EntriesOfConcat(a: seq<Pair>, b: seq<Pair>)
    ensures EntriesOf(a + b) == EntriesOf(a) + EntriesOf(b)
    decreases |b|
  {
    if b == [] {
      assert a + b == a;
    } else {
      assert (a + b)[..|a + b| - 1] == a + b[..|b| - 1];
      EntriesOfConcat(a, b[..|b| - 1]);
    }
  }

  lemma OneMore(earlier: seq<Pair>, i: nat, v: real)
    ensures EntriesOf(earlier + [RowPair(i, v)]) == EntriesOf(earlier) + [Entry(i, v)]
  {
    assert (earlier + [RowPair(i, v)])[..|earlier|] == earlier;
  }

  /** A row's share of a gathered column: its coefficient times the row's price. */
  lemma {:induction false} RowShare(row: seq<Entry>, i: nat, j: nat, k: nat, y: seq<real>)
    requires k <= |row| && i < |y|
    ensures ValidColumn(EntriesOf(PairsInRow(row, i, j, k)), |y|)
    ensures ColDot(EntriesOf(PairsInRow(row, i, j, k)), y) == Mul(Coefficient(row, j, k), y[i])
  {
    hide Mul, ColDot;
    if k == 0 {
      AddedProducts(0.0, 0.0, y[i]);
      NoEntries(y);
    } else {
      RowShare(row, i, j, k - 1, y);
      var e, earlier := row[k - 1], PairsInRow(row, i, j, k - 1);
      AddedProducts(Coefficient(row, j, k - 1), e.val, y[i]);
      if e.row == j && e.val != 0.0 {
        OneMore(earlier, i, e.val);
        ColDotAppend(EntriesOf(earlier), Entry(i, e.val), y);
      }
    }
  }

  lemma NoEntries(y: seq<real>)
    ensures ColDot([], y) == 0.0
  {
  }

  /** A gathered column times the prices is what the rows add up to in that column. */
  lemma {:induction false} GatheredColumn(p: Lp, j: nat, i: nat, y: seq<real>)
    requires p.Valid() && j < p.NumCols() && i <= |p.rows| == |y|
    ensures ValidColumn(EntriesOf(PairsTo(p, j, i)), |y|)
    ensures ColDot(EntriesOf(PairsTo(p, j, i)), y) == TimesTo(p.Transposed(), y, i)[j]
  {
    hide Mul, ColDot, PairsInRow, Coefficient, AddColumnTo;
    if i == 0 {
      CostHasNoEntry(p, j);
      NoEntries(y);
    } else {
      GatheredColumn(p, j, i - 1, y);
      var row := p.rows[i - 1];
      RowShare(row, i - 1, j, |row|, y);
      EntriesOfConcat(PairsTo(p, j, i - 1), PairsInRow(row, i - 1, j, |row|));
      ColDotConcat(EntriesOf(PairsTo(p, j, i - 1)), EntriesOf(PairsInRow(row, i - 1, j, |row|)), y);
      AddedAsCoefficient(TimesTo(p.Transposed(), y, i - 1), row, y[i - 1], |row|, j);
    }
  }

  lemma CostHasNoEntry(p: Lp, j: nat)
    requires p.Valid() && j < p.NumCols()
    ensures EntriesOf(PairsTo(p, j, 0)) == []
  {
    if p.cost[j] != 0.0 { assert [CostPair(p.cost[j])][..0] == []; }
  }

  // ---- The same matrix ----------------------------------------------------------------------

  /** The matrix of m, column by column, is that of p, row by row. */
  ghost predicate SameShape(p: Lp, m: Read)
    requires p.Valid()
  {
    && |m.rowLower| == |m.rowUpper| == |p.rows| && |m.lower| == |m.upper| == |m.cost| == |m.entries| == p.NumCols()
    && forall j :: 0 <= j < p.NumCols() ==> m.entries[j] == EntriesOf(ColumnOf(p, j))
  }

  lemma ReadIsValid(p: Lp, m: Read)
    requires p.Valid() && SameShape(p, m)
    ensures ModelOf(m).Valid()
  {
    forall j | 0 <= j < p.NumCols() ensures ValidColumn(m.entries[j], |p.rows|) {
      GatheredColumn(p, j, |p.rows|, Zeros(|p.rows|));
    }
  }

  /** A'y is the same from the columns that were read as from the rows that were written. */
  lemma SamePulled(p: Lp, m: Read, y: seq<real>)
    requires p.Valid() && SameShape(p, m) && ModelOf(m).Valid() && |y| == |p.rows|
    ensures TransposeTimes(ModelOf(m), y) == Pulled(p, y)
  {
    hide ColDot, TimesTo, PairsTo;
    forall j | 0 <= j < p.NumCols() ensures TransposeTimes(ModelOf(m), y)[j] == Pulled(p, y)[j] {
      GatheredColumn(p, j, |p.rows|, y);
      PulledUnfolds(p, y);
    }
  }

  lemma {:induction false} DotUnit(v: seq<real>, i: nat, k: nat)
    requires i < |v| && k <= |v|
    ensures DotTo(Unit(i, |v|), v, k) == if i < k then v[i] else 0.0
  {
    if k > 0 { DotUnit(v, i, k - 1); }
  }

  /** A x is the same, row by row: both sums are adjoint to the same A'y. */
  lemma SameActivities(p: Lp, m: Read, x: seq<real>)
    requires p.Valid() && SameShape(p, m) && ModelOf(m).Valid() && |x| == p.NumCols()
    ensures Times(ModelOf(m), x) == Activities(p, x)
  {
    hide Times, TransposeTimes, Dot, Pulled, Activities;
    var a, b := Times(ModelOf(m), x), Activities(p, x);
    forall i | 0 <= i < |p.rows| ensures a[i] == b[i] {
      var e := Unit(i, |p.rows|);
      SamePulled(p, m, e);
      AdjointOfModel(ModelOf(m), e, x);
      AdjointOfRows(p, e, x);
      UnitPicks(a, i);
      UnitPicks(b, i);
    }
  }

  lemma UnitPicks(v: seq<real>, i: nat)
    requires i < |v|
    ensures Dot(Unit(i, |v|), v) == v[i]
  {
    DotUnit(v, i, |v|);
  }

  lemma AdjointOfModel(m: Model, y: seq<real>, x: seq<real>)
    requires m.Valid() && |y| == m.numRows && |x| == |m.cols|
    ensures Dot(y, Times(m, x)) == Dot(TransposeTimes(m, y), x)
  {
    SumSwap(m, y, x);
  }

  lemma AdjointOfRows(p: Lp, y: seq<real>, x: seq<real>)
    requires p.Valid() && |y| == |p.rows| && |x| == p.NumCols()
    ensures Dot(y, Activities(p, x)) == Dot(Pulled(p, y), x)
  {
    hide Times, TransposeTimes;
    SumSwap(p.Transposed(), x, y);
    DotToCommutes(y, Activities(p, x), |y|);
    DotToCommutes(x, Pulled(p, y), |x|);
  }

  // ---- The same program -----------------------------------------------------------------------

  /** Bounds in order and below 1e30, as the writer's callers produce. */
  predicate Moderate(p: Lp)
    requires p.Valid()
  {
    && AllModerate(p.rowLower) && AllModerate(p.rowUpper) && AllModerate(p.lower) && AllModerate(p.upper)
    && (forall i :: 0 <= i < |p.rows| ==> Ordered(p.rowLower[i], p.rowUpper[i]))
    && (forall j :: 0 <= j < p.NumCols() ==> Ordered(p.lower[j], p.upper[j]))
  }

  /** A restored program has the same activities, feasible points and objective. */
  lemma RestoredMeansTheSame(p: Lp, m: Read, x: seq<real>)
    requires p.Valid() && Moderate(p) && Restores(p, m)
    ensures ModelOf(m).Valid() && |ModelOf(m).cols| == p.NumCols()
    ensures |x| == p.NumCols() ==>
      Times(ModelOf(m), x) == Activities(p, x) && Quadratic.Objective(ModelOf(m), x) == RowLp.Objective(p, x)
    ensures LpModel.Feasible(ModelOf(m), x) <==> RowLp.Feasible(p, x)
  {
    hide Times, Activities, Dot, EntriesOf, ColumnOf;
    ModerateBoundsComeBack(p, m);
    ReadIsValid(p, m);
    if |x| == p.NumCols() {
      SameActivities(p, m, x);
      Quadratic.LinearObjective(ModelOf(m), x);
    }
  }

  /** So it has the same optimal points. */
  lemma RestoredHasTheSameOptima(p: Lp, m: Read, x: seq<real>)
    requires p.Valid() && Moderate(p) && Restores(p, m)
    ensures ModelOf(m).Valid() && (Quadratic.IsOptimal(ModelOf(m), x) <==> RowLp.IsOptimal(p, x))
  {
    hide Restores, Moderate, RowLp.Objective, RowLp.Feasible, Quadratic.MinimiseObjective, LpModel.Feasible, ModelOf;
    RestoredMeansTheSame(p, m, x);
    forall z | RowLp.Feasible(p, z)
      ensures |z| == p.NumCols() == |ModelOf(m).cols| && LpModel.Feasible(ModelOf(m), z)
      ensures Quadratic.MinimiseObjective(ModelOf(m), z) == RowLp.Objective(p, z)
    {
      RestoredPoint(p, m, z);
    }
    forall z | LpModel.Feasible(ModelOf(m), z) ensures RowLp.Feasible(p, z) { RestoredMeansTheSame(p, m, z); }
  }

  lemma RestoredPoint(p: Lp, m: Read, z: seq<real>)
    requires p.Valid() && Moderate(p) && Restores(p, m) && RowLp.Feasible(p, z) && ModelOf(m).Valid()
    ensures |z| == p.NumCols() == |ModelOf(m).cols| && LpModel.Feasible(ModelOf(m), z)
    ensures Quadratic.MinimiseObjective(ModelOf(m), z) == RowLp.Objective(p, z)
  {
    hide Quadratic.Objective, RowLp.Objective, Times, Activities;
    RestoredMeansTheSame(p, m, z);
    assert ModelOf(m).Sense() == 1.0;
  }

  // ---- Generated, written, read and verified ---------------------------------------------------

  /** The solution file that states a generated instance's own optimum. */
  function StatedPoint(p: Lp, x: seq<real>, y: seq<real>, expected: real): OptimalityChecks.Point
    requires p.Valid() && |x| == p.NumCols() && |y| == |p.rows|
  {
    OptimalityChecks.Point(x, Activities(p, x), y, Reduced(p, y), Some(expected))
  }

  lemma RestoredReduced(p: Lp, m: Read, x: seq<real>, y: seq<real>)
    requires p.Valid() && Moderate(p) && Restores(p, m) && |x| == p.NumCols() && |y| == |p.rows| && ModelOf(m).Valid()
    ensures Kkt.ReducedCosts(ModelOf(m), x, y) == Reduced(p, y)
  {
    hide Pulled, TransposeTimes, EntriesOf, ColumnOf;
    ModerateBoundsComeBack(p, m);
    SamePulled(p, m, y);
    forall j | 0 <= j < |x| ensures Kkt.ReducedCosts(ModelOf(m), x, y)[j] == Reduced(p, y)[j] {
      Kkt.ReducedCostAt(ModelOf(m), x, y, j);
    }
  }

  /** The optimality conditions of the program are those of the file. */
  lemma RestoredKkt(p: Lp, m: Read, x: seq<real>, y: seq<real>)
    requires p.Valid() && Moderate(p) && Restores(p, m)
    ensures ModelOf(m).Valid() && (Kkt.KktHolds(ModelOf(m), x, y) <==> RowLp.KktHolds(p, x, y))
  {
    hide Times, Activities, Reduced, Kkt.ReducedCosts, Kkt.AllTight, RowLp.Feasible, LpModel.Feasible, EntriesOf,
      ColumnOf,
      Quadratic.Objective, RowLp.Objective;
    RestoredMeansTheSame(p, m, x);
    Scaling.FeasibleLength(p, x);
    if RowLp.Feasible(p, x) && |y| == |p.rows| { RestoredReduced(p, m, x, y); }
    ModerateBoundsComeBack(p, m);
  }

  /** A restored program with the stated point of a program at tight prices passes every check. */
  lemma RestoredAcceptsStatedPoint(p: Lp, m: Read, x: seq<real>, y: seq<real>)
    requires p.Valid() && Moderate(p) && Restores(p, m) && RowLp.KktHolds(p, x, y)
    ensures ModelOf(m).Valid() && StatedPoint(p, x, y, RowLp.Objective(p, x)).Fits(ModelOf(m))
    ensures OptimalityChecks.Judge(ModelOf(m), StatedPoint(p, x, y, RowLp.Objective(p, x)),
      OptimalityChecks.EXACT).Accepts()
  {
    hide OptimalityChecks.Judge, Times, Activities, Reduced, Kkt.ReducedCosts, Kkt.AllTight, RowLp.Feasible, EntriesOf,
      ColumnOf,
      Quadratic.Objective, RowLp.Objective, Kkt.KktHolds;
    Scaling.FeasibleLength(p, x);
    var point, model := StatedPoint(p, x, y, RowLp.Objective(p, x)), ModelOf(m);
    RestoredKkt(p, m, x, y);
    RestoredMeansTheSame(p, m, x);
    RestoredReduced(p, m, x, y);
    ModerateBoundsComeBack(p, m);
    MinimisedAsStated(model, point);
    OptimalityTheorems.ExactAcceptanceIsKkt(model, point);
  }

  /** What is read from the written file of a program has the program's activities, feasible
      points and objective. */
  lemma RereadMeansTheSame(p: Lp, m: Read, x: seq<real>)
    requires p.Valid() && Moderate(p) && IsReread(p, m)
    ensures ModelOf(m).Valid() && |ModelOf(m).cols| == p.NumCols()
    ensures |x| == p.NumCols() ==>
      Times(ModelOf(m), x) == Activities(p, x) && Quadratic.Objective(ModelOf(m), x) == RowLp.Objective(p, x)
    ensures LpModel.Feasible(ModelOf(m), x) <==> RowLp.Feasible(p, x)
  {
    hide Restores, IsReread, LpModel.Feasible, RowLp.Feasible, Quadratic.Objective, RowLp.Objective, Ordered;
    RereadRestores(p, m);
    RestoredMeansTheSame(p, m, x);
  }

  /** And the same optimal points. */
  lemma RereadHasTheSameOptima(p: Lp, m: Read, x: seq<real>)
    requires p.Valid() && Moderate(p) && IsReread(p, m)
    ensures ModelOf(m).Valid() && (Quadratic.IsOptimal(ModelOf(m), x) <==> RowLp.IsOptimal(p, x))
  {
    hide Restores, IsReread, Quadratic.IsOptimal, RowLp.IsOptimal, Ordered;
    RereadRestores(p, m);
    RestoredHasTheSameOptima(p, m, x);
  }

  /** Any program at a point with tight prices, written, read back and judged at zero tolerance:
      the verifier accepts the file that states that point. */
  lemma StatedPointIsAccepted(p: Lp, m: Read, x: seq<real>, y: seq<real>)
    requires p.Valid() && Moderate(p) && IsReread(p, m) && RowLp.KktHolds(p, x, y)
    ensures ModelOf(m).Valid() && StatedPoint(p, x, y, RowLp.Objective(p, x)).Fits(ModelOf(m))
    ensures OptimalityChecks.Judge(ModelOf(m), StatedPoint(p, x, y, RowLp.Objective(p, x)),
      OptimalityChecks.EXACT).Accepts()
  {
    hide Restores, IsReread, OptimalityChecks.Judge, RowLp.Objective, Ordered, Activities, Reduced;
    RereadRestores(p, m);
    RestoredAcceptsStatedPoint(p, m, x, y);
  }

  /** In a linear minimisation the reported prices are the ones that are judged. */
  lemma MinimisedAsStated(m: Model, point: OptimalityChecks.Point)
    requires m.Valid() && point.Fits(m) && !m.maximize && m.hessian == []
    ensures OptimalityChecks.Prices(m, point) == point.rowDual && OptimalityChecks.Reduced(m, point) == point.colDual
  {
    assert m.Sense() == 1.0;
  }

  lemma GeneratedRowsAreOrdered(p: Lp)
    requires p.Valid() && Robustness.PositiveRows(p)
    ensures forall i :: 0 <= i < |p.rows| ==> Ordered(p.rowLower[i], p.rowUpper[i])
  {
  }

  lemma GeneratedIsModerate(p: Lp)
    requires p.Valid() && Robustness.PositiveRows(p) && AllModerate(p.rowLower)
    requires forall j :: 0 <= j < p.NumCols() ==> p.lower[j] == Fin(0.0) && p.upper[j] == PosInf
    ensures Moderate(p)
  {
  }

  /** What is read from a written file is a model the stated point is written for, whatever the
      sizes of its bounds. */
  lemma RereadFits(p: Lp, m: Read, x: seq<real>, y: seq<real>, expected: real)
    requires p.Valid() && IsReread(p, m) && |x| == p.NumCols() && |y| == |p.rows|
    requires forall i :: 0 <= i < |p.rows| ==> Ordered(p.rowLower[i], p.rowUpper[i])
    ensures ModelOf(m).Valid() && StatedPoint(p, x, y, expected).Fits(ModelOf(m))
  {
    hide IsReread, EntriesOf, ColumnOf, Ordered, Activities, Reduced;
    RereadRestores(p, m);
    ReadIsValid(p, m);
  }

  /** The generator, the writer, the reader and the verifier together. The instance and its prices
      are the drawn ones, the lines are those of its file, `read` is what the reader makes of them,
      and the verdict is the verifier's on that model and the stated optimum: it accepts. */
  method GenerateAndVerify(cols: nat, rows: nat, active: nat, draws: Robustness.Draws)
    returns (inst: Robustness.Instance, y: seq<real>, lines: seq<Line>, read: Read, verdict: OptimalityChecks.Verdict)
    requires cols >= 1 && 1 <= active <= rows
    ensures inst.lp.Valid() && inst.lp.NumCols() == cols && |inst.lp.rows| == rows && inst.active == active
    ensures Robustness.BuiltFrom(inst, y, draws) && inst.expected == RowLp.Objective(inst.lp, inst.xStar)
    ensures lines == Written(inst.lp) && IsReadFrom(lines, read)
    ensures var model, point := ModelOf(read), StatedPoint(inst.lp, inst.xStar, y, inst.expected);
      && model.Valid() && point.Fits(model)
      && verdict == OptimalityChecks.Judge(model, point, OptimalityChecks.EXACT)
    ensures AllModerate(inst.lp.rowLower) ==> verdict.Accepts()
  {
    hide OptimalityChecks.Judge, Restores, Moderate, Ordered, AllModerate, RowLp.KktHolds, RowLp.IsOptimal,
      RowLp.Feasible, RowLp.Objective, Written, IsReadFrom, Robustness.PositiveRows, Robustness.PointDrawn,
      Robustness.IsSparseOfDrawn, Activities, Reduced, StatedPoint;
    inst, y := Robustness.KktInstance(cols, rows, active, draws);
    GeneratedRowsAreOrdered(inst.lp);
    var parsed;
    lines, parsed := RoundTrip(inst.lp);
    read := parsed.value;
    RereadFits(inst.lp, read, inst.xStar, y, inst.expected);
    verdict := OptimalityChecks.Examine(ModelOf(read), StatedPoint(inst.lp, inst.xStar, y, inst.expected),
                                        OptimalityChecks.EXACT);
    if AllModerate(inst.lp.rowLower) {
      GeneratedIsModerate(inst.lp);
      StatedPointIsAccepted(inst.lp, read, inst.xStar, y);
    }
  }
}
