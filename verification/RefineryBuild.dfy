/** Building the refinery instance: the columns and rows that hold at the plan, then the prices
    that make the plan optimal. */
module RefineryBuild {
  import opened Vectors
  import opened LpModel
  import opened Grids
  import opened Refinery
  import opened RefineryPlan
  import opened RefineryColumns
  import opened RefineryRows
  import opened RefineryMeaning
  import RowLp

  // ---- Writing the rows ---------------------------------------------------------------------------

  function WithRows(b: Book, rows: seq<Row>): Book {
    b.(rows := b.rows + rows, y := b.y + Zeros(|rows|))
  }

  lemma WithOneMore(b: Book, rows: seq<Row>, k: nat)
    requires k < |rows|
    ensures WithRows(b, rows[..k]).WithRow(rows[k]) == WithRows(b, rows[..k + 1])
  {
    assert b.rows + rows[..k + 1] == b.rows + rows[..k] + [rows[k]];
    assert b.y + Zeros(k + 1) == b.y + Zeros(k) + [0.0];
  }

  lemma WithTwo(b: Book, first: seq<Row>, second: seq<Row>)
    ensures WithRows(WithRows(b, first), second) == WithRows(b, first + second)
  {
    assert b.rows + first + second == b.rows + (first + second);
    assert b.y + Zeros(|first|) + Zeros(|second|) == b.y + Zeros(|first + second|);
  }

  lemma WithNone(b: Book)
    ensures WithRows(b, []) == b
  {
    assert b.rows + [] == b.rows && b.y + Zeros(0) == b.y;
  }

  /** {col_run[k][t]: c_k  for every k with c_k != 0} */
  method RunEntries(s: Size, t: nat, coefficients: seq<real>) returns (entries: seq<Entry>)
    ensures entries == RunEntriesTo(s, t, coefficients, |coefficients|)
  {
    entries := [];
    for k := 0 to |coefficients|
      invariant entries == RunEntriesTo(s, t, coefficients, k)
    {
      if coefficients[k] != 0.0 { entries := entries + [Entry(RunAt(s, t, k), coefficients[k])]; }
    }
  }

  method BuildRow(l: Layout, slacks: Slacks, t: nat, f: Family, i: nat) returns (row: Row)
    requires RowPlanned(l, t, f, i)
    ensures row == RowOf(l, slacks, t, f, i)
  {
    hide Start, RunEntriesTo, Dot, Size.Capacity, Products, Balance, Ones, Negated;
    hide BuyAt, RunAt, CrudeAt, MakeAt, SellAt, StockAt;
    var s, p := l.s, l.plan;
    match f {
      case Crude =>
        row := Balance(CrudeAt(s, t, i), BuyAt(s, t, i), RunAt(s, t, i), t, if t == 0 then 0
            else CrudeAt(s, t - 1, i), p.crudeStart[i]);
      case Distillation =>
        var entries := RunEntries(s, t, Ones(s.crudes));
        row := Row(AtMost, entries, s.Capacity());
      case Making =>
        var entries := RunEntries(s, t, Negated(l.data.recovery[i]));
        row := Row(Equal, [Entry(MakeAt(s, t, i), 1.0)] + entries, 0.0);
      case Product =>
        row := Balance(StockAt(s, t, i), MakeAt(s, t, i), SellAt(s, t, i), t, if t == 0 then 0
            else StockAt(s, t - 1, i), p.productStart[i]);
      case Unit =>
        var entries := RunEntries(s, t, l.data.loads[i]);
        var load := Evaluate(l.data.loads[i], p.run[t]);
        row := Row(AtMost, entries, load + slacks.unit(t, i) as real);
      case Quality =>
        var coefficients := Products(l.data.qualities[i], l.data.recovery[l.data.specProduct[i]]);
        var entries := RunEntries(s, t, coefficients);
        var blended := Evaluate(coefficients, p.run[t]);
        row := Row(AtMost, entries, blended + slacks.spec(t, i) as real / 100.0);
      case Commitment =>
        var j := l.data.commitProducts[i];
        row := Row(AtLeast, [Entry(SellAt(s, t, j), 1.0)], Max(0.0, p.sold[j][t] - slacks.commit(t, i) as real));
    }
  }

  method AddFamily(inst: Instance, l: Layout, slacks: Slacks, t: nat, f: Family)
    requires l.Valid() && t < l.s.periods
    modifies inst
    ensures inst.State() == WithRows(old(inst.State()), FamilyRows(l, slacks, t, f))
  {
    hide Layout.Valid, RowOf, RowPlanned, WithRows, FamilySize;
    ghost var b, rows := inst.State(), FamilyRows(l, slacks, t, f);
    FamilyIsPlanned(l, t, f);
    WithNone(b);
    assert rows[..0] == [];
    for i := 0 to FamilySize(l, f)
      invariant inst.State() == WithRows(b, rows[..i])
    {
      var row := BuildRow(l, slacks, t, f, i);
      WithOneMore(b, rows, i);
      var added := inst.AddRow(row);
    }
    assert rows[..|rows|] == rows;
  }

  method AddPeriodRows(inst: Instance, l: Layout, slacks: Slacks, t: nat)
    requires l.Valid() && t < l.s.periods
    modifies inst
    ensures inst.State() == WithRows(old(inst.State()), PeriodRows(l, slacks, t))
  {
    hide Layout.Valid, FamilyRows, WithRows;
    ghost var b := inst.State();
    AddFamily(inst, l, slacks, t, Crude);
    ghost var rows := FamilyRows(l, slacks, t, Crude);
    AddFamily(inst, l, slacks, t, Distillation);
    rows := Joined(b, rows, FamilyRows(l, slacks, t, Distillation));
    AddFamily(inst, l, slacks, t, Making);
    rows := Joined(b, rows, FamilyRows(l, slacks, t, Making));
    AddFamily(inst, l, slacks, t, Product);
    rows := Joined(b, rows, FamilyRows(l, slacks, t, Product));
    AddFamily(inst, l, slacks, t, Unit);
    rows := Joined(b, rows, FamilyRows(l, slacks, t, Unit));
    AddFamily(inst, l, slacks, t, Quality);
    rows := Joined(b, rows, FamilyRows(l, slacks, t, Quality));
    AddFamily(inst, l, slacks, t, Commitment);
    rows := Joined(b, rows, FamilyRows(l, slacks, t, Commitment));
  }

  lemma Joined(b: Book, first: seq<Row>, second: seq<Row>) returns (both: seq<Row>)
    ensures both == first + second
    ensures WithRows(WithRows(b, first), second) == WithRows(b, both)
  {
    both := first + second;
    WithTwo(b, first, second);
  }

  lemma {:induction false} RowsToOk(l: Layout, slacks: Slacks, b: Book, t: nat)
    requires l.Valid() && t <= l.s.periods && forall q :: 0 <= q < l.s.periods ==> PeriodColumns(l, slacks, b, q)
    ensures forall i :: 0 <= i < |RowsTo(l, slacks, t)| ==> RowOk(RowsTo(l, slacks, t)[i], b.x)
  {
    hide Layout.Valid, RowOk, RowOf, PeriodColumns, PeriodRows;
    if t > 0 {
      RowsToOk(l, slacks, b, t - 1);
      PeriodRowsOk(l, slacks, b, t - 1);
    }
  }

  lemma PeriodRowsOk(l: Layout, slacks: Slacks, b: Book, t: nat)
    requires l.Valid() && t < l.s.periods && forall q :: 0 <= q < l.s.periods ==> PeriodColumns(l, slacks, b, q)
    ensures forall i :: 0 <= i < |PeriodRows(l, slacks, t)| ==> RowOk(PeriodRows(l, slacks, t)[i], b.x)
  {
    hide Layout.Valid, RowOk, RowOf, RowPlanned, PeriodColumns;
    forall f, i | 0 <= i < FamilySize(l, f) ensures RowPlanned(l, t, f, i) && RowOk(RowOf(l, slacks, t, f, i), b.x) {
      RowIsOk(l, slacks, b, t, f, i);
    }
  }

  lemma HoldsWithRows(b: Book, rows: seq<Row>)
    requires b.Holds() && forall i :: 0 <= i < |rows| ==> RowOk(rows[i], b.x)
    ensures WithRows(b, rows).Holds()
  {
    hide RowHolds, ShortRow, DistinctKeys, ColumnOk;
  }

  /** The generator: a plan, the instance around it, and the prices that make it optimal. For
      every draw, no assertion of the construction fails, the self-check passes, every number
      prints exactly, the feasible points are the plans the refinery can follow, and the plan is
      optimal among them. */
  method Build(s: Size, data: Data, planDraws: PlanDraws, slacks: Slacks, priceDraws: PriceDraws)
    returns (inst: Instance, l: Layout)
    requires s.Valid() && data.Valid(s)
    ensures fresh(inst) && l.Valid() && l.s == s && l.data == data && l.plan.Drawn(s, planDraws)
      && TanksDrawn(l, slacks)
    ensures inst.State().Shaped() && |inst.cost| == |inst.x| == Start(s, s.periods)
    ensures inst.rows == RowsTo(l, slacks, s.periods)
    ensures forall t :: 0 <= t < s.periods ==> PeriodColumns(l, slacks, inst.State(), t)
    ensures RowsPriced(inst.State(), priceDraws) && ColumnsPriced(inst.State(), priceDraws)
    ensures TightRowsPriced(inst.State())
    ensures Passes(inst.State()) && Printable(inst.State())
    ensures forall z :: RowLp.Feasible(ToLp(inst.State()), z) <==> IsPlan(l, slacks, z)
    ensures RowLp.IsOptimal(ToLp(inst.State()), inst.x)
  {
    hide Plan.Crudes, Plan.Products, Plan.Drawn, TanksDrawn, RowsPriced, ColumnsPriced, Layout.Valid, PeriodRows,
      PeriodColumns, Passes, Printable, RowOk, RowLp.IsOptimal, RowLp.Feasible, IsPlan, TightRowsPriced, Book.Holds;
    var plan := MakePlan(s, data, planDraws);
    l := SizeTanks(s, data, plan, slacks);
    inst := new Instance();
    AddColumns(inst, l, slacks);
    ghost var columns := inst.State();
    WithNone(columns);
    for t := 0 to s.periods
      invariant inst.State() == WithRows(columns, RowsTo(l, slacks, t)) && fresh(inst)
    {
      WithTwo(columns, RowsTo(l, slacks, t), PeriodRows(l, slacks, t));
      AddPeriodRows(inst, l, slacks, t);
    }
    RowsToOk(l, slacks, columns, s.periods);
    HoldsWithRows(columns, RowsTo(l, slacks, s.periods));
    ghost var unpriced := inst.State();
    Price(inst, priceDraws);
    PricedStillHolds(unpriced, inst.State());
    PricedIsTight(inst.State(), priceDraws);
    SameColumns(l, slacks, columns, inst.State());
    PassingPlanIsOptimal(inst.State());
    forall z ensures RowLp.Feasible(ToLp(inst.State()), z) <==> IsPlan(l, slacks, z) {
      FeasibleIsPlan(l, slacks, inst.State(), z);
    }
  }

  lemma PricedStillHolds(b: Book, c: Book)
    requires b.Holds() && c == b.(y := c.y, cost := c.cost) && |c.y| == |c.rows|
    ensures c.Holds()
  {
    hide RowOk, ColumnOk;
  }

  lemma SameColumns(l: Layout, slacks: Slacks, b: Book, c: Book)
    requires b.x == c.x && b.upper == c.upper
    ensures forall t :: PeriodColumns(l, slacks, b, t) ==> PeriodColumns(l, slacks, c, t)
  {
    hide Start;
    forall t | PeriodColumns(l, slacks, b, t) ensures PeriodColumns(l, slacks, c, t) {
      forall q | 0 <= q < l.s.crudes ensures CrudeColumns(l, c, t, q) { assert CrudeColumns(l, b, t, q); }
      forall q | 0 <= q < l.s.products ensures ProductColumns(l, slacks, c, t, q) {
        assert ProductColumns(l, slacks, b, t, q);
      }
    }
  }
}
