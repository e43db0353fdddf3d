/** The rows of the refinery instance, family by family, and why each holds at the plan. */
module RefineryRows {
  import opened Vectors
  import opened LpModel
  import opened Grids
  import opened Refinery
  import opened RefineryPlan
  import opened RefineryColumns
  import RowLp

  // ---- Rows -----------------------------------------------------------------------------------

  /** stock - previous - in + out = 0, or = the initial stock in the first period. */
  function Balance(stock: nat, incoming: nat, outgoing: nat, t: nat, previous: nat, start: real): Row {
    var entries := [Entry(stock, 1.0), Entry(incoming, -1.0), Entry(outgoing, 1.0)];
    if t == 0 then Row(Equal, entries, start) else Row(Equal, entries + [Entry(previous, -1.0)], 0.0)
  }

  /** The coefficients of the throughputs of a period, leaving out the zeros. */
  function RunEntriesTo(s: Size, t: nat, coefficients: seq<real>, k: nat): (r: seq<Entry>)
    requires k <= |coefficients|
    ensures forall p :: 0 <= p < |r| ==> exists q :: 0 <= q < k && r[p] == Entry(RunAt(s, t, q), coefficients[q])
  {
    if k == 0 then []
    else
      var earlier := RunEntriesTo(s, t, coefficients, k - 1);
      if coefficients[k - 1] != 0.0 then earlier + [Entry(RunAt(s, t, k - 1), coefficients[k - 1])] else earlier
  }

  function Ones(n: nat): (r: seq<real>)
    ensures |r| == n && forall i :: 0 <= i < n ==> r[i] == 1.0
  {
    seq(n, _ => 1.0)
  }

  /** The rows of one period, by family. */
  datatype Family = Crude | Distillation | Making | Product | Unit | Quality | Commitment

  function FamilySize(l: Layout, f: Family): nat {
    match f
    case Crude => l.s.crudes
    case Distillation => 1
    case Making | Product => l.s.products
    case Unit => |l.data.loads|
    case Quality => |l.data.qualities|
    case Commitment => |l.data.commitProducts|
  }

  /** The quantities a row is built from are all there. */
  predicate RowPlanned(l: Layout, t: nat, f: Family, i: nat) {
    && i < FamilySize(l, f) && t < |l.plan.run| && |l.plan.run[t]| == l.s.crudes
    && match f
       case Crude => i < |l.plan.crudeStart|
       case Distillation => true
       case Making => i < |l.data.recovery| && |l.data.recovery[i]| == l.s.crudes
       case Product => i < |l.plan.productStart|
       case Unit => |l.data.loads[i]| == l.s.crudes
       case Quality =>
         && i < |l.data.specProduct| && l.data.specProduct[i] < |l.data.recovery|
         && |l.data.qualities[i]| == |l.data.recovery[l.data.specProduct[i]]| == l.s.crudes
       case Commitment =>
         l.data.commitProducts[i] < |l.plan.sold| && t < |l.plan.sold[l.data.commitProducts[i]]|
  }

  function RowOf(l: Layout, slacks: Slacks, t: nat, f: Family, i: nat): Row
    requires RowPlanned(l, t, f, i)
  {
    var s, p := l.s, l.plan;
    match f
    case Crude =>
      Balance(CrudeAt(s, t, i), BuyAt(s, t, i), RunAt(s, t, i), t, if t == 0 then 0
          else CrudeAt(s, t - 1, i), p.crudeStart[i])
    case Distillation => Row(AtMost, RunEntriesTo(s, t, Ones(s.crudes), s.crudes), s.Capacity())
    case Making =>
      Row(Equal, [Entry(MakeAt(s, t, i), 1.0)] + RunEntriesTo(s, t, Negated(l.data.recovery[i]), s.crudes), 0.0)
    case Product =>
      Balance(StockAt(s, t, i), MakeAt(s, t, i), SellAt(s, t, i), t, if t == 0 then 0
          else StockAt(s, t - 1, i), p.productStart[i])
    case Unit =>
      Row(AtMost, RunEntriesTo(s, t, l.data.loads[i], s.crudes),
          Dot(l.data.loads[i], p.run[t]) + slacks.unit(t, i) as real)
    case Quality =>
      var coefficients := Products(l.data.qualities[i], l.data.recovery[l.data.specProduct[i]]);
      Row(AtMost, RunEntriesTo(s, t, coefficients, s.crudes),
          Dot(coefficients, p.run[t]) + slacks.spec(t, i) as real / 100.0)
    case Commitment =>
      var j := l.data.commitProducts[i];
      Row(AtLeast, [Entry(SellAt(s, t, j), 1.0)], Max(0.0, p.sold[j][t] - slacks.commit(t, i) as real))
  }

  lemma PeriodIsPlanned(l: Layout, t: nat)
    requires l.Valid() && t < l.s.periods
    ensures t < |l.plan.run| && |l.plan.run[t]| == l.s.crudes && AllParts(l.plan.run[t], 1.0)
      && Sum(l.plan.run[t]) <= l.s.Capacity()
    ensures forall j :: 0 <= j < l.s.products ==> j < |l.plan.sold| && t < |l.plan.sold[j]|
  {
    hide Parts, Size.Capacity, Sum;
    var p := l.plan;
    assert CrudePeriod(l.s.crudes, l.s.Capacity(), Opening(p.crudeStart, p.crude, t), p.run[t], p.buy[t], p.crude[t]);
    forall j | 0 <= j < l.s.products ensures j < |p.sold| && t < |p.sold[j]| { LayoutProduct(l, t, j); }
  }

  lemma RowIsPlanned(l: Layout, t: nat, f: Family, i: nat)
    requires l.Valid() && t < l.s.periods && i < FamilySize(l, f)
    ensures RowPlanned(l, t, f, i)
  {
    PeriodIsPlanned(l, t);
    hide Parts, Sum, Size.Capacity, CrudeRun, ProductPlan, Layout.CrudeColumnsFit, Layout.ProductColumnsFit;
  }

  // ---- Every row holds at the plan --------------------------------------------------------------

  lemma ColDotLiteral(a: Entry, b: Entry, c: Entry, x: seq<real>)
    requires a.row < |x| && b.row < |x| && c.row < |x|
    ensures ColDot([a, b, c], x) == Term(a, x) + Term(b, x) + Term(c, x)
  {
    assert [a, b, c] == [] + [a] + [b] + [c];
    RowLp.ColDotAppend([], a, x);
    RowLp.ColDotAppend([] + [a], b, x);
    RowLp.ColDotAppend([] + [a] + [b], c, x);
  }

  lemma UnitTerms(c: nat, x: seq<real>)
    requires c < |x|
    ensures Term(Entry(c, 1.0), x) == x[c] && Term(Entry(c, -1.0), x) == -x[c]
  {
  }

  lemma UnitsAreShort()
    ensures Parts(1.0, 100000.0) && Parts(-1.0, 100000.0) && Parts(0.0, 100000.0)
  {
    WholeOf(100000);
    WholeOf(-100000);
    WholeOf(0);
  }

  /** A balance row says at any point what goes into the tank and what comes out of it. */
  lemma BalanceMeans(x: seq<real>, stock: nat, incoming: nat, outgoing: nat, t: nat, previous: nat, start: real)
    requires stock < |x| && incoming < |x| && outgoing < |x| && (t > 0 ==> previous < |x|)
    ensures var row := Balance(stock, incoming, outgoing, t, previous, start);
      ValidColumn(row.entries, |x|)
      && (RowHolds(row, x) <==> x[stock] == (if t == 0 then start else x[previous]) + x[incoming] - x[outgoing])
  {
    hide ColDot, Term;
    var a, b, c := Entry(stock, 1.0), Entry(incoming, -1.0), Entry(outgoing, 1.0);
    ColDotLiteral(a, b, c, x);
    UnitTerms(stock, x);
    UnitTerms(incoming, x);
    UnitTerms(outgoing, x);
    if t > 0 {
      RowLp.ColDotAppend([a, b, c], Entry(previous, -1.0), x);
      UnitTerms(previous, x);
    }
  }

  lemma BalanceHolds(x: seq<real>, stock: nat, incoming: nat, outgoing: nat, t: nat, previous: nat, start: real)
    requires stock < |x| && incoming < |x| && outgoing < |x| && (t > 0 ==> previous < |x|)
    requires stock != incoming && stock != outgoing && incoming != outgoing
    requires t > 0 ==> previous != stock && previous != incoming && previous != outgoing
    requires x[stock] == (if t == 0 then start else x[previous]) + x[incoming] - x[outgoing] && Parts(start, 100000.0)
    ensures RowOk(Balance(stock, incoming, outgoing, t, previous, start), x)
  {
    hide Parts, RowHolds;
    UnitsAreShort();
    BalanceMeans(x, stock, incoming, outgoing, t, previous, start);
  }

  lemma {:induction false} RunEntriesDot(s: Size, t: nat, coefficients: seq<real>, run: seq<real>, x: seq<real>, k: nat)
    requires k <= |coefficients| == |run| && forall q :: 0 <= q < |run| ==>
      RunAt(s, t, q) < |x| && x[RunAt(s, t, q)] == run[q]
    ensures ValidColumn(RunEntriesTo(s, t, coefficients, k), |x|)
    ensures ColDot(RunEntriesTo(s, t, coefficients, k), x) == DotTo(coefficients, run, k)
  {
    hide Mul, Start;
    if k > 0 {
      RunEntriesDot(s, t, coefficients, run, x, k - 1);
      var before, c := RunEntriesTo(s, t, coefficients, k - 1), coefficients[k - 1];
      if c != 0.0 {
        RowLp.ColDotAppend(before, Entry(RunAt(s, t, k - 1), c), x);
      } else {
        MulZero(run[k - 1]);
      }
    }
  }

  lemma {:induction false} RunEntriesDistinct(s: Size, t: nat, coefficients: seq<real>, k: nat)
    requires k <= |coefficients|
    ensures DistinctKeys(RunEntriesTo(s, t, coefficients, k))
    ensures forall p :: 0 <= p < |RunEntriesTo(s, t, coefficients, k)| ==>
      RunEntriesTo(s, t, coefficients, k)[p].row < Start(s, t) + 3 * k
  {
    hide Start;
    if k > 0 { RunEntriesDistinct(s, t, coefficients, k - 1); }
  }

  lemma RunEntriesShort(s: Size, t: nat, coefficients: seq<real>, k: nat)
    requires k <= |coefficients| && AllParts(coefficients, 100000.0)
    ensures forall p :: 0 <= p < |RunEntriesTo(s, t, coefficients, k)| ==>
      Parts(RunEntriesTo(s, t, coefficients, k)[p].val, 100000.0)
  {
    hide Parts, RunAt;
  }

  /** A capacity row over a period's throughputs holds when the right-hand side covers the load. */
  lemma CapacityRowOk(s: Size, t: nat, coefficients: seq<real>, run: seq<real>, x: seq<real>, rhs: real)
    requires |coefficients| == |run| == s.crudes && AllParts(coefficients, 100000.0) && Parts(rhs, 100000.0)
    requires forall q :: 0 <= q < |run| ==> RunAt(s, t, q) < |x| && x[RunAt(s, t, q)] == run[q]
    requires Dot(coefficients, run) <= rhs
    ensures RowOk(Row(AtMost, RunEntriesTo(s, t, coefficients, s.crudes), rhs), x)
  {
    hide Parts, RunAt, ColDot, RunEntriesTo;
    RunEntriesDot(s, t, coefficients, run, x, s.crudes);
    RunEntriesDistinct(s, t, coefficients, s.crudes);
    RunEntriesShort(s, t, coefficients, s.crudes);
  }

  /** What the columns of a period say about its throughputs. */
  lemma RunColumns(l: Layout, slacks: Slacks, b: Book, t: nat)
    requires l.Valid() && t < l.s.periods && PeriodColumns(l, slacks, b, t)
    ensures t < |l.plan.run| && |l.plan.run[t]| == l.s.crudes && AllParts(l.plan.run[t], 1.0)
    ensures forall q :: 0 <= q < l.s.crudes ==> RunAt(l.s, t, q) < |b.x| && b.x[RunAt(l.s, t, q)] == l.plan.run[t][q]
  {
    PeriodIsPlanned(l, t);
    hide Layout.Valid, Start, Parts, ProductsTo;
    forall q | 0 <= q < l.s.crudes
      ensures RunAt(l.s, t, q) < |b.x| && b.x[RunAt(l.s, t, q)] == l.plan.run[t][q] {
      assert CrudeColumns(l, b, t, q);
    }
  }

  lemma StartStep(s: Size, t: nat)
    requires t > 0
    ensures Start(s, t) == Start(s, t - 1) + Width(s)
  {
  }

  lemma CrudeBalances(l: Layout, t: nat, k: nat)
    requires l.Valid() && t < l.s.periods && k < l.s.crudes
    ensures l.InCrudes(t, k) && (t > 0 ==> l.InCrudes(t - 1, k)) && k < |l.plan.crudeStart|
    ensures Parts(l.plan.crudeStart[k], 100000.0)
    ensures l.plan.crude[t][k]
            == (if t == 0 then l.plan.crudeStart[k] else l.plan.crude[t - 1][k]) + l.plan.buy[t][k] - l.plan.run[t][k]
  {
    hide Parts, Size.Capacity, Sum;
    var p := l.plan;
    LayoutCrude(l, t, k);
    if t > 0 { LayoutCrude(l, t - 1, k); }
    ShortOfWhole(p.crudeStart[k]);
    assert CrudePeriod(l.s.crudes, l.s.Capacity(), Opening(p.crudeStart, p.crude, t), p.run[t], p.buy[t], p.crude[t]);
  }

  lemma CrudeRowOk(l: Layout, slacks: Slacks, b: Book, t: nat, k: nat)
    requires l.Valid() && t < l.s.periods && k < l.s.crudes
    requires PeriodColumns(l, slacks, b, t) && (t > 0 ==> PeriodColumns(l, slacks, b, t - 1))
    ensures RowPlanned(l, t, Crude, k) && RowOk(RowOf(l, slacks, t, Crude, k), b.x)
  {
    hide Layout.Valid, Parts, Start, RowOk, Balance;
    RowIsPlanned(l, t, Crude, k);
    CrudeBalances(l, t, k);
    assert CrudeColumns(l, b, t, k);
    var s := l.s;
    if t > 0 {
      assert CrudeColumns(l, b, t - 1, k);
      StartStep(s, t);
    }
    BalanceHolds(b.x, CrudeAt(s, t, k), BuyAt(s, t, k), RunAt(s, t, k), t,
                 if t == 0 then 0 else CrudeAt(s, t - 1, k), l.plan.crudeStart[k]);
  }

  lemma ProductBalances(l: Layout, t: nat, j: nat)
    requires l.Valid() && t < l.s.periods && j < l.s.products
    ensures l.InProducts(t, j) && (t > 0 ==> l.InProducts(t - 1, j)) && j < |l.plan.productStart|
    ensures Parts(l.plan.productStart[j], 100000.0) && Parts(l.plan.sold[j][t], 100.0)
    ensures l.plan.stock[j][t]
            == (if t == 0 then l.plan.productStart[j] else l.plan.stock[j][t - 1])
                + l.plan.made[j][t] - l.plan.sold[j][t]
    ensures j < |l.data.recovery| && t < |l.plan.run| && |l.data.recovery[j]| == |l.plan.run[t]| == l.s.crudes
    ensures l.plan.made[j][t] == Dot(l.data.recovery[j], l.plan.run[t]) && AllParts(l.data.recovery[j], 100.0)
  {
    hide Parts, Size.Capacity, Sum, Dot;
    var p := l.plan;
    LayoutProduct(l, t, j);
    if t > 0 { LayoutProduct(l, t - 1, j); }
    PeriodIsPlanned(l, t);
    ShortOfHundredths(p.productStart[j]);
    assert ProductPlan(l.data.recovery[j], p.run, p.productStart[j], p.made[j], p.sold[j], p.stock[j]);
  }

  lemma ProductRowOk(l: Layout, slacks: Slacks, b: Book, t: nat, j: nat)
    requires l.Valid() && t < l.s.periods && j < l.s.products
    requires PeriodColumns(l, slacks, b, t) && (t > 0 ==> PeriodColumns(l, slacks, b, t - 1))
    ensures RowPlanned(l, t, Product, j) && RowOk(RowOf(l, slacks, t, Product, j), b.x)
  {
    hide Layout.Valid, Parts, Start, RowOk, Balance, Dot;
    RowIsPlanned(l, t, Product, j);
    ProductBalances(l, t, j);
    assert ProductColumns(l, slacks, b, t, j);
    var s := l.s;
    if t > 0 {
      assert ProductColumns(l, slacks, b, t - 1, j);
      StartStep(s, t);
    }
    BalanceHolds(b.x, StockAt(s, t, j), MakeAt(s, t, j), SellAt(s, t, j), t,
                 if t == 0 then 0 else StockAt(s, t - 1, j), l.plan.productStart[j]);
  }

  lemma {:induction false} NegatedDot(v: seq<real>, r: seq<real>, k: nat)
    requires k <= |v| == |r|
    ensures DotTo(Negated(v), r, k) == -DotTo(v, r, k)
  {
    if k > 0 {
      NegatedDot(v, r, k - 1);
      NegatedProduct(v[k - 1], r[k - 1]);
    }
  }

  lemma NegatedShort(v: seq<real>)
    requires AllParts(v, 100.0)
    ensures AllParts(Negated(v), 100000.0)
  {
    hide Parts;
    forall i | 0 <= i < |v| ensures Parts(Negated(v)[i], 100000.0) {
      PartsSum(v[i], v[i], 100.0);
      ShortOfHundredths(-v[i]);
    }
  }

  /** A production row says at any point that the product is made of its shares of the throughputs. */
  lemma MakeRowMeans(s: Size, t: nat, j: nat, recovery: seq<real>, run: seq<real>, x: seq<real>)
    requires |recovery| == |run| == s.crudes && MakeAt(s, t, j) < |x|
    requires forall q :: 0 <= q < |run| ==> RunAt(s, t, q) < |x| && x[RunAt(s, t, q)] == run[q]
    ensures var row := Row(Equal, [Entry(MakeAt(s, t, j), 1.0)] + RunEntriesTo(s, t, Negated(recovery), s.crudes), 0.0);
      ValidColumn(row.entries, |x|) && (RowHolds(row, x) <==> x[MakeAt(s, t, j)] == Dot(recovery, run))
  {
    hide ColDot, RunEntriesTo, RunAt, Start;
    var head, entries := [Entry(MakeAt(s, t, j), 1.0)], RunEntriesTo(s, t, Negated(recovery), s.crudes);
    RunEntriesDot(s, t, Negated(recovery), run, x, s.crudes);
    NegatedDot(recovery, run, s.crudes);
    RowLp.ColDotConcat(head, entries, x);
    OneTerm(Entry(MakeAt(s, t, j), 1.0), x);
    UnitTerms(MakeAt(s, t, j), x);
  }

  lemma MakeRowOk(s: Size, t: nat, j: nat, recovery: seq<real>, run: seq<real>, x: seq<real>)
    requires |recovery| == |run| == s.crudes && AllParts(recovery, 100.0)
    requires forall q :: 0 <= q < |run| ==> RunAt(s, t, q) < |x| && x[RunAt(s, t, q)] == run[q]
    requires MakeAt(s, t, j) < |x| && x[MakeAt(s, t, j)] == Dot(recovery, run)
    ensures RowOk(Row(Equal, [Entry(MakeAt(s, t, j), 1.0)] + RunEntriesTo(s, t, Negated(recovery), s.crudes), 0.0), x)
  {
    hide Parts, RowHolds, RunEntriesTo, RunAt, Start;
    MakeRowMeans(s, t, j, recovery, run, x);
    RunEntriesDistinct(s, t, Negated(recovery), s.crudes);
    NegatedShort(recovery);
    RunEntriesShort(s, t, Negated(recovery), s.crudes);
    UnitsAreShort();
  }

  lemma OneTerm(e: Entry, x: seq<real>)
    requires e.row < |x|
    ensures ColDot([e], x) == Term(e, x)
  {
    assert [e] == [] + [e];
    RowLp.ColDotAppend([], e, x);
  }

  lemma MakingRowOk(l: Layout, slacks: Slacks, b: Book, t: nat, j: nat)
    requires l.Valid() && t < l.s.periods && j < l.s.products && PeriodColumns(l, slacks, b, t)
    ensures RowPlanned(l, t, Making, j) && RowOk(RowOf(l, slacks, t, Making, j), b.x)
  {
    hide Layout.Valid, Parts, Start, RowOk, Dot, RunEntriesTo;
    RowIsPlanned(l, t, Making, j);
    ProductBalances(l, t, j);
    RunColumns(l, slacks, b, t);
    assert ProductColumns(l, slacks, b, t, j);
    MakeRowOk(l.s, t, j, l.data.recovery[j], l.plan.run[t], b.x);
  }

  lemma {:induction false} OnesDot(r: seq<real>, k: nat)
    requires k <= |r|
    ensures DotTo(Ones(|r|), r, k) == SumTo(r, k)
  {
    if k > 0 { OnesDot(r, k - 1); }
  }

  lemma DistillationRowOk(l: Layout, slacks: Slacks, b: Book, t: nat)
    requires l.Valid() && t < l.s.periods && PeriodColumns(l, slacks, b, t)
    ensures RowPlanned(l, t, Distillation, 0) && RowOk(RowOf(l, slacks, t, Distillation, 0), b.x)
  {
    hide Layout.Valid, Parts, Start, RowOk, RunEntriesTo, Size.Capacity;
    RowIsPlanned(l, t, Distillation, 0);
    PeriodIsPlanned(l, t);
    RunColumns(l, slacks, b, t);
    UnitsAreShort();
    CapacityIsWhole(l.s);
    ShortOfWhole(l.s.Capacity());
    OnesDot(l.plan.run[t], l.s.crudes);
    CapacityRowOk(l.s, t, Ones(l.s.crudes), l.plan.run[t], b.x, l.s.Capacity());
  }

  lemma AllShort(v: seq<real>)
    requires AllParts(v, 100.0)
    ensures AllParts(v, 100000.0)
  {
    hide Parts;
    forall i | 0 <= i < |v| ensures Parts(v[i], 100000.0) { ShortOfHundredths(v[i]); }
  }

  lemma LoadIsShort(load: seq<real>, run: seq<real>, slack: nat)
    requires |load| == |run| && AllParts(load, 100.0) && AllParts(run, 1.0)
    ensures Parts(Dot(load, run) + slack as real, 100000.0)
  {
    hide Parts, Dot;
    PartsOfDot(load, run);
    DemandIsShort(Dot(load, run), slack);
  }

  lemma LoadFacts(l: Layout, u: nat)
    requires l.Valid() && u < |l.data.loads|
    ensures |l.data.loads[u]| == l.s.crudes && AllParts(l.data.loads[u], 100.0)
  {
    hide Parts, Plan.Crudes, Plan.Products, Layout.CrudeColumnsFit, Layout.ProductColumnsFit;
  }

  lemma QualityFacts(l: Layout, i: nat)
    requires l.Valid() && i < |l.data.qualities|
    ensures |l.data.specProduct| == |l.data.qualities| && l.data.specProduct[i] < l.s.products == |l.data.recovery|
    ensures |l.data.qualities[i]| == |l.data.recovery[l.data.specProduct[i]]| == l.s.crudes
    ensures AllParts(l.data.qualities[i], 1000.0)
  {
    hide Parts, Plan.Crudes, Plan.Products, Layout.CrudeColumnsFit, Layout.ProductColumnsFit;
  }

  lemma UnitRowOk(l: Layout, slacks: Slacks, b: Book, t: nat, u: nat)
    requires l.Valid() && t < l.s.periods && u < |l.data.loads| && PeriodColumns(l, slacks, b, t)
    ensures RowPlanned(l, t, Unit, u) && RowOk(RowOf(l, slacks, t, Unit, u), b.x)
  {
    hide Layout.Valid, Parts, Start, RowOk, RunEntriesTo, Dot, PeriodColumns;
    RowIsPlanned(l, t, Unit, u);
    LoadFacts(l, u);
    RunColumns(l, slacks, b, t);
    AllShort(l.data.loads[u]);
    LoadIsShort(l.data.loads[u], l.plan.run[t], slacks.unit(t, u));
    CapacityRowOk(l.s, t, l.data.loads[u], l.plan.run[t], b.x,
        Dot(l.data.loads[u], l.plan.run[t]) + slacks.unit(t, u) as real);
  }

  lemma BudgetIsShort(quality: seq<real>, recovery: seq<real>, run: seq<real>, slack: nat)
    requires |quality| == |recovery| == |run| && AllParts(quality, 1000.0) && AllParts(recovery, 100.0)
      && AllParts(run, 1.0)
    ensures AllParts(Products(quality, recovery), 100000.0)
    ensures Parts(Dot(Products(quality, recovery), run) + slack as real / 100.0, 100000.0)
  {
    hide Parts, Dot;
    var c := Products(quality, recovery);
    forall i | 0 <= i < |c| ensures Parts(c[i], 100000.0) {
      PartsProduct(quality[i], 1000.0, recovery[i], 100.0, 100000.0);
    }
    PartsOfBudget(c, run);
    HundredthOf(slack);
    ShortOfHundredths(slack as real / 100.0);
    PartsSum(Dot(c, run), slack as real / 100.0, 100000.0);
  }

  lemma PartsOfBudget(c: seq<real>, run: seq<real>)
    requires |c| == |run| && AllParts(c, 100000.0) && AllParts(run, 1.0)
    ensures Parts(Dot(c, run), 100000.0)
  {
    PartsDot(c, 100000.0, run, 1.0, 100000.0, |c|);
  }

  lemma QualityRowOk(l: Layout, slacks: Slacks, b: Book, t: nat, i: nat)
    requires l.Valid() && t < l.s.periods && i < |l.data.qualities| && PeriodColumns(l, slacks, b, t)
    ensures RowPlanned(l, t, Quality, i) && RowOk(RowOf(l, slacks, t, Quality, i), b.x)
  {
    hide Layout.Valid, Parts, Start, RowOk, RunEntriesTo, Dot, PeriodColumns, Products;
    RowIsPlanned(l, t, Quality, i);
    QualityFacts(l, i);
    RunColumns(l, slacks, b, t);
    ProductBalances(l, t, l.data.specProduct[i]);
    var quality, recovery := l.data.qualities[i], l.data.recovery[l.data.specProduct[i]];
    var c := Products(quality, recovery);
    BudgetIsShort(quality, recovery, l.plan.run[t], slacks.spec(t, i));
    CapacityRowOk(l.s, t, c, l.plan.run[t], b.x, Dot(c, l.plan.run[t]) + slacks.spec(t, i) as real / 100.0);
  }

  lemma CommitmentIsShort(sold: real, cut: nat)
    requires Parts(sold, 100.0)
    ensures Parts(Max(0.0, sold - cut as real), 100000.0)
  {
    hide Parts;
    PartsOfWhole(cut);
    HundredthsOfWhole(cut as real);
    PartsSum(sold, cut as real, 100.0);
    PartsZero(100.0);
    ShortOfHundredths(Max(0.0, sold - cut as real));
  }

  lemma CommitmentProduct(l: Layout, i: nat)
    requires l.Valid() && i < |l.data.commitProducts|
    ensures l.data.commitProducts[i] < l.s.products
  {
    hide Parts, Plan.Crudes, Plan.Products, Layout.CrudeColumnsFit, Layout.ProductColumnsFit;
  }

  lemma CommitmentRowOk(l: Layout, slacks: Slacks, b: Book, t: nat, i: nat)
    requires l.Valid() && t < l.s.periods && i < |l.data.commitProducts| && PeriodColumns(l, slacks, b, t)
    ensures RowPlanned(l, t, Commitment, i) && RowOk(RowOf(l, slacks, t, Commitment, i), b.x)
  {
    hide Layout.Valid, Parts, Start, Dot, ColDot, Term;
    RowIsPlanned(l, t, Commitment, i);
    var j := l.data.commitProducts[i];
    CommitmentProduct(l, i);
    LayoutProduct(l, t, j);
    ProductBalances(l, t, j);
    assert ProductColumns(l, slacks, b, t, j);
    var e := Entry(SellAt(l.s, t, j), 1.0);
    OneTerm(e, b.x);
    UnitTerms(SellAt(l.s, t, j), b.x);
    UnitsAreShort();
    CommitmentIsShort(l.plan.sold[j][t], slacks.commit(t, i));
  }

  /** Every row the generator writes holds at its plan, and every number in it prints. */
  lemma RowIsOk(l: Layout, slacks: Slacks, b: Book, t: nat, f: Family, i: nat)
    requires l.Valid() && t < l.s.periods && i < FamilySize(l, f)
    requires PeriodColumns(l, slacks, b, t) && (t > 0 ==> PeriodColumns(l, slacks, b, t - 1))
    ensures RowPlanned(l, t, f, i) && RowOk(RowOf(l, slacks, t, f, i), b.x)
  {
    hide Layout.Valid, RowOk, RowOf, RowPlanned, PeriodColumns;
    match f
    case Crude => CrudeRowOk(l, slacks, b, t, i);
    case Distillation => DistillationRowOk(l, slacks, b, t);
    case Making => MakingRowOk(l, slacks, b, t, i);
    case Product => ProductRowOk(l, slacks, b, t, i);
    case Unit => UnitRowOk(l, slacks, b, t, i);
    case Quality => QualityRowOk(l, slacks, b, t, i);
    case Commitment => CommitmentRowOk(l, slacks, b, t, i);
  }

  // ---- The rows in order -------------------------------------------------------------------------

  lemma FamilyIsPlanned(l: Layout, t: nat, f: Family)
    requires l.Valid() && t < l.s.periods
    ensures forall i :: 0 <= i < FamilySize(l, f) ==> RowPlanned(l, t, f, i)
  {
    hide RowPlanned, Layout.Valid, FamilySize;
    forall i | 0 <= i < FamilySize(l, f) ensures RowPlanned(l, t, f, i) { RowIsPlanned(l, t, f, i); }
  }

  ghost function FamilyRows(l: Layout, slacks: Slacks, t: nat, f: Family): (r: seq<Row>)
    requires l.Valid() && t < l.s.periods
    ensures |r| == FamilySize(l, f)
    ensures forall i :: 0 <= i < |r| ==> RowPlanned(l, t, f, i) && r[i] == RowOf(l, slacks, t, f, i)
  {
    FamilyIsPlanned(l, t, f);
    seq(FamilySize(l, f), i requires 0 <= i < FamilySize(l, f) => RowOf(l, slacks, t, f, i))
  }

  /** The rows of one period, family after family. */
  ghost function PeriodRows(l: Layout, slacks: Slacks, t: nat): seq<Row>
    requires l.Valid() && t < l.s.periods
  {
    FamilyRows(l, slacks, t, Crude) + FamilyRows(l, slacks, t, Distillation) + FamilyRows(l, slacks, t, Making)
    + FamilyRows(l, slacks, t, Product) + FamilyRows(l, slacks, t, Unit) + FamilyRows(l, slacks, t, Quality)
    + FamilyRows(l, slacks, t, Commitment)
  }

  /** The rows of the first periods. */
  ghost function RowsTo(l: Layout, slacks: Slacks, t: nat): seq<Row>
    requires l.Valid() && t <= l.s.periods
  {
    if t == 0 then [] else RowsTo(l, slacks, t - 1) + PeriodRows(l, slacks, t - 1)
  }
}
