/** The columns of the refinery instance: their layout, the tanks their bounds come from, and
    the methods that add them at the plan's values. */
module RefineryColumns {
  import opened Vectors
  import opened LpModel
  import opened Grids
  import opened Refinery
  import opened RefineryPlan

  // ---- The layout of the columns ----------------------------------------------------------

  /** Where period t's columns start: buy, run and stock per crude, then make, sell and stock
      per product. */
  function Start(s: Size, t: nat): nat {
    if t == 0 then 0 else Start(s, t - 1) + Width(s)
  }

  function Width(s: Size): nat { 3 * s.crudes + 3 * s.products }

  function BuyAt(s: Size, t: nat, k: nat): nat { Start(s, t) + 3 * k }

  function RunAt(s: Size, t: nat, k: nat): nat { Start(s, t) + 3 * k + 1 }

  function CrudeAt(s: Size, t: nat, k: nat): nat { Start(s, t) + 3 * k + 2 }

  function MakeAt(s: Size, t: nat, j: nat): nat { Start(s, t) + 3 * s.crudes + 3 * j }

  function SellAt(s: Size, t: nat, j: nat): nat { Start(s, t) + 3 * s.crudes + 3 * j + 1 }

  function StockAt(s: Size, t: nat, j: nat): nat { Start(s, t) + 3 * s.crudes + 3 * j + 2 }

  // ---- Tanks and demands --------------------------------------------------------------------

  /** Every draw made after the plan. A slack of zero makes its row or bound tight. */
  datatype Slacks = Slacks(
    crudeTank: nat -> TankSlack, productTank: nat -> TankSlack,
    demand: (nat, nat) -> PlanStep, unit: (nat, nat) -> PlanStep,
    spec: (nat, nat) -> PlanStep, commit: (nat, nat) -> Tenths)

  /** The largest of v, which is not negative. */
  method Largest(v: seq<real>) returns (top: real)
    requires v != [] && AllNonneg(v)
    ensures top >= 0.0 && top in v && forall i :: 0 <= i < |v| ==> v[i] <= top
  {
    top := v[0];
    for i := 1 to |v|
      invariant top >= 0.0 && top in v && forall q :: 0 <= q < i ==> v[q] <= top
    {
      if v[i] > top { top := v[i]; }
    }
  }

  /** A tank as large as the most it holds, plus a slack: a size the file can print. */
  predicate TankFits(tank: real, held: seq<real>) {
    (forall t :: 0 <= t < |held| ==> held[t] <= tank) && Parts(tank, 100.0)
  }

  /** The tank is the largest stock plus the drawn slack, so a slack of zero makes it tight. */
  predicate TankIsLargestPlus(tank: real, held: seq<real>, slack: nat) {
    (exists t :: 0 <= t < |held| && tank == held[t] + slack as real)
    && forall t :: 0 <= t < |held| ==> held[t] + slack as real <= tank
  }

  method SizeTank(held: seq<real>, slack: TankSlack) returns (tank: real)
    requires held != [] && AllNonneg(held) && AllParts(held, 100.0)
    ensures TankFits(tank, held) && TankIsLargestPlus(tank, held, slack)
  {
    hide Parts;
    var top := Largest(held);
    var t :| 0 <= t < |held| && held[t] == top;
    PartsOfWhole(slack);
    HundredthsOfWhole(slack as real);
    PartsSum(top, slack as real, 100.0);
    tank := top + slack as real;
  }

  /** One crude's stock over the periods. */
  function StockOf(crude: seq<seq<real>>, k: nat): (v: seq<real>)
    requires forall t :: 0 <= t < |crude| ==> k < |crude[t]|
    ensures |v| == |crude| && forall t :: 0 <= t < |v| ==> v[t] == crude[t][k]
  {
    seq(|crude|, t requires 0 <= t < |crude| => crude[t][k])
  }

  /** The plan with the sizes of the tanks it needs. */
  datatype Layout = Layout(s: Size, data: Data, plan: Plan, crudeTank: seq<real>, productTank: seq<real>) {
    ghost predicate Valid() {
      && s.Valid() && data.Valid(s) && plan.Crudes(s) && plan.Products(s, data)
      && |crudeTank| == s.crudes && |productTank| == s.products
      && (forall t, k :: 0 <= t < s.periods && 0 <= k < s.crudes ==> CrudeColumnsFit(t, k))
      && (forall t, j :: 0 <= t < s.periods && 0 <= j < s.products ==> ProductColumnsFit(t, j))
      && (forall k :: 0 <= k < s.crudes ==> Parts(crudeTank[k], 100.0))
      && (forall j :: 0 <= j < s.products ==> Parts(productTank[j], 100.0))
    }

    ghost predicate InCrudes(t: nat, k: nat) {
      && t < |plan.run| == |plan.buy| == |plan.crude|
      && k < |plan.run[t]| == |plan.buy[t]| == |plan.crude[t]| && k < |crudeTank|
    }

    ghost predicate InProducts(t: nat, j: nat) {
      && j < |plan.made| == |plan.sold| == |plan.stock| && j < |productTank|
      && t < |plan.made[j]| == |plan.sold[j]| == |plan.stock[j]|
    }

    /** The period's crude columns are within their bounds. */
    ghost predicate CrudeColumnsFit(t: nat, k: nat) {
      && InCrudes(t, k)
      && plan.buy[t][k] >= 0.0 && 0.0 <= plan.run[t][k] <= s.Capacity() && 0.0 <= plan.crude[t][k] <= crudeTank[k]
    }

    ghost predicate ProductColumnsFit(t: nat, j: nat) {
      && InProducts(t, j)
      && plan.made[j][t] >= 0.0 && plan.sold[j][t] >= 0.0 && 0.0 <= plan.stock[j][t] <= productTank[j]
      && Parts(plan.sold[j][t], 100.0)
    }
  }

  lemma CrudeFits(l: Layout, t: nat, k: nat)
    requires l.s.Valid() && l.plan.Crudes(l.s) && t < l.s.periods && k < l.s.crudes
    requires |l.crudeTank| == l.s.crudes && k < |l.plan.crude[t]| && l.plan.crude[t][k] <= l.crudeTank[k]
    ensures l.CrudeColumnsFit(t, k)
  {
    assert CrudePeriod(l.s.crudes, l.s.Capacity(), Opening(l.plan.crudeStart, l.plan.crude, t),
                       l.plan.run[t], l.plan.buy[t], l.plan.crude[t]);
    SumToNonneg(l.plan.run[t], l.s.crudes);
  }

  lemma CrudeRows(s: Size, plan: Plan)
    requires plan.Crudes(s)
    ensures forall t :: 0 <= t < s.periods ==>
      |plan.crude[t]| == s.crudes && AllNonneg(plan.crude[t]) && AllParts(plan.crude[t], 1.0)
  {
    forall t | 0 <= t < s.periods
      ensures |plan.crude[t]| == s.crudes && AllNonneg(plan.crude[t]) && AllParts(plan.crude[t], 1.0) {
      assert CrudePeriod(s.crudes, s.Capacity(), Opening(plan.crudeStart, plan.crude, t), plan.run[t], plan.buy[t],
          plan.crude[t]);
    }
  }

  lemma StockOnGrid(s: Size, plan: Plan, k: nat)
    requires plan.Crudes(s) && k < s.crudes
    ensures forall t :: 0 <= t < |plan.crude| ==> k < |plan.crude[t]|
    ensures AllNonneg(StockOf(plan.crude, k)) && AllParts(StockOf(plan.crude, k), 100.0)
  {
    CrudeRows(s, plan);
    hide Parts;
    var held := StockOf(plan.crude, k);
    forall t | 0 <= t < |held| ensures held[t] >= 0.0 && Parts(held[t], 100.0) {
      assert AllParts(plan.crude[t], 1.0) && AllNonneg(plan.crude[t]);
      HundredthsOfWhole(plan.crude[t][k]);
    }
  }

  predicate CrudeTankDrawn(plan: Plan, slacks: Slacks, tank: real, k: nat) {
    && (forall t :: 0 <= t < |plan.crude| ==> k < |plan.crude[t]|)
    && TankIsLargestPlus(tank, StockOf(plan.crude, k), slacks.crudeTank(k))
  }

  /** A tank for every crude. */
  method SizeCrudeTanks(s: Size, plan: Plan, slacks: Slacks) returns (tanks: seq<real>)
    requires s.Valid() && plan.Crudes(s)
    ensures |tanks| == s.crudes && forall k :: 0 <= k < s.crudes ==>
      Parts(tanks[k], 100.0) && forall t :: 0 <= t < s.periods ==> k < |plan.crude[t]| && plan.crude[t][k] <= tanks[k]
    ensures forall k :: 0 <= k < s.crudes ==> CrudeTankDrawn(plan, slacks, tanks[k], k)
  {
    hide Parts, Size.Capacity, AllParts, AllNonneg, CrudeRun, TankIsLargestPlus;
    tanks := [];
    for k := 0 to s.crudes
      invariant |tanks| == k && forall q :: 0 <= q < k ==>
        Parts(tanks[q], 100.0) && forall t :: 0 <= t < s.periods ==> q < |plan.crude[t]| && plan.crude[t][q] <= tanks[q]
      invariant forall q :: 0 <= q < k ==> CrudeTankDrawn(plan, slacks, tanks[q], q)
    {
      StockOnGrid(s, plan, k);
      var held := StockOf(plan.crude, k);
      var tank := SizeTank(held, slacks.crudeTank(k));
      assert forall t :: 0 <= t < s.periods ==> plan.crude[t][k] == held[t];
      tanks := tanks + [tank];
    }
  }

  /** A tank for every product. */
  method SizeProductTanks(s: Size, data: Data, plan: Plan, slacks: Slacks) returns (tanks: seq<real>)
    requires s.Valid() && data.Valid(s) && plan.Crudes(s) && plan.Products(s, data)
    ensures |tanks| == s.products && forall j :: 0 <= j < s.products ==>
      TankFits(tanks[j], plan.stock[j]) && TankIsLargestPlus(tanks[j], plan.stock[j], slacks.productTank(j))
  {
    hide TankFits, TankIsLargestPlus, AllParts, AllNonneg, Data.Valid, Plan.Crudes, Plan.Products;
    PlanHasProducts(s, data, plan);
    tanks := [];
    for j := 0 to s.products
      invariant |tanks| == j && forall q :: 0 <= q < j ==>
        TankFits(tanks[q], plan.stock[q]) && TankIsLargestPlus(tanks[q], plan.stock[q], slacks.productTank(q))
    {
      StockOfProduct(s, data, plan, j);
      var tank := SizeTank(plan.stock[j], slacks.productTank(j));
      tanks := tanks + [tank];
    }
  }

  lemma PlanHasProducts(s: Size, data: Data, plan: Plan)
    requires data.Valid(s) && plan.Crudes(s) && plan.Products(s, data)
    ensures |plan.made| == |plan.sold| == |plan.stock| == s.products
  {
  }

  lemma StockOfProduct(s: Size, data: Data, plan: Plan, j: nat)
    requires s.Valid() && data.Valid(s) && plan.Crudes(s) && plan.Products(s, data) && j < s.products
    ensures |plan.stock| == s.products && |plan.stock[j]| == s.periods && AllNonneg(plan.stock[j])
      && AllParts(plan.stock[j], 100.0)
  {
    assert ProductPlan(data.recovery[j], plan.run, plan.productStart[j], plan.made[j], plan.sold[j], plan.stock[j]);
  }

  predicate TanksDrawn(l: Layout, slacks: Slacks) {
    && |l.crudeTank| == l.s.crudes && |l.productTank| == l.s.products == |l.plan.stock|
    && (forall k :: 0 <= k < l.s.crudes ==> CrudeTankDrawn(l.plan, slacks, l.crudeTank[k], k))
    && (forall j :: 0 <= j < l.s.products ==>
        TankIsLargestPlus(l.productTank[j], l.plan.stock[j], slacks.productTank(j)))
  }

  method SizeTanks(s: Size, data: Data, plan: Plan, slacks: Slacks) returns (l: Layout)
    requires s.Valid() && data.Valid(s) && plan.Crudes(s) && plan.Products(s, data)
    ensures l.Valid() && l.s == s && l.data == data && l.plan == plan && TanksDrawn(l, slacks)
  {
    hide CrudeTankDrawn, TankIsLargestPlus;
    var crudeTanks := SizeCrudeTanks(s, plan, slacks);
    var productTanks := SizeProductTanks(s, data, plan, slacks);
    l := Layout(s, data, plan, crudeTanks, productTanks);
    hide Parts, Size.Capacity, Data.Valid, Plan.Crudes, Plan.Products;
    forall t, k | 0 <= t < s.periods && 0 <= k < s.crudes ensures l.CrudeColumnsFit(t, k) { CrudeFits(l, t, k); }
    forall t, j | 0 <= t < s.periods && 0 <= j < s.products ensures l.ProductColumnsFit(t, j) { ProductFits(l, t, j); }
  }

  lemma ProductFits(l: Layout, t: nat, j: nat)
    requires l.s.Valid() && l.data.Valid(l.s) && l.plan.Crudes(l.s) && l.plan.Products(l.s, l.data)
    requires t < l.s.periods && j < l.s.products
    requires |l.productTank| == l.s.products && TankFits(l.productTank[j], l.plan.stock[j])
    ensures l.ProductColumnsFit(t, j)
  {
    var p := l.plan;
    assert ProductPlan(l.data.recovery[j], p.run, p.productStart[j], p.made[j], p.sold[j], p.stock[j]);
  }

  // ---- Columns --------------------------------------------------------------------------------

  /** The three columns of crude k in period t, at the plan's values and with their bounds. */
  ghost predicate CrudeColumns(l: Layout, b: Book, t: nat, k: nat) {
    var s, p := l.s, l.plan;
    && l.InCrudes(t, k) && CrudeAt(s, t, k) < |b.x| == |b.upper|
    && b.x[BuyAt(s, t, k)] == p.buy[t][k] && b.upper[BuyAt(s, t, k)].PosInf?
    && b.x[RunAt(s, t, k)] == p.run[t][k] && b.upper[RunAt(s, t, k)] == Fin(s.Capacity())
    && b.x[CrudeAt(s, t, k)] == p.crude[t][k] && b.upper[CrudeAt(s, t, k)] == Fin(l.crudeTank[k])
  }

  /** The three columns of product j in period t; sales are bounded by the demand. */
  ghost predicate ProductColumns(l: Layout, slacks: Slacks, b: Book, t: nat, j: nat) {
    var s, p := l.s, l.plan;
    && l.InProducts(t, j) && StockAt(s, t, j) < |b.x| == |b.upper|
    && b.x[MakeAt(s, t, j)] == p.made[j][t] && b.upper[MakeAt(s, t, j)].PosInf?
    && b.x[SellAt(s, t, j)] == p.sold[j][t]
        && b.upper[SellAt(s, t, j)] == Fin(p.sold[j][t] + slacks.demand(j, t) as real)
    && b.x[StockAt(s, t, j)] == p.stock[j][t] && b.upper[StockAt(s, t, j)] == Fin(l.productTank[j])
  }

  ghost predicate CrudesTo(l: Layout, b: Book, t: nat, k: nat) {
    forall q :: 0 <= q < k ==> CrudeColumns(l, b, t, q)
  }

  ghost predicate ProductsTo(l: Layout, slacks: Slacks, b: Book, t: nat, j: nat) {
    forall q :: 0 <= q < j ==> ProductColumns(l, slacks, b, t, q)
  }

  ghost predicate PeriodColumns(l: Layout, slacks: Slacks, b: Book, t: nat) {
    CrudesTo(l, b, t, l.s.crudes) && ProductsTo(l, slacks, b, t, l.s.products)
  }

  ghost predicate Extends(b: Book, c: Book) {
    && b.x <= c.x && b.upper <= c.upper && |b.x| == |b.upper| && |c.x| == |c.upper|
  }

  lemma CrudeStays(l: Layout, b: Book, c: Book, t: nat, k: nat)
    requires Extends(b, c) && CrudeColumns(l, b, t, k)
    ensures CrudeColumns(l, c, t, k)
  {
    hide Start;
    forall i | 0 <= i < |b.x| ensures b.x[i] == c.x[i] && b.upper[i] == c.upper[i] {}
  }

  lemma ProductStays(l: Layout, slacks: Slacks, b: Book, c: Book, t: nat, j: nat)
    requires Extends(b, c) && ProductColumns(l, slacks, b, t, j)
    ensures ProductColumns(l, slacks, c, t, j)
  {
    hide Start;
    forall i | 0 <= i < |b.x| ensures b.x[i] == c.x[i] && b.upper[i] == c.upper[i] {}
  }

  /** Adding columns leaves the earlier ones as they were. */
  lemma ColumnsStay(l: Layout, slacks: Slacks, b: Book, c: Book, t: nat, k: nat, j: nat)
    requires Extends(b, c)
    ensures CrudesTo(l, b, t, k) ==> CrudesTo(l, c, t, k)
    ensures ProductsTo(l, slacks, b, t, j) ==> ProductsTo(l, slacks, c, t, j)
  {
    hide Extends, CrudeColumns, ProductColumns;
    if CrudesTo(l, b, t, k) {
      forall q | 0 <= q < k ensures CrudeColumns(l, c, t, q) { CrudeStays(l, b, c, t, q); }
    }
    if ProductsTo(l, slacks, b, t, j) {
      forall q | 0 <= q < j ensures ProductColumns(l, slacks, c, t, q) { ProductStays(l, slacks, b, c, t, q); }
    }
  }

  lemma NextCrude(l: Layout, b: Book, t: nat, k: nat)
    requires CrudesTo(l, b, t, k) && CrudeColumns(l, b, t, k)
    ensures CrudesTo(l, b, t, k + 1)
  {
    hide CrudeColumns;
  }

  lemma NextProduct(l: Layout, slacks: Slacks, b: Book, t: nat, j: nat)
    requires ProductsTo(l, slacks, b, t, j) && ProductColumns(l, slacks, b, t, j)
    ensures ProductsTo(l, slacks, b, t, j + 1)
  {
    hide ProductColumns;
  }

  lemma ExtendsMore(a: Book, b: Book, c: Book)
    requires Extends(a, b) && Extends(b, c)
    ensures Extends(a, c)
  {
    assert c.x[..|b.x|] == b.x && c.upper[..|b.upper|] == b.upper;
  }

  /** An instance that has columns at the plan and no rows yet. */
  ghost predicate OnlyColumns(b: Book) {
    b.Holds() && b.rows == [] && b.y == [] && b.cost == []
  }

  lemma AddedColumn(b: Book, value: real, bound: Bound)
    requires OnlyColumns(b) && ColumnOk(value, bound)
    ensures OnlyColumns(b.WithColumn(value, bound)) && Extends(b, b.WithColumn(value, bound))
  {
    assert !bound.NegInf?;
    hide ColumnOk;
  }

  /** Three columns added together, each at its own index. */
  lemma ThreeColumns(b: Book, v0: real, u0: Bound, v1: real, u1: Bound, v2: real, u2: Bound)
    requires OnlyColumns(b) && ColumnOk(v0, u0) && ColumnOk(v1, u1) && ColumnOk(v2, u2)
    ensures var n, c := |b.x|, b.WithColumn(v0, u0).WithColumn(v1, u1).WithColumn(v2, u2);
      && OnlyColumns(c) && Extends(b, c) && |c.x| == |c.upper| == n + 3
      && c.x[n] == v0 && c.upper[n] == u0 && c.x[n + 1] == v1 && c.upper[n + 1] == u1 && c.x[n + 2] == v2
          && c.upper[n + 2] == u2
  {
    var b1 := b.WithColumn(v0, u0);
    var b2 := b1.WithColumn(v1, u1);
    var b3 := b2.WithColumn(v2, u2);
    AddedColumn(b, v0, u0);
    AddedColumn(b1, v1, u1);
    AddedColumn(b2, v2, u2);
    hide OnlyColumns;
    ExtendsMore(b, b1, b2);
    ExtendsMore(b, b2, b3);
  }

  lemma ShortOfHundredths(v: real)
    requires Parts(v, 100.0)
    ensures Parts(v, 100000.0)
  {
    WholeOf(1000);
    PartsFiner(v, 100.0, 1000.0, 100000.0);
  }

  lemma ShortOfWhole(v: real)
    requires Parts(v, 1.0)
    ensures Parts(v, 100000.0)
  {
    HundredthsOfWhole(v);
    ShortOfHundredths(v);
  }

  lemma CapacityIsWhole(s: Size)
    ensures Parts(s.Capacity(), 1.0)
  {
  }

  method AddCrude(inst: Instance, l: Layout, ghost slacks: Slacks, t: nat, k: nat)
    requires l.Valid() && t < l.s.periods && k < l.s.crudes && l.InCrudes(t, k)
    requires OnlyColumns(inst.State()) && |inst.x| == BuyAt(l.s, t, k)
    modifies inst
    ensures OnlyColumns(inst.State()) && |inst.x| == BuyAt(l.s, t, k) + 3
    ensures Extends(old(inst.State()), inst.State()) && CrudeColumns(l, inst.State(), t, k)
  {
    hide ColumnOk, OnlyColumns, Layout.Valid, Size.Capacity, Start, Extends;
    var p, capacity := l.plan, l.s.Capacity();
    CrudeColumnsOk(l, t, k);
    ThreeColumns(inst.State(), p.buy[t][k], PosInf, p.run[t][k], Fin(capacity), p.crude[t][k], Fin(l.crudeTank[k]));
    var buy := inst.AddColumn(p.buy[t][k], PosInf);
    var run := inst.AddColumn(p.run[t][k], Fin(capacity));
    var crude := inst.AddColumn(p.crude[t][k], Fin(l.crudeTank[k]));
  }

  lemma LayoutCrude(l: Layout, t: nat, k: nat)
    requires l.Valid() && t < l.s.periods && k < l.s.crudes
    ensures l.CrudeColumnsFit(t, k) && Parts(l.crudeTank[k], 100.0)
  {
    hide Parts, Data.Valid, Plan.Crudes, Plan.Products, Layout.CrudeColumnsFit, Layout.ProductColumnsFit;
  }

  lemma LayoutProduct(l: Layout, t: nat, j: nat)
    requires l.Valid() && t < l.s.periods && j < l.s.products
    ensures l.ProductColumnsFit(t, j) && Parts(l.productTank[j], 100.0)
  {
    hide Parts, Data.Valid, Plan.Crudes, Plan.Products, Layout.CrudeColumnsFit, Layout.ProductColumnsFit;
  }

  lemma CrudeColumnsOk(l: Layout, t: nat, k: nat)
    requires l.Valid() && t < l.s.periods && k < l.s.crudes
    ensures l.InCrudes(t, k)
    ensures ColumnOk(l.plan.buy[t][k], PosInf) && ColumnOk(l.plan.run[t][k], Fin(l.s.Capacity()))
    ensures ColumnOk(l.plan.crude[t][k], Fin(l.crudeTank[k]))
  {
    hide Layout.Valid, Parts, Size.Capacity;
    LayoutCrude(l, t, k);
    CapacityIsWhole(l.s);
    ShortOfWhole(l.s.Capacity());
    ShortOfHundredths(l.crudeTank[k]);
  }

  lemma ProductColumnsOk(l: Layout, slacks: Slacks, t: nat, j: nat)
    requires l.Valid() && t < l.s.periods && j < l.s.products
    ensures l.InProducts(t, j)
    ensures ColumnOk(l.plan.made[j][t], PosInf) && ColumnOk(l.plan.stock[j][t], Fin(l.productTank[j]))
    ensures ColumnOk(l.plan.sold[j][t], Fin(l.plan.sold[j][t] + slacks.demand(j, t) as real))
  {
    hide Layout.Valid, Parts;
    LayoutProduct(l, t, j);
    DemandIsShort(l.plan.sold[j][t], slacks.demand(j, t));
    ShortOfHundredths(l.productTank[j]);
  }

  method AddProduct(inst: Instance, l: Layout, slacks: Slacks, t: nat, j: nat)
    requires l.Valid() && t < l.s.periods && j < l.s.products && l.InProducts(t, j)
    requires OnlyColumns(inst.State()) && |inst.x| == MakeAt(l.s, t, j)
    modifies inst
    ensures OnlyColumns(inst.State()) && |inst.x| == MakeAt(l.s, t, j) + 3
    ensures Extends(old(inst.State()), inst.State()) && ProductColumns(l, slacks, inst.State(), t, j)
  {
    hide ColumnOk, OnlyColumns, Layout.Valid, Start, Extends;
    var p := l.plan;
    var demand := p.sold[j][t] + slacks.demand(j, t) as real;
    ProductColumnsOk(l, slacks, t, j);
    ThreeColumns(inst.State(), p.made[j][t], PosInf, p.sold[j][t], Fin(demand), p.stock[j][t], Fin(l.productTank[j]));
    var make := inst.AddColumn(p.made[j][t], PosInf);
    var sell := inst.AddColumn(p.sold[j][t], Fin(demand));
    var stock := inst.AddColumn(p.stock[j][t], Fin(l.productTank[j]));
  }

  lemma DemandIsShort(sold: real, slack: nat)
    requires Parts(sold, 100.0)
    ensures Parts(sold + slack as real, 100000.0)
  {
    hide Parts;
    PartsOfWhole(slack);
    HundredthsOfWhole(slack as real);
    PartsSum(sold, slack as real, 100.0);
    ShortOfHundredths(sold + slack as real);
  }

  /** The columns of every period, in order, each at its planned value and within its bounds. */
  method AddColumns(inst: Instance, l: Layout, slacks: Slacks)
    requires l.Valid() && inst.State() == Book([], [], [], [], [], [])
    modifies inst
    ensures OnlyColumns(inst.State()) && |inst.x| == Start(l.s, l.s.periods)
    ensures forall t :: 0 <= t < l.s.periods ==> PeriodColumns(l, slacks, inst.State(), t)
  {
    NoColumns();
    hide Layout.Valid, OnlyColumns, CrudeColumns, ProductColumns, PeriodColumns, Extends, Width;
    for t := 0 to l.s.periods
      invariant OnlyColumns(inst.State()) && |inst.x| == Start(l.s, t)
      invariant forall q :: 0 <= q < t ==> PeriodColumns(l, slacks, inst.State(), q)
    {
      ghost var b := inst.State();
      AddPeriod(inst, l, slacks, t);
      PeriodsStay(l, slacks, b, inst.State());
    }
  }

  lemma NoColumns()
    ensures OnlyColumns(Book([], [], [], [], [], []))
  {
  }

  lemma PeriodsStay(l: Layout, slacks: Slacks, b: Book, c: Book)
    requires Extends(b, c)
    ensures forall t :: PeriodColumns(l, slacks, b, t) ==> PeriodColumns(l, slacks, c, t)
  {
    hide CrudesTo, ProductsTo, Extends;
    forall t | PeriodColumns(l, slacks, b, t) ensures PeriodColumns(l, slacks, c, t) {
      ColumnsStay(l, slacks, b, c, t, l.s.crudes, l.s.products);
    }
  }

  lemma ExtendsItself(b: Book)
    requires OnlyColumns(b)
    ensures Extends(b, b)
  {
  }

  method AddPeriod(inst: Instance, l: Layout, slacks: Slacks, t: nat)
    requires l.Valid() && t < l.s.periods && OnlyColumns(inst.State()) && |inst.x| == Start(l.s, t)
    modifies inst
    ensures OnlyColumns(inst.State()) && |inst.x| == Start(l.s, t + 1)
    ensures Extends(old(inst.State()), inst.State()) && PeriodColumns(l, slacks, inst.State(), t)
  {
    assert Start(l.s, t + 1) == Start(l.s, t) + Width(l.s);
    hide Layout.Valid, Layout.InCrudes, Layout.InProducts, OnlyColumns, CrudeColumns, ProductColumns, CrudesTo,
      ProductsTo, Start, Extends;
    ExtendsItself(inst.State());
    forall k | 0 <= k < l.s.crudes ensures l.InCrudes(t, k) { LayoutCrude(l, t, k); }
    forall j | 0 <= j < l.s.products ensures l.InProducts(t, j) { LayoutProduct(l, t, j); }
    ghost var start := inst.State();
    NothingYet(l, slacks, start, t);
    for k := 0 to l.s.crudes
      invariant OnlyColumns(inst.State()) && |inst.x| == BuyAt(l.s, t, k) && Extends(start, inst.State())
      invariant CrudesTo(l, inst.State(), t, k)
    {
      ghost var b := inst.State();
      AddCrude(inst, l, slacks, t, k);
      ColumnsStay(l, slacks, b, inst.State(), t, k, 0);
      NextCrude(l, inst.State(), t, k);
      ExtendsMore(start, b, inst.State());
    }
    NothingYet(l, slacks, inst.State(), t);
    for j := 0 to l.s.products
      invariant OnlyColumns(inst.State()) && |inst.x| == MakeAt(l.s, t, j) && Extends(start, inst.State())
      invariant CrudesTo(l, inst.State(), t, l.s.crudes) && ProductsTo(l, slacks, inst.State(), t, j)
    {
      ghost var b := inst.State();
      AddProduct(inst, l, slacks, t, j);
      ColumnsStay(l, slacks, b, inst.State(), t, l.s.crudes, j);
      NextProduct(l, slacks, inst.State(), t, j);
      ExtendsMore(start, b, inst.State());
    }
  }

  lemma NothingYet(l: Layout, slacks: Slacks, b: Book, t: nat)
    ensures CrudesTo(l, b, t, 0) && ProductsTo(l, slacks, b, t, 0)
  {
  }
}
