/** What the refinery instance says about any plan, in the plant's own terms: which points satisfy
    its rows and bounds. */
module RefineryMeaning {
  import opened Vectors
  import opened LpModel
  import opened Refinery
  import opened RefineryPlan
  import opened RefineryColumns
  import opened RefineryRows
  import Kkt
  import RowLp

  // ---- The terms of the plant -----------------------------------------------------------------

  /** The value of column c. */
  function At(z: seq<real>, c: nat): real { if c < |z| then z[c] else 0.0 }

  /** What a point runs of each crude in period t. */
  function Throughputs(s: Size, t: nat, z: seq<real>): (r: seq<real>)
    ensures |r| == s.crudes && forall k :: 0 <= k < s.crudes ==> r[k] == At(z, RunAt(s, t, k))
  {
    seq(s.crudes, k requires 0 <= k < s.crudes => At(z, RunAt(s, t, k)))
  }

  /** The mass of a contaminant that the first k crudes bring into a product: its content in the
      crude's cut, times the cut's share of the crude, times the crude run. */
  function Contaminant(quality: seq<real>, recovery: seq<real>, run: seq<real>, k: nat): real
    requires k <= |quality| == |recovery| == |run|
  {
    if k == 0 then 0.0
    else Contaminant(quality, recovery, run, k - 1) + quality[k - 1] * recovery[k - 1] * run[k - 1]
  }

  /** What a tank holds before period t: the initial stock, or what the period before left. */
  function Carried(start: real, t: nat, z: seq<real>, previous: nat): real {
    if t == 0 then start else At(z, previous)
  }

  /** The condition of one family on period t at any point z. A budget or a commitment is what the
      plan itself uses or sells, plus or minus the slack that was drawn. */
  predicate Means(l: Layout, slacks: Slacks, t: nat, f: Family, i: nat, z: seq<real>)
    requires RowPlanned(l, t, f, i)
  {
    var s, p, run := l.s, l.plan, Throughputs(l.s, t, z);
    match f
    case Crude =>
      At(z, CrudeAt(s, t, i)) == Carried(p.crudeStart[i], t, z, if t == 0 then 0 else CrudeAt(s, t - 1, i))
                                 + At(z, BuyAt(s, t, i)) - At(z, RunAt(s, t, i))
    case Distillation => Sum(run) <= s.Capacity()
    case Making => At(z, MakeAt(s, t, i)) == Dot(l.data.recovery[i], run)
    case Product =>
      At(z, StockAt(s, t, i)) == Carried(p.productStart[i], t, z, if t == 0 then 0 else StockAt(s, t - 1, i))
                                 + At(z, MakeAt(s, t, i)) - At(z, SellAt(s, t, i))
    case Unit => Dot(l.data.loads[i], run) <= Dot(l.data.loads[i], p.run[t]) + slacks.unit(t, i) as real
    case Quality =>
      var quality, recovery := l.data.qualities[i], l.data.recovery[l.data.specProduct[i]];
      Contaminant(quality, recovery, run, s.crudes)
      <= Contaminant(quality, recovery, p.run[t], s.crudes) + slacks.spec(t, i) as real / 100.0
    case Commitment =>
      var j := l.data.commitProducts[i];
      At(z, SellAt(s, t, j)) >= p.sold[j][t] - slacks.commit(t, i) as real && At(z, SellAt(s, t, j)) >= 0.0
  }

  ghost predicate FamilyMeans(l: Layout, slacks: Slacks, t: nat, f: Family, z: seq<real>) {
    forall i: nat :: RowPlanned(l, t, f, i) ==> Means(l, slacks, t, f, i, z)
  }

  ghost predicate PeriodMeans(l: Layout, slacks: Slacks, t: nat, z: seq<real>) {
    forall f: Family :: FamilyMeans(l, slacks, t, f, z)
  }

  /** Every condition of every period. */
  ghost predicate MeansAll(l: Layout, slacks: Slacks, z: seq<real>) {
    forall t: nat :: t < l.s.periods ==> PeriodMeans(l, slacks, t, z)
  }

  predicate Between(v: real, upper: real) { 0.0 <= v <= upper }

  /** Nothing negative, no more run of a crude than the capacity, no more held than the tank, no
      more sold than the demand, which is the plan's own sale plus the slack that was drawn. */
  ghost predicate CrudeWithin(l: Layout, t: nat, k: nat, z: seq<real>) {
    && l.InCrudes(t, k)
    && At(z, BuyAt(l.s, t, k)) >= 0.0
    && Between(At(z, RunAt(l.s, t, k)), l.s.Capacity())
    && Between(At(z, CrudeAt(l.s, t, k)), l.crudeTank[k])
  }

  ghost predicate ProductWithin(l: Layout, slacks: Slacks, t: nat, j: nat, z: seq<real>) {
    && l.InProducts(t, j)
    && At(z, MakeAt(l.s, t, j)) >= 0.0
    && Between(At(z, SellAt(l.s, t, j)), l.plan.sold[j][t] + slacks.demand(j, t) as real)
    && Between(At(z, StockAt(l.s, t, j)), l.productTank[j])
  }

  ghost predicate WithinAll(l: Layout, slacks: Slacks, z: seq<real>) {
    && (forall t: nat, k: nat :: t < l.s.periods && k < l.s.crudes ==> CrudeWithin(l, t, k, z))
    && (forall t: nat, j: nat :: t < l.s.periods && j < l.s.products ==> ProductWithin(l, slacks, t, j, z))
  }

  /** A plan the refinery can follow. */
  ghost predicate IsPlan(l: Layout, slacks: Slacks, z: seq<real>) {
    |z| == Start(l.s, l.s.periods) && WithinAll(l, slacks, z) && MeansAll(l, slacks, z)
  }

  // ---- The columns of the layout ----------------------------------------------------------------

  lemma {:induction false} PeriodsFollow(s: Size, t: nat, u: nat)
    requires t < u
    ensures Start(s, t) + Width(s) <= Start(s, u)
  {
    if t + 1 < u { PeriodsFollow(s, t, u - 1); }
  }

  /** Column c is one of a crude's three or one of a product's three, in some period. */
  ghost predicate IsCrudeColumn(s: Size, c: nat, t: nat, k: nat) {
    k < s.crudes && c in {BuyAt(s, t, k), RunAt(s, t, k), CrudeAt(s, t, k)}
  }

  ghost predicate IsProductColumn(s: Size, c: nat, t: nat, j: nat) {
    j < s.products && c in {MakeAt(s, t, j), SellAt(s, t, j), StockAt(s, t, j)}
  }

  lemma {:induction false} EveryColumnIsNamed(s: Size, c: nat, u: nat)
    requires u <= s.periods && c < Start(s, u)
    ensures exists t: nat, k: nat :: t < s.periods && (IsCrudeColumn(s, c, t, k) || IsProductColumn(s, c, t, k))
  {
    if c < Start(s, u - 1) {
      EveryColumnIsNamed(s, c, u - 1);
    } else {
      var slot := c - Start(s, u - 1);
      if slot < 3 * s.crudes {
        assert IsCrudeColumn(s, c, u - 1, slot / 3);
      } else {
        assert IsProductColumn(s, c, u - 1, (slot - 3 * s.crudes) / 3);
      }
    }
  }

  lemma ColumnsExist(s: Size, t: nat, k: nat)
    requires t < s.periods
    ensures k < s.crudes ==> CrudeAt(s, t, k) < Start(s, s.periods)
    ensures k < s.products ==> StockAt(s, t, k) < Start(s, s.periods)
  {
    hide Start;
    PeriodsFollow(s, t, s.periods);
  }

  // ---- What each row says -------------------------------------------------------------------------

  lemma {:induction false} ContaminantIsDot(quality: seq<real>, recovery: seq<real>, run: seq<real>, k: nat)
    requires k <= |quality| == |recovery| == |run|
    ensures DotTo(Products(quality, recovery), run, k) == Contaminant(quality, recovery, run, k)
  {
    if k > 0 {
      ContaminantIsDot(quality, recovery, run, k - 1);
      ProductUnfolds(quality[k - 1], recovery[k - 1], run[k - 1]);
    }
  }

  lemma ProductUnfolds(a: real, b: real, c: real)
    ensures Mul(Mul(a, b), c) == a * b * c
  {
  }

  lemma CapacityRowMeans(s: Size, t: nat, coefficients: seq<real>, rhs: real, z: seq<real>)
    requires t < s.periods && |coefficients| == s.crudes && |z| == Start(s, s.periods)
    ensures var row := Row(AtMost, RunEntriesTo(s, t, coefficients, s.crudes), rhs);
      ValidColumn(row.entries, |z|) && (RowHolds(row, z) <==> Dot(coefficients, Throughputs(s, t, z)) <= rhs)
  {
    hide Start, RunEntriesTo, ColDot;
    forall k | 0 <= k < s.crudes ensures RunAt(s, t, k) < |z| { ColumnsExist(s, t, k); }
    RunEntriesDot(s, t, coefficients, Throughputs(s, t, z), z, s.crudes);
  }

  lemma CrudeMeans(l: Layout, slacks: Slacks, t: nat, k: nat, z: seq<real>)
    requires t < l.s.periods && RowPlanned(l, t, Crude, k) && |z| == Start(l.s, l.s.periods)
    ensures ValidColumn(RowOf(l, slacks, t, Crude, k).entries, |z|)
    ensures RowHolds(RowOf(l, slacks, t, Crude, k), z) <==> Means(l, slacks, t, Crude, k, z)
  {
    hide Start, Balance, RowHolds, ValidColumn;
    var s := l.s;
    ColumnsExist(s, t, k);
    if t > 0 { ColumnsExist(s, t - 1, k); }
    BalanceMeans(z, CrudeAt(s, t, k), BuyAt(s, t, k), RunAt(s, t, k), t, if t == 0 then 0 else CrudeAt(s, t - 1, k),
        l.plan.crudeStart[k]);
  }

  lemma ProductMeans(l: Layout, slacks: Slacks, t: nat, j: nat, z: seq<real>)
    requires t < l.s.periods && RowPlanned(l, t, Product, j) && |z| == Start(l.s, l.s.periods)
    ensures ValidColumn(RowOf(l, slacks, t, Product, j).entries, |z|)
    ensures RowHolds(RowOf(l, slacks, t, Product, j), z) <==> Means(l, slacks, t, Product, j, z)
  {
    hide Start, Balance, RowHolds, ValidColumn;
    var s := l.s;
    ColumnsExist(s, t, j);
    if t > 0 { ColumnsExist(s, t - 1, j); }
    BalanceMeans(z, StockAt(s, t, j), MakeAt(s, t, j), SellAt(s, t, j), t, if t == 0 then 0 else StockAt(s, t - 1, j),
        l.plan.productStart[j]);
  }

  lemma MakingMeans(l: Layout, slacks: Slacks, t: nat, j: nat, z: seq<real>)
    requires t < l.s.periods && RowPlanned(l, t, Making, j) && |z| == Start(l.s, l.s.periods)
    ensures ValidColumn(RowOf(l, slacks, t, Making, j).entries, |z|)
    ensures RowHolds(RowOf(l, slacks, t, Making, j), z) <==> Means(l, slacks, t, Making, j, z)
  {
    hide Start, RunEntriesTo, RowHolds, ValidColumn;
    var s := l.s;
    ColumnsExist(s, t, j);
    forall k | 0 <= k < s.crudes ensures RunAt(s, t, k) < |z| { ColumnsExist(s, t, k); }
    MakeRowMeans(s, t, j, l.data.recovery[j], Throughputs(s, t, z), z);
  }

  lemma QualityMeans(l: Layout, slacks: Slacks, t: nat, i: nat, z: seq<real>)
    requires t < l.s.periods && RowPlanned(l, t, Quality, i) && |z| == Start(l.s, l.s.periods)
    ensures ValidColumn(RowOf(l, slacks, t, Quality, i).entries, |z|)
    ensures RowHolds(RowOf(l, slacks, t, Quality, i), z) <==> Means(l, slacks, t, Quality, i, z)
  {
    hide Start, RunEntriesTo, RowHolds, ValidColumn, Products, Contaminant;
    var s, quality, recovery := l.s, l.data.qualities[i], l.data.recovery[l.data.specProduct[i]];
    var c, run := Products(quality, recovery), Throughputs(s, t, z);
    CapacityRowMeans(s, t, c, Dot(c, l.plan.run[t]) + slacks.spec(t, i) as real / 100.0, z);
    ContaminantIsDot(quality, recovery, run, s.crudes);
    ContaminantIsDot(quality, recovery, l.plan.run[t], s.crudes);
  }

  lemma CommitmentMeans(l: Layout, slacks: Slacks, t: nat, i: nat, z: seq<real>)
    requires l.Valid() && t < l.s.periods && RowPlanned(l, t, Commitment, i) && |z| == Start(l.s, l.s.periods)
    ensures ValidColumn(RowOf(l, slacks, t, Commitment, i).entries, |z|)
    ensures RowHolds(RowOf(l, slacks, t, Commitment, i), z) <==> Means(l, slacks, t, Commitment, i, z)
  {
    CommitmentProduct(l, i);
    hide Start, Layout.Valid, ColDot, Term;
    var j := l.data.commitProducts[i];
    ColumnsExist(l.s, t, j);
    OneTerm(Entry(SellAt(l.s, t, j), 1.0), z);
    UnitTerms(SellAt(l.s, t, j), z);
  }

  lemma DistillationMeans(l: Layout, slacks: Slacks, t: nat, i: nat, z: seq<real>)
    requires t < l.s.periods && RowPlanned(l, t, Distillation, i) && |z| == Start(l.s, l.s.periods)
    ensures ValidColumn(RowOf(l, slacks, t, Distillation, i).entries, |z|)
    ensures RowHolds(RowOf(l, slacks, t, Distillation, i), z) <==> Means(l, slacks, t, Distillation, i, z)
  {
    hide Start, RunEntriesTo, RowHolds, ValidColumn;
    CapacityRowMeans(l.s, t, Ones(l.s.crudes), l.s.Capacity(), z);
    OnesDot(Throughputs(l.s, t, z), l.s.crudes);
  }

  /** At every point, whatever the plan, a row holds exactly when its condition does. */
  lemma RowMeans(l: Layout, slacks: Slacks, t: nat, f: Family, i: nat, z: seq<real>)
    requires l.Valid() && t < l.s.periods && RowPlanned(l, t, f, i) && |z| == Start(l.s, l.s.periods)
    ensures ValidColumn(RowOf(l, slacks, t, f, i).entries, |z|)
    ensures RowHolds(RowOf(l, slacks, t, f, i), z) <==> Means(l, slacks, t, f, i, z)
  {
    hide Layout.Valid, RowHolds, ValidColumn;
    match f {
      case Crude => CrudeMeans(l, slacks, t, i, z);
      case Distillation => DistillationMeans(l, slacks, t, i, z);
      case Making => MakingMeans(l, slacks, t, i, z);
      case Product => ProductMeans(l, slacks, t, i, z);
      case Unit =>
        CapacityRowMeans(l.s, t, l.data.loads[i],
            Dot(l.data.loads[i], l.plan.run[t]) + slacks.unit(t, i) as real, z);
      case Quality => QualityMeans(l, slacks, t, i, z);
      case Commitment => CommitmentMeans(l, slacks, t, i, z);
    }
  }

  // ---- What the whole instance says ---------------------------------------------------------------

  predicate AllHold(rows: seq<Row>, z: seq<real>) {
    forall i :: 0 <= i < |rows| ==> ValidColumn(rows[i].entries, |z|) && RowHolds(rows[i], z)
  }

  lemma HoldTogether(a: seq<Row>, b: seq<Row>, z: seq<real>)
    ensures AllHold(a + b, z) <==> AllHold(a, z) && AllHold(b, z)
  {
    hide RowHolds, ValidColumn;
    if AllHold(a + b, z) {
      forall i | 0 <= i < |a| ensures ValidColumn(a[i].entries, |z|) && RowHolds(a[i], z) { assert (a + b)[i] == a[i]; }
      forall i | 0 <= i < |b| ensures ValidColumn(b[i].entries, |z|) && RowHolds(b[i], z) {
        assert (a + b)[|a| + i] == b[i];
      }
    }
  }

  lemma FamilyRowsMean(l: Layout, slacks: Slacks, t: nat, f: Family, z: seq<real>)
    requires l.Valid() && t < l.s.periods && |z| == Start(l.s, l.s.periods)
    ensures AllHold(FamilyRows(l, slacks, t, f), z) <==> FamilyMeans(l, slacks, t, f, z)
  {
    hide Layout.Valid, RowHolds, ValidColumn, Means, RowOf;
    var rows := FamilyRows(l, slacks, t, f);
    forall i: nat | RowPlanned(l, t, f, i)
      ensures i < |rows| && (ValidColumn(rows[i].entries, |z|) && RowHolds(rows[i], z)
        <==> Means(l, slacks, t, f, i, z))
    {
      RowMeans(l, slacks, t, f, i, z);
    }
  }

  lemma AllFamilies(l: Layout, slacks: Slacks, t: nat, z: seq<real>)
    ensures PeriodMeans(l, slacks, t, z) <==>
      && FamilyMeans(l, slacks, t, Crude, z) && FamilyMeans(l, slacks, t, Distillation, z)
      && FamilyMeans(l, slacks, t, Making, z) && FamilyMeans(l, slacks, t, Product, z)
      && FamilyMeans(l, slacks, t, Unit, z) && FamilyMeans(l, slacks, t, Quality, z)
      && FamilyMeans(l, slacks, t, Commitment, z)
  {
    hide FamilyMeans;
    if !PeriodMeans(l, slacks, t, z) {
      var f: Family :| !FamilyMeans(l, slacks, t, f, z);
      match f
      case Crude => case Distillation => case Making => case Product => case Unit => case Quality => case Commitment =>
    }
  }

  lemma PeriodRowsMean(l: Layout, slacks: Slacks, t: nat, z: seq<real>)
    requires l.Valid() && t < l.s.periods && |z| == Start(l.s, l.s.periods)
    ensures AllHold(PeriodRows(l, slacks, t), z) <==> PeriodMeans(l, slacks, t, z)
  {
    hide Layout.Valid, AllHold, FamilyMeans, FamilyRows, PeriodMeans;
    forall f: Family ensures AllHold(FamilyRows(l, slacks, t, f), z) <==> FamilyMeans(l, slacks, t, f, z) {
      FamilyRowsMean(l, slacks, t, f, z);
    }
    var c, d, m, p := FamilyRows(l, slacks, t, Crude), FamilyRows(l, slacks, t, Distillation),
        FamilyRows(l, slacks, t, Making), FamilyRows(l, slacks, t, Product);
    var u, q, k := FamilyRows(l, slacks, t, Unit), FamilyRows(l, slacks, t, Quality),
        FamilyRows(l, slacks, t, Commitment);
    HoldTogether(c, d, z);
    HoldTogether(c + d, m, z);
    HoldTogether(c + d + m, p, z);
    HoldTogether(c + d + m + p, u, z);
    HoldTogether(c + d + m + p + u, q, z);
    HoldTogether(c + d + m + p + u + q, k, z);
    AllFamilies(l, slacks, t, z);
  }

  lemma {:induction false} RowsToMean(l: Layout, slacks: Slacks, t: nat, z: seq<real>)
    requires l.Valid() && t <= l.s.periods && |z| == Start(l.s, l.s.periods)
    ensures AllHold(RowsTo(l, slacks, t), z) <==> forall q: nat :: q < t ==> PeriodMeans(l, slacks, q, z)
  {
    hide Layout.Valid, PeriodMeans, PeriodRows;
    if t > 0 {
      RowsToMean(l, slacks, t - 1, z);
      PeriodRowsMean(l, slacks, t - 1, z);
      HoldTogether(RowsTo(l, slacks, t - 1), PeriodRows(l, slacks, t - 1), z);
      hide AllHold;
    }
  }

  /** Neither negative nor above its bound, column by column. */
  predicate InBox(b: Book, z: seq<real>)
    requires |z| == |b.upper|
  {
    forall c :: 0 <= c < |z| ==> z[c] >= 0.0 && BelowUpper(b.upper[c], z[c])
  }

  /** A column-wise view of the feasible points. */
  lemma FeasibleIsHeld(b: Book, z: seq<real>)
    requires b.Shaped() && |b.cost| == |b.x|
    ensures RowLp.Feasible(ToLp(b), z) <==> |z| == |b.x| && InBox(b, z) && AllHold(b.rows, z)
  {
    hide ColDot;
    if |z| == |b.x| {
      var p, a := ToLp(b), RowLp.Activities(ToLp(b), z);
      forall i | 0 <= i < |b.rows|
        ensures Within(p.rowLower[i], a[i], p.rowUpper[i])
                <==> ValidColumn(b.rows[i].entries, |z|) && RowHolds(b.rows[i], z) {
        assert a[i] == ColDot(b.rows[i].entries, z);
      }
      forall c | 0 <= c < |z|
        ensures Within(p.lower[c], z[c], p.upper[c]) <==> z[c] >= 0.0 && BelowUpper(b.upper[c], z[c]) {}
    }
  }

  predicate InBoxAt(b: Book, z: seq<real>, c: nat)
    requires |z| == |b.upper|
  {
    c < |z| && z[c] >= 0.0 && BelowUpper(b.upper[c], z[c])
  }

  lemma CrudeBoxMeans(l: Layout, slacks: Slacks, b: Book, t: nat, k: nat, z: seq<real>)
    requires |z| == |b.x| == |b.upper| && k < l.s.crudes && PeriodColumns(l, slacks, b, t)
    ensures CrudeWithin(l, t, k, z) <==> forall c: nat :: IsCrudeColumn(l.s, c, t, k) ==> InBoxAt(b, z, c)
  {
    hide Start, ProductsTo;
    assert CrudeColumns(l, b, t, k);
    assert (forall c: nat :: IsCrudeColumn(l.s, c, t, k) ==> InBoxAt(b, z, c)) ==>
      InBoxAt(b, z, BuyAt(l.s, t, k)) && InBoxAt(b, z, RunAt(l.s, t, k)) && InBoxAt(b, z, CrudeAt(l.s, t, k));
  }

  lemma ProductBoxMeans(l: Layout, slacks: Slacks, b: Book, t: nat, j: nat, z: seq<real>)
    requires |z| == |b.x| == |b.upper| && j < l.s.products && PeriodColumns(l, slacks, b, t)
    ensures ProductWithin(l, slacks, t, j, z) <==> forall c: nat :: IsProductColumn(l.s, c, t, j) ==> InBoxAt(b, z, c)
  {
    hide Start, CrudesTo;
    assert ProductColumns(l, slacks, b, t, j);
    assert (forall c: nat :: IsProductColumn(l.s, c, t, j) ==> InBoxAt(b, z, c)) ==>
      InBoxAt(b, z, MakeAt(l.s, t, j)) && InBoxAt(b, z, SellAt(l.s, t, j)) && InBoxAt(b, z, StockAt(l.s, t, j));
  }

  lemma BoxMeans(l: Layout, slacks: Slacks, b: Book, z: seq<real>)
    requires |z| == |b.x| == |b.upper| == Start(l.s, l.s.periods)
    requires forall t :: 0 <= t < l.s.periods ==> PeriodColumns(l, slacks, b, t)
    ensures InBox(b, z) <==> WithinAll(l, slacks, z)
  {
    hide Start, CrudeWithin, ProductWithin, BelowUpper, PeriodColumns, IsCrudeColumn, IsProductColumn;
    forall t: nat, k: nat | t < l.s.periods && k < l.s.crudes
      ensures CrudeWithin(l, t, k, z) <==> forall c: nat :: IsCrudeColumn(l.s, c, t, k) ==> InBoxAt(b, z, c) {
      CrudeBoxMeans(l, slacks, b, t, k, z);
    }
    forall t: nat, j: nat | t < l.s.periods && j < l.s.products
      ensures ProductWithin(l, slacks, t, j, z)
        <==> forall c: nat :: IsProductColumn(l.s, c, t, j) ==> InBoxAt(b, z, c) {
      ProductBoxMeans(l, slacks, b, t, j, z);
    }
    if InBox(b, z) {
      forall t: nat, k: nat, c: nat | t < l.s.periods && (IsCrudeColumn(l.s, c, t, k) || IsProductColumn(l.s, c, t, k))
        ensures InBoxAt(b, z, c) {
        NamedColumnExists(l.s, c, t, k);
      }
    }
    if WithinAll(l, slacks, z) {
      forall c | 0 <= c < |z| ensures z[c] >= 0.0 && BelowUpper(b.upper[c], z[c]) && InBoxAt(b, z, c) {
        EveryColumnIsNamed(l.s, c, l.s.periods);
        var t: nat, k: nat :| t < l.s.periods && (IsCrudeColumn(l.s, c, t, k) || IsProductColumn(l.s, c, t, k));
        ColumnNames(l.s, c, t, k);
        if IsCrudeColumn(l.s, c, t, k) {
          assert CrudeWithin(l, t, k, z);
        } else {
          assert ProductWithin(l, slacks, t, k, z);
        }
      }
    }
  }

  lemma ColumnNames(s: Size, c: nat, t: nat, k: nat)
    ensures IsCrudeColumn(s, c, t, k) ==> k < s.crudes
    ensures IsProductColumn(s, c, t, k) ==> k < s.products
  {
  }

  lemma NamedColumnExists(s: Size, c: nat, t: nat, k: nat)
    requires t < s.periods && (IsCrudeColumn(s, c, t, k) || IsProductColumn(s, c, t, k))
    ensures c < Start(s, s.periods)
  {
    ColumnsExist(s, t, k);
  }

  /** The feasible points of the instance are exactly the plans the refinery can follow. */
  lemma FeasibleIsPlan(l: Layout, slacks: Slacks, b: Book, z: seq<real>)
    requires l.Valid() && b.Shaped() && |b.cost| == |b.x| == Start(l.s, l.s.periods)
    requires b.rows == RowsTo(l, slacks, l.s.periods)
    requires forall t :: 0 <= t < l.s.periods ==> PeriodColumns(l, slacks, b, t)
    ensures RowLp.Feasible(ToLp(b), z) <==> IsPlan(l, slacks, z)
  {
    hide Layout.Valid, Start, InBox, AllHold, WithinAll, PeriodColumns, RowsTo, RowLp.Feasible, RowPlanned, Means;
    FeasibleIsHeld(b, z);
    if |z| == |b.x| {
      BoxMeans(l, slacks, b, z);
      RowsToMean(l, slacks, l.s.periods, z);
    }
  }
}
