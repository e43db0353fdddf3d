/** The distribution case study's constraint matrix: its rank, since summing the supply rows and
    summing the demand rows give the same equation and nothing else is redundant, and what its
    feasible points are. */
module TransportRank {
  import opened Vectors
  import opened LpModel
  import opened LinearAlgebra
  import opened CaseStudies

  /** The constraint matrix, row by row. */
  function Dense(m: Model): (a: seq<seq<real>>)
    requires m.Valid()
    ensures |a| == m.numRows && Rect(a, |m.cols|)
    ensures forall i, k :: 0 <= i < m.numRows && 0 <= k < |m.cols| ==>
      a[i][k] == Coefficient(m.cols[k], i, |m.cols[k]|)
  {
    seq(m.numRows, i requires 0 <= i < m.numRows =>
      seq(|m.cols|, k requires 0 <= k < |m.cols| => Coefficient(m.cols[k], i, |m.cols[k]|)))
  }

  // ---- Where the ones are -----------------------------------------------------------------

  /** Row i takes part in shipment k: it is the plant's supply row or the depot's demand row. */
  predicate Touches(i: nat, k: nat, plants: nat, depots: nat) {
    var (s, j) := Place(k, depots);
    i == s || i == plants + j
  }

  /** The shipments of plant s follow each other, one per depot. */
  lemma {:induction false} PlaceOfShipment(s: nat, j: nat, depots: nat)
    requires j < depots
    ensures Place(s * depots + j, depots) == (s, j)
    decreases s, j
  {
    if j > 0 {
      PlaceOfShipment(s, j - 1, depots);
    } else if s > 0 {
      PlaceOfShipment(s - 1, depots - 1, depots);
      PreviousShipment(s, depots);
    }
  }

  lemma PreviousShipment(s: nat, depots: nat)
    requires s > 0 && depots > 0
    ensures s * depots == (s - 1) * depots + (depots - 1) + 1 && s * depots > 0
  {
  }

  /** Every plant and depot have a shipment between them. */
  lemma ShipmentExists(s: nat, j: nat, plants: nat, depots: nat) returns (k: nat)
    requires s < plants && j < depots
    ensures k < plants * depots && Place(k, depots) == (s, j)
  {
    k := s * depots + j;
    PlaceOfShipment(s, j, depots);
    RowStarts(s, plants, depots);
  }

  lemma TwoEntries(a: nat, b: nat, i: nat)
    requires a != b
    ensures Coefficient([Entry(a, 1.0), Entry(b, 1.0)], i, 2) == if i == a || i == b then 1.0 else 0.0
  {
    var col := [Entry(a, 1.0), Entry(b, 1.0)];
    assert Coefficient(col, i, 2) == Coefficient(col, i, 1) + if i == b then 1.0 else 0.0;
    assert Coefficient(col, i, 1) == Coefficient(col, i, 0) + if i == a then 1.0 else 0.0;
  }

  /** The matrix has a one where a row takes part in a shipment and zeros elsewhere. */
  lemma DenseIsIncidence(net: Network, m: Model, i: nat, k: nat)
    requires net.Valid() && IsSupplyChain(net, m) && i < m.numRows && k < |m.cols|
    ensures var (s, j) := Place(k, |net.demand|); s < |net.supply| && j < |net.demand|
    ensures Dense(m)[i][k] == if Touches(i, k, |net.supply|, |net.demand|) then 1.0 else 0.0
  {
    hide Place, Coefficient;
    assert PlainColumn(net, m, k);
    var (s, j) := Place(k, |net.demand|);
    TwoEntries(s, |net.supply| + j, i);
  }

  // ---- All rows but the last are a basis ----------------------------------------------------

  /** A combination of a column with ones in two places. */
  lemma {:induction false} DotOfTwo(c: seq<real>, v: seq<real>, a: nat, b: nat, k: nat)
    requires |c| == |v| && k <= |v| && a != b
    requires forall i :: 0 <= i < |v| ==> v[i] == if i == a || i == b then 1.0 else 0.0
    ensures DotTo(c, v, k) == (if a < k then c[a] else 0.0) + (if b < k then c[b] else 0.0)
  {
    if k > 0 { DotOfTwo(c, v, a, b, k - 1); }
  }

  /** What a combination of all rows but the last gives in the column of a shipment. */
  lemma CombAtShipment(net: Network, m: Model, c: seq<real>, k: nat)
    requires net.Valid() && IsSupplyChain(net, m) && |c| + 1 == m.numRows && k < |m.cols|
    ensures var (s, j) := Place(k, |net.demand|);
      && s < |net.supply| && j < |net.demand| && s < |c|
      && Comb(c, Dense(m)[..|c|], |m.cols|)[k]
         == c[s] + if j + 1 < |net.demand| then c[|net.supply| + j] else 0.0
  {
    hide Dense, DotTo, Place;
    var b := Dense(m)[..|c|];
    var (s, j) := Place(k, |net.demand|);
    forall i | 0 <= i < |c|
      ensures Column(b, |m.cols|, k)[i] == if i == s || i == |net.supply| + j then 1.0 else 0.0
    {
      DenseIsIncidence(net, m, i, k);
    }
    DenseIsIncidence(net, m, 0, k);
    DotOfTwo(c, Column(b, |m.cols|, k), s, |net.supply| + j, |c|);
  }

  /** They are independent: the last depot's shipments isolate each supply row, and the first
      plant's then each demand row. */
  lemma BasisIsIndependent(net: Network, m: Model)
    requires net.Valid() && |net.supply| >= 1 && |net.demand| >= 1 && IsSupplyChain(net, m)
    ensures Independent(Dense(m)[..m.numRows - 1], |m.cols|)
  {
    hide Dense, Comb, Place, IsSupplyChain;
    SizesOf(net, m);
    var b, p, d := Dense(m)[..m.numRows - 1], |net.supply|, |net.demand|;
    forall c: seq<real> | |c| == |b| && IsZero(Comb(c, b, |m.cols|)) ensures IsZero(c) {
      forall s | 0 <= s < p ensures c[s] == 0.0 {
        var k := ShipmentExists(s, d - 1, p, d);
        CombAtShipment(net, m, c, k);
      }
      forall i | p <= i < |c| ensures c[i] == 0.0 {
        var k := ShipmentExists(0, i - p, p, d);
        CombAtShipment(net, m, c, k);
      }
    }
  }

  lemma SizesOf(net: Network, m: Model)
    requires net.Valid() && IsSupplyChain(net, m)
    ensures m.Valid() && m.numRows == |net.supply| + |net.demand| && |m.cols| == |net.supply| * |net.demand|
  {
  }

  /** The last demand row is the supply rows less the other demand rows. */
  lemma LastRowIsRedundant(net: Network, m: Model)
    requires net.Valid() && |net.supply| >= 1 && |net.demand| >= 1 && IsSupplyChain(net, m)
    ensures InSpan(Dense(m)[m.numRows - 1], Dense(m)[..m.numRows - 1], |m.cols|)
  {
    hide Dense, Comb, Place, IsSupplyChain;
    SizesOf(net, m);
    var last, b, p := m.numRows - 1, Dense(m)[..m.numRows - 1], |net.supply|;
    var c := seq(last, i => if i < p then 1.0 else -1.0);
    forall k | 0 <= k < |m.cols| ensures Comb(c, b, |m.cols|)[k] == Dense(m)[last][k] {
      CombAtShipment(net, m, c, k);
      DenseIsIncidence(net, m, last, k);
      var (s, j) := Place(k, |net.demand|);
      assert c[s] == 1.0 && (p + j < last ==> c[p + j] == -1.0);
    }
    assert Dense(m)[last] == Comb(c, b, |m.cols|);
  }

  /** The rank of the transportation matrix is one below its number of rows, for every network with
      a plant and a depot. */
  lemma RankIsOneBelowRows(net: Network, m: Model, r: nat)
    requires net.Valid() && |net.supply| >= 1 && |net.demand| >= 1 && IsSupplyChain(net, m)
    ensures m.Valid() && (IsRank(Dense(m), |m.cols|, r) <==> r + 1 == net.NumRows())
  {
    hide Dense, InSpan, Independent, IsRank, IsSupplyChain;
    SizesOf(net, m);
    BasisSpans(net, m);
    BasisIsIndependent(net, m);
    BasisIsRank(Dense(m), Dense(m)[..m.numRows - 1], |m.cols|);
    if IsRank(Dense(m), |m.cols|, r) { RankIsUnique(Dense(m), |m.cols|, r, m.numRows - 1); }
  }

  lemma BasisSpans(net: Network, m: Model)
    requires net.Valid() && |net.supply| >= 1 && |net.demand| >= 1 && IsSupplyChain(net, m)
    ensures SameSpan(Dense(m), Dense(m)[..m.numRows - 1], |m.cols|)
  {
    hide Dense, InSpan, IsSupplyChain;
    SizesOf(net, m);
    var a, b := Dense(m), Dense(m)[..m.numRows - 1];
    SubsetInSpan(b, a, |m.cols|);
    LastRowIsRedundant(net, m);
    forall i | 0 <= i < |a| ensures InSpan(a[i], b, |m.cols|) {
      if i < |b| { RowInSpan(b, |m.cols|, i); }
    }
  }

  lemma BasisIsRank(a: seq<seq<real>>, b: seq<seq<real>>, n: nat)
    requires Rect(a, n) && Rect(b, n) && Independent(b, n) && SameSpan(a, b, n)
    ensures IsRank(a, n, |b|)
  {
  }

  // ---- What the model says ------------------------------------------------------------------

  /** Row i's part in the first k shipments: what leaves plant i, or what reaches depot i - plants. */
  function ShippedTo(net: Network, x: seq<real>, i: nat, k: nat): real
    requires k <= |x|
  {
    if k == 0 then 0.0
    else
      var (s, j) := Place(k - 1, |net.demand|);
      ShippedTo(net, x, i, k - 1)
      + if (i < |net.supply| && s == i) || (i >= |net.supply| && j == i - |net.supply|) then x[k - 1] else 0.0
  }

  /** Every shipment at the freight of its route. */
  function FreightTo(net: Network, x: seq<real>, k: nat): real
    requires net.Valid() && k <= |x|
    requires forall q :: 0 <= q < k ==>
      Place(q, |net.demand|).0 < |net.supply| && Place(q, |net.demand|).1 < |net.demand|
  {
    if k == 0 then 0.0
    else
      var (s, j) := Place(k - 1, |net.demand|);
      FreightTo(net, x, k - 1) + Mul(net.freight[s][j], x[k - 1])
  }

  lemma AddTwo(out: seq<real>, a: nat, b: nat, v: real, i: nat)
    requires a < |out| && b < |out| && a != b && i < |out|
    ensures AddColumnTo(out, [Entry(a, 1.0), Entry(b, 1.0)], v, 2)[i] == out[i] + if i == a || i == b then v else 0.0
  {
    var col := [Entry(a, 1.0), Entry(b, 1.0)];
    assert AddColumnTo(out, col, v, 2) == AddEntry(AddColumnTo(out, col, v, 1), col[1], v);
    assert AddColumnTo(out, col, v, 1) == AddEntry(AddColumnTo(out, col, v, 0), col[0], v);
    assert Mul(1.0, v) == v;
  }

  lemma {:induction false} RowsAreTotals(net: Network, m: Model, x: seq<real>, k: nat)
    requires net.Valid() && IsSupplyChain(net, m) && |x| == |m.cols| && k <= |x|
    ensures forall i :: 0 <= i < m.numRows ==> TimesTo(m, x, k)[i] == ShippedTo(net, x, i, k)
  {
    hide Place;
    if k > 0 {
      RowsAreTotals(net, m, x, k - 1);
      assert PlainColumn(net, m, k - 1);
      var (s, j) := Place(k - 1, |net.demand|);
      forall i | 0 <= i < m.numRows ensures TimesTo(m, x, k)[i] == ShippedTo(net, x, i, k) {
        AddTwo(TimesTo(m, x, k - 1), s, |net.supply| + j, x[k - 1], i);
      }
    }
  }

  lemma {:induction false} CostIsFreight(net: Network, m: Model, x: seq<real>, k: nat)
    requires net.Valid() && IsSupplyChain(net, m) && |x| == |m.cols| && k <= |x|
    ensures forall q :: 0 <= q < k ==>
      Place(q, |net.demand|).0 < |net.supply| && Place(q, |net.demand|).1 < |net.demand|
    ensures DotTo(m.colCost, x, k) == FreightTo(net, x, k)
  {
    hide Place, Mul;
    if k > 0 {
      CostIsFreight(net, m, x, k - 1);
      assert PlainColumn(net, m, k - 1);
    }
  }

  /** The feasible points are the nonnegative shipments in which every plant sends its supply and every depot
      receives its demand, and the objective is their freight. */
  lemma FeasibleIsShipping(net: Network, m: Model, x: seq<real>)
    requires net.Valid() && IsSupplyChain(net, m)
    ensures m.Valid()
    ensures Feasible(m, x) <==>
      && |x| == |net.supply| * |net.demand| && (forall k :: 0 <= k < |x| ==> x[k] >= 0.0)
      && (forall i :: 0 <= i < net.NumRows() ==> ShippedTo(net, x, i, |x|) == (net.supply + net.demand)[i])
    ensures |x| == |m.cols| ==>
      (forall q :: 0 <= q < |x| ==> Place(q, |net.demand|).0 < |net.supply| && Place(q, |net.demand|).1 < |net.demand|)
      && Dot(m.colCost, x) == FreightTo(net, x, |x|)
  {
    hide Place, TimesTo, DotTo, ShippedTo, FreightTo;
    if |x| == |m.cols| {
      CostIsFreight(net, m, x, |x|);
      RowsAreTotals(net, m, x, |x|);
      forall k | 0 <= k < |x| ensures Within(m.colLower[k], x[k], m.colUpper[k]) <==> x[k] >= 0.0 {}
      forall i | 0 <= i < m.numRows
        ensures Within(m.rowLower[i], Times(m, x)[i], m.rowUpper[i])
                <==> ShippedTo(net, x, i, |x|) == (net.supply + net.demand)[i] {
        assert Times(m, x)[i] == ShippedTo(net, x, i, |x|) && m.rowLower[i] == m.rowUpper[i] == Fin(net.Rhs()[i]);
      }
    }
  }
}
