/** The distribution case study and its deliberately ill-conditioned twin: the same
    transportation problem with every row and every column in other units. */
module CaseStudies {
  import opened Vectors
  import opened LpModel
  import opened Scaling
  import Quadratic

  /** Supply rows first, then demand rows; one column per plant and depot, plant by plant. */
  datatype Network = Network(supply: seq<real>, demand: seq<real>, freight: seq<seq<real>>) {
    predicate Valid() {
      |freight| == |supply| && forall i :: 0 <= i < |freight| ==> |freight[i]| == |demand|
    }

    function NumRows(): nat { |supply| + |demand| }

    function NumCols(): nat { |supply| * |demand| }

    function Rhs(): (r: seq<real>)
      ensures |r| == NumRows()
    {
      supply + demand
    }
  }

  /** The plant and the depot of shipment k when the shipments are listed plant by plant. */
  function Place(k: nat, depots: nat): (nat, nat) {
    if k == 0 then (0, 0)
    else
      var (i, j) := Place(k - 1, depots);
      if j + 1 < depots then (i, j + 1) else (i + 1, 0)
  }

  /** The column of shipment k. */
  predicate PlainColumn(net: Network, m: Model, k: nat)
    requires net.Valid() && |m.cols| == |m.colCost| && k < |m.cols|
  {
    var (i, j) := Place(k, |net.demand|);
    && i < |net.supply| && j < |net.demand|
    && m.cols[k] == [Entry(i, 1.0), Entry(|net.supply| + j, 1.0)] && m.colCost[k] == net.freight[i][j]
  }

  predicate RescaledColumn(net: Network, m: Model, r: seq<real>, t: seq<real>, k: nat)
    requires net.Valid() && |r| == net.NumRows() && |m.cols| == |m.colCost| <= |t| && k < |m.cols|
  {
    var (i, j) := Place(k, |net.demand|);
    && i < |net.supply| && j < |net.demand|
    && m.cols[k] == [Entry(i, Mul(r[i], t[k])), Entry(|net.supply| + j, Mul(r[|net.supply| + j], t[k]))]
    && m.colCost[k] == Mul(net.freight[i][j], t[k])
  }

  predicate DefaultBounds(m: Model)
    requires m.Valid()
  {
    forall k :: 0 <= k < |m.cols| ==> m.colLower[k] == Fin(0.0) && m.colUpper[k].PosInf?
  }

  /** The rows are in place, and every column so far is the plain one of its shipment. */
  predicate PlainSoFar(net: Network, m: Model)
    requires net.Valid()
  {
    && m.Valid() && m.numRows == net.NumRows() && m.hessian == [] && m.offset == 0.0 && !m.maximize
    && (forall i :: 0 <= i < m.numRows ==> m.rowLower[i] == m.rowUpper[i] == Fin(net.Rhs()[i]))
    && DefaultBounds(m)
    && (forall k :: 0 <= k < |m.cols| ==> PlainColumn(net, m, k))
  }

  /** The same with row i multiplied by r_i and column k in units of t_k. */
  predicate RescaledSoFar(net: Network, m: Model, r: seq<real>, t: seq<real>)
    requires net.Valid() && |r| == net.NumRows()
  {
    && m.Valid() && m.numRows == net.NumRows() && m.hessian == [] && m.offset == 0.0 && !m.maximize
    && (forall i :: 0 <= i < m.numRows ==> m.rowLower[i] == m.rowUpper[i] == Fin(Mul(r[i], net.Rhs()[i])))
    && DefaultBounds(m)
    && |m.cols| <= |t| && (forall k :: 0 <= k < |m.cols| ==> RescaledColumn(net, m, r, t, k))
  }

  /** sum_j x_ij = supply_i,  sum_i x_ij = demand_j,  at the freight rates. */
  predicate IsSupplyChain(net: Network, m: Model)
    requires net.Valid()
  {
    PlainSoFar(net, m) && |m.cols| == net.NumCols()
  }

  predicate IsIllConditioned(net: Network, m: Model, r: seq<real>, t: seq<real>)
    requires net.Valid() && |r| == net.NumRows()
  {
    RescaledSoFar(net, m, r, t) && |m.cols| == net.NumCols()
  }

  /** What both builders share: an empty program with the rows in place. */
  function EmptyModel(rhs: seq<real>): (m: Model)
    ensures m.Valid() && m.numRows == |rhs| && m.cols == []
  {
    var b := seq(|rhs|, i requires 0 <= i < |rhs| => Fin(rhs[i]));
    Model(|rhs|, [], [], 0.0, false, [], [], b, b, [])
  }

  function AddColumn(m: Model, cost: real, entries: seq<Entry>): (q: Model)
    requires m.Valid() && m.hessian == [] && ValidColumn(entries, m.numRows)
    ensures q.Valid() && q.cols == m.cols + [entries] && q.colCost == m.colCost + [cost]
  {
    m.(cols := m.cols + [entries], colCost := m.colCost + [cost],
       colLower := m.colLower + [Fin(0.0)], colUpper := m.colUpper + [PosInf])
  }

  lemma AddPlain(net: Network, m: Model, i: nat, j: nat)
    requires net.Valid() && PlainSoFar(net, m) && i < |net.supply| && j < |net.demand|
      && Place(|m.cols|, |net.demand|) == (i, j)
    ensures PlainSoFar(net, AddColumn(m, net.freight[i][j], [Entry(i, 1.0), Entry(|net.supply| + j, 1.0)]))
  {
    hide Place;
    var q := AddColumn(m, net.freight[i][j], [Entry(i, 1.0), Entry(|net.supply| + j, 1.0)]);
    forall k | 0 <= k < |m.cols| ensures PlainColumn(net, q, k) { assert PlainColumn(net, m, k); }
  }

  lemma AddRescaled(net: Network, m: Model, r: seq<real>, t: seq<real>, i: nat, j: nat)
    requires net.Valid() && |r| == net.NumRows() && RescaledSoFar(net, m, r, t) && |m.cols| < |t|
    requires i < |net.supply| && j < |net.demand| && Place(|m.cols|, |net.demand|) == (i, j)
    ensures var f := t[|m.cols|];
      RescaledSoFar(net, AddColumn(m, Mul(net.freight[i][j], f),
                                   [Entry(i, Mul(r[i], f)), Entry(|net.supply| + j, Mul(r[|net.supply| + j], f))]), r,
                                       t)
  {
    hide Place, Mul;
    var f := t[|m.cols|];
    var q := AddColumn(m, Mul(net.freight[i][j], f),
        [Entry(i, Mul(r[i], f)), Entry(|net.supply| + j, Mul(r[|net.supply| + j], f))]);
    forall k | 0 <= k < |m.cols| ensures RescaledColumn(net, q, r, t, k) { assert RescaledColumn(net, m, r, t, k); }
  }

  lemma RowStarts(i: nat, p: nat, n: nat)
    requires i < p
    ensures (i + 1) * n == i * n + n <= p * n
  {
    MulMonotone(i + 1, p, n);
  }

  lemma MulMonotone(a: nat, b: nat, n: nat)
    requires a <= b
    ensures a * n <= b * n
  {
  }

  method SupplyChain(net: Network) returns (m: Model)
    requires net.Valid()
    ensures IsSupplyChain(net, m)
  {
    hide PlainColumn, PlainSoFar;
    var p, n := |net.supply|, |net.demand|;
    m := EmptyModel(net.Rhs());
    EmptyIsPlain(net);
    for i := 0 to p
      invariant PlainSoFar(net, m) && |m.cols| == i * n && (n > 0 ==> Place(|m.cols|, n) == (i, 0))
    {
      ghost var before := |m.cols|;
      for j := 0 to n
        invariant PlainSoFar(net, m) && |m.cols| == before + j
        invariant n > 0 ==> Place(|m.cols|, n) == (if j < n then (i, j) else (i + 1, 0))
      {
        AddPlain(net, m, i, j);
        PlainIsValid(net, m, i, j);
        m := AddColumn(m, net.freight[i][j], [Entry(i, 1.0), Entry(p + j, 1.0)]);
      }
      RowStarts(i, p, n);
    }
  }

  lemma EmptyIsPlain(net: Network)
    requires net.Valid()
    ensures PlainSoFar(net, EmptyModel(net.Rhs()))
  {
  }

  lemma PlainIsValid(net: Network, m: Model, i: nat, j: nat)
    requires net.Valid() && PlainSoFar(net, m) && i < |net.supply| && j < |net.demand|
    ensures m.Valid() && m.hessian == [] && ValidColumn([Entry(i, 1.0), Entry(|net.supply| + j, 1.0)], m.numRows)
  {
  }

  method IllConditioned(net: Network, r: seq<real>, t: seq<real>) returns (m: Model)
    requires net.Valid() && |r| == net.NumRows() && |t| == net.NumCols()
    ensures IsIllConditioned(net, m, r, t)
  {
    hide RescaledColumn, RescaledSoFar, Mul, EmptyModel, ScaledRhs, DefaultBounds, AddColumn;
    var p, n := |net.supply|, |net.demand|;
    m := EmptyModel(ScaledRhs(net, r));
    EmptyIsRescaled(net, r, t);
    var column := 0;
    for i := 0 to p
      invariant RescaledSoFar(net, m, r, t) && column == |m.cols| == i * n && (n > 0 ==> Place(column, n) == (i, 0))
    {
      ghost var before := column;
      RowStarts(i, p, n);
      assert before + n <= |t|;
      for j := 0 to n
        invariant RescaledSoFar(net, m, r, t) && column == |m.cols| == before + j
        invariant n > 0 ==> Place(column, n) == (if j < n then (i, j) else (i + 1, 0))
      {
        var scale := t[column];
        AddRescaled(net, m, r, t, i, j);
        RescaledIsValid(net, m, r, t, i, j);
        column := column + 1;
        m := AddColumn(m, Mul(net.freight[i][j], scale),
            [Entry(i, Mul(r[i], scale)), Entry(p + j, Mul(r[p + j], scale))]);
      }
    }
  }

  function ScaledRhs(net: Network, r: seq<real>): (b: seq<real>)
    requires |r| == net.NumRows()
    ensures |b| == |r| && forall i :: 0 <= i < |r| ==> b[i] == Mul(r[i], net.Rhs()[i])
  {
    seq(|r|, i requires 0 <= i < |r| => Mul(r[i], net.Rhs()[i]))
  }

  lemma EmptyIsRescaled(net: Network, r: seq<real>, t: seq<real>)
    requires net.Valid() && |r| == net.NumRows()
    ensures RescaledSoFar(net, EmptyModel(ScaledRhs(net, r)), r, t)
  {
  }

  lemma RescaledIsValid(net: Network, m: Model, r: seq<real>, t: seq<real>, i: nat, j: nat)
    requires net.Valid() && |r| == net.NumRows() && RescaledSoFar(net, m, r, t) && i < |net.supply| && j < |net.demand|
    ensures m.Valid() && m.hessian == [] && m.numRows == |net.supply| + |net.demand|
  {
  }

  lemma UnitEntry(v: real, r: real, t: real)
    requires v == 1.0
    ensures Mul(r, t) == v * r * t
  {
  }

  lemma ScaledZero(t: real)
    requires t > 0.0
    ensures 0.0 / t == 0.0
  {
  }

  /** The ill-conditioned case study is the supply chain in other units: same optimum, with
      x'_k = x_k / t_k, for every network and every choice of positive scales. */
  lemma IllConditionedKeepsOptimum(net: Network, m: Model, q: Model, r: seq<real>, t: seq<real>, x: seq<real>)
    requires net.Valid() && |r| == net.NumRows() && |t| == net.NumCols() == |x| && AllPositive(r) && AllPositive(t)
    requires IsSupplyChain(net, m) && IsIllConditioned(net, q, r, t)
    ensures Quadratic.Objective(q, Shrink(t, x)) == Quadratic.Objective(m, x)
    ensures Quadratic.IsOptimal(q, Shrink(t, x)) <==> Quadratic.IsOptimal(m, x)
  {
    IllConditionedIsRescaled(net, m, q, r, t);
    RescaledOptimum(m, q, r, t, x);
  }

  lemma ColumnRescales(net: Network, m: Model, q: Model, r: seq<real>, t: seq<real>, k: nat)
    requires net.Valid() && |r| == net.NumRows() && |t| == |m.cols| == |q.cols| && k < |t| && t[k] > 0.0
    requires PlainSoFar(net, m) && RescaledSoFar(net, q, r, t)
    ensures q.cols[k] == ScaleColumn(m.cols[k], r, t[k]) && q.colCost[k] == Mul(m.colCost[k], t[k])
    ensures q.colLower[k] == DivideBound(m.colLower[k], t[k]) && q.colUpper[k] == DivideBound(m.colUpper[k], t[k])
  {
    hide Mul, Place;
    var (i, j) := Place(k, |net.demand|);
    assert PlainColumn(net, m, k) && RescaledColumn(net, q, r, t, k);
    var col := m.cols[k];
    UnitEntry(col[0].val, r[col[0].row], t[k]);
    UnitEntry(col[1].val, r[col[1].row], t[k]);
    assert q.cols[k][0] == ScaleColumn(col, r, t[k])[0] && q.cols[k][1] == ScaleColumn(col, r, t[k])[1];
    ScaledZero(t[k]);
  }

  lemma IllConditionedIsRescaled(net: Network, m: Model, q: Model, r: seq<real>, t: seq<real>)
    requires net.Valid() && |r| == net.NumRows() && |t| == net.NumCols() && AllPositive(r) && AllPositive(t)
    requires IsSupplyChain(net, m) && IsIllConditioned(net, q, r, t)
    ensures IsRescaled(m, q, r, t)
  {
    hide Mul, ScaleColumn, DivideBound, PlainColumn, RescaledColumn;
    forall k | 0 <= k < |m.cols|
      ensures q.cols[k] == ScaleColumn(m.cols[k], r, t[k]) && q.colCost[k] == Mul(m.colCost[k], t[k])
      ensures q.colLower[k] == DivideBound(m.colLower[k], t[k]) && q.colUpper[k] == DivideBound(m.colUpper[k], t[k]) {
      ColumnRescales(net, m, q, r, t, k);
    }
    forall i | 0 <= i < m.numRows ensures Mul(r[i], net.Rhs()[i]) == Mul(net.Rhs()[i], r[i]) {
      MulSwap(r[i], net.Rhs()[i]);
    }
  }

  lemma MulSwap(a: real, b: real)
    ensures Mul(a, b) == Mul(b, a)
  {
  }
}
