/** The refinery planning LP: the instance the generator fills, the prices it derives from a
    plan, and the self-check it runs before writing anything. */
module Refinery {
  import opened Vectors
  import opened LpModel
  import opened Grids
  import Decimals
  import Kkt
  import RowLp

  datatype Sense = Equal | AtMost | AtLeast

  /** A row: a dictionary from columns to coefficients, kept in insertion order. */
  datatype Row = Row(sense: Sense, entries: seq<Entry>, rhs: real)

  predicate DistinctKeys(entries: seq<Entry>) {
    forall p, q :: 0 <= p < q < |entries| ==> entries[p].row != entries[q].row
  }

  predicate RowHolds(row: Row, x: seq<real>)
    requires ValidColumn(row.entries, |x|)
  {
    var activity := ColDot(row.entries, x);
    match row.sense
    case Equal => activity == row.rhs
    case AtMost => activity <= row.rhs
    case AtLeast => activity >= row.rhs
  }

  predicate ShortRow(row: Row) {
    (forall k :: 0 <= k < |row.entries| ==> Parts(row.entries[k].val, 100000.0)) && Parts(row.rhs, 100000.0)
  }

  predicate RowOk(row: Row, x: seq<real>) {
    ValidColumn(row.entries, |x|) && DistinctKeys(row.entries) && RowHolds(row, x) && ShortRow(row)
  }

  predicate ColumnOk(v: real, upper: Bound) {
    v >= 0.0 && !upper.NegInf? && BelowUpper(upper, v) && (upper.Fin? ==> Parts(upper.v, 100000.0))
  }

  /** Everything an instance holds, as a value. */
  datatype Book = Book(rows: seq<Row>, lower: seq<real>, upper: seq<Bound>, x: seq<real>, y: seq<real>,
      cost: seq<real>) {
    predicate Shaped() {
      && |lower| == |upper| == |x| && |y| == |rows|
      && (forall j :: 0 <= j < |x| ==> lower[j] == 0.0 && !upper[j].NegInf?)
      && (forall i :: 0 <= i < |rows| ==> ValidColumn(rows[i].entries, |x|))
    }

    /** The plan respects every row and bound, and every number so far is short. */
    predicate Holds() {
      && Shaped()
      && (forall i :: 0 <= i < |rows| ==> RowOk(rows[i], x))
      && (forall j :: 0 <= j < |x| ==> ColumnOk(x[j], upper[j]))
    }

    function WithColumn(value: real, bound: Bound): Book {
      this.(lower := lower + [0.0], upper := upper + [bound], x := x + [value])
    }

    function WithRow(row: Row): Book {
      this.(rows := rows + [row], y := y + [0.0])
    }
  }

  class Instance {
    var rows: seq<Row>
    var lower: seq<real>
    var upper: seq<Bound>
    var x: seq<real>
    var y: seq<real>
    var cost: seq<real>

    ghost function State(): Book
      reads this
    {
      Book(rows, lower, upper, x, y, cost)
    }

    constructor ()
      ensures State() == Book([], [], [], [], [], [])
    {
      rows, lower, upper, x, y, cost := [], [], [], [], [], [];
    }

    method AddColumn(value: real, bound: Bound) returns (col: nat)
      modifies this
      ensures State() == old(State()).WithColumn(value, bound) && col == |old(lower)|
    {
      lower := lower + [0.0];
      upper := upper + [bound];
      x := x + [value];
      col := |lower| - 1;
    }

    method AddRow(row: Row) returns (i: nat)
      modifies this
      ensures State() == old(State()).WithRow(row) && i == |old(rows)|
    {
      rows := rows + [row];
      y := y + [0.0];
      i := |rows| - 1;
    }
  }

  // ---- The linear program -----------------------------------------------------------------

  function RowBounds(row: Row): (Bound, Bound) {
    match row.sense
    case Equal => (Fin(row.rhs), Fin(row.rhs))
    case AtMost => (NegInf, Fin(row.rhs))
    case AtLeast => (Fin(row.rhs), PosInf)
  }

  function ToLp(b: Book): (p: RowLp.Lp)
    requires b.Shaped() && |b.cost| == |b.x|
    ensures p.Valid() && |p.rows| == |b.rows| && p.NumCols() == |b.x|
  {
    RowLp.Lp(
      seq(|b.rows|, i requires 0 <= i < |b.rows| => b.rows[i].entries),
      seq(|b.rows|, i requires 0 <= i < |b.rows| => RowBounds(b.rows[i]).0),
      seq(|b.rows|, i requires 0 <= i < |b.rows| => RowBounds(b.rows[i]).1),
      b.cost,
      seq(|b.lower|, j requires 0 <= j < |b.lower| => Fin(b.lower[j])),
      b.upper)
  }

  /** A'y over the rows, as the generator and its check both accumulate it. */
  function PulledTo(rows: seq<Row>, y: seq<real>, n: nat, i: nat): (r: seq<real>)
    requires i <= |rows| == |y| && forall q :: 0 <= q < |rows| ==> ValidColumn(rows[q].entries, n)
    ensures |r| == n
  {
    if i == 0 then Zeros(n)
    else
      var entries := rows[i - 1].entries;
      AddColumnTo(PulledTo(rows, y, n, i - 1), entries, y[i - 1], |entries|)
  }

  lemma {:induction false} PulledIsTranspose(b: Book, i: nat)
    requires b.Shaped() && |b.cost| == |b.x| && i <= |b.rows|
    ensures PulledTo(b.rows, b.y, |b.x|, i) == TimesTo(ToLp(b).Transposed(), b.y, i)
  {
    if i > 0 { PulledIsTranspose(b, i - 1); }
  }

  // ---- The self-check ---------------------------------------------------------------------

  /** The assertions on one row: it holds, its multiplier has the sign its sense demands, and a
      slack inequality carries none. */
  predicate RowPasses(row: Row, x: seq<real>, y: real)
    requires ValidColumn(row.entries, |x|)
  {
    && RowHolds(row, x)
    && (row.sense.AtMost? ==> y <= 0.0)
    && (row.sense.AtLeast? ==> y >= 0.0)
    && (!row.sense.Equal? && ColDot(row.entries, x) != row.rhs ==> y == 0.0)
  }

  /** The assertions on one column's reduced cost. */
  predicate PricePasses(d: real, x: real, lower: real, upper: Bound) {
    var atLower, atUpper := x == lower, upper.Fin? && x == upper.v;
    && (!atLower && !atUpper ==> d == 0.0)
    && (atLower && !atUpper ==> d >= 0.0)
    && (atUpper && !atLower ==> d <= 0.0)
  }

  predicate Passes(b: Book)
    requires b.Shaped() && |b.cost| == |b.x|
  {
    && (forall j :: 0 <= j < |b.x| ==> b.lower[j] <= b.x[j] && BelowUpper(b.upper[j], b.x[j]))
    && (forall i :: 0 <= i < |b.rows| ==> RowPasses(b.rows[i], b.x, b.y[i]))
    && (forall j :: 0 <= j < |b.x| ==>
         PricePasses(b.cost[j] - PulledTo(b.rows, b.y, |b.x|, |b.rows|)[j], b.x[j], b.lower[j], b.upper[j]))
  }

  method Pull(out: seq<real>, entries: seq<Entry>, t: real) returns (r: seq<real>)
    requires ValidColumn(entries, |out|)
    ensures |r| == |out| && r == AddColumnTo(out, entries, t, |entries|)
  {
    r := out;
    for k := 0 to |entries|
      invariant |r| == |out| && r == AddColumnTo(out, entries, t, k)
    {
      r := AddEntry(r, entries[k], t);
    }
  }

  /** Whether every assertion of the check holds. */
  method Verify(inst: Instance) returns (ok: bool)
    requires inst.State().Shaped() && |inst.cost| == |inst.x|
    ensures ok <==> Passes(inst.State())
  {
    hide RowPasses, PricePasses, AddColumnTo;
    ghost var b := inst.State();
    var n := |inst.x|;
    for j := 0 to n
      invariant forall q :: 0 <= q < j ==> b.lower[q] <= b.x[q] && BelowUpper(b.upper[q], b.x[q])
    {
      if !(inst.lower[j] <= inst.x[j] && BelowUpper(inst.upper[j], inst.x[j])) { return false; }
    }
    var pulled := Zeros(n);
    for i := 0 to |inst.rows|
      invariant |pulled| == n && pulled == PulledTo(b.rows, b.y, n, i)
      invariant forall q :: 0 <= q < i ==> RowPasses(b.rows[q], b.x, b.y[q])
    {
      var passes := CheckRow(inst.rows[i], inst.x, inst.y[i]);
      if !passes { return false; }
      pulled := Pull(pulled, inst.rows[i].entries, inst.y[i]);
    }
    for j := 0 to n
      invariant forall q :: 0 <= q < j ==> PricePasses(b.cost[q] - pulled[q], b.x[q], b.lower[q], b.upper[q])
    {
      if !PricePasses(inst.cost[j] - pulled[j], inst.x[j], inst.lower[j], inst.upper[j]) { return false; }
    }
    ok := true;
  }

  method CheckRow(row: Row, x: seq<real>, y: real) returns (ok: bool)
    requires ValidColumn(row.entries, |x|)
    ensures ok <==> RowPasses(row, x, y)
  {
    var activity := EvaluateRow(row.entries, x);
    match row.sense {
      case Equal =>
        if activity != row.rhs { return false; }
      case AtMost =>
        if activity > row.rhs { return false; }
        if y > 0.0 { return false; }
      case AtLeast =>
        if activity < row.rhs { return false; }
        if y < 0.0 { return false; }
    }
    if !row.sense.Equal? && activity != row.rhs && y != 0.0 { return false; }
    ok := true;
  }

  lemma RowPassesIsTight(row: Row, x: seq<real>, y: real)
    requires ValidColumn(row.entries, |x|)
    ensures var (lo, hi) := RowBounds(row);
      RowPasses(row, x, y)
      <==> (Within(lo, ColDot(row.entries, x), hi) && Kkt.Tight(y, ColDot(row.entries, x), lo, hi))
  {
  }

  /** The check is exactly the optimality conditions of the program it is about. */
  lemma PassesIsKkt(b: Book)
    requires b.Shaped() && |b.cost| == |b.x|
    ensures Passes(b) <==> RowLp.KktHolds(ToLp(b), b.x, b.y)
  {
    var p := ToLp(b);
    PulledIsTranspose(b, |b.rows|);
    hide ColDot, RowPasses, Kkt.Tight, PulledTo, RowLp.Pulled, Within, RowBounds;
    var activities, d := RowLp.Activities(p, b.x), RowLp.Reduced(p, b.y);
    forall i | 0 <= i < |b.rows|
      ensures RowPasses(b.rows[i], b.x, b.y[i])
              <==> (Within(p.rowLower[i], activities[i], p.rowUpper[i])
                    && Kkt.Tight(b.y[i], activities[i], p.rowLower[i], p.rowUpper[i])) {
      RowPassesIsTight(b.rows[i], b.x, b.y[i]);
    }
    forall j | 0 <= j < |b.x|
      ensures d[j] == b.cost[j] - PulledTo(b.rows, b.y, |b.x|, |b.rows|)[j]
      ensures (b.lower[j] <= b.x[j] && BelowUpper(b.upper[j], b.x[j])) <==> Within(p.lower[j], b.x[j], p.upper[j])
      ensures b.lower[j] <= b.x[j] && BelowUpper(b.upper[j], b.x[j]) ==>
        (PricePasses(d[j], b.x[j], b.lower[j], b.upper[j]) <==> Kkt.Tight(d[j], b.x[j], p.lower[j], p.upper[j])) {
      ColumnPassesIsTight(d[j], b.x[j], b.lower[j], b.upper[j]);
      RowLp.PulledUnfolds(p, b.y);
    }
  }

  lemma ColumnPassesIsTight(d: real, x: real, lower: real, upper: Bound)
    requires !upper.NegInf?
    ensures (lower <= x && BelowUpper(upper, x)) <==> Within(Fin(lower), x, upper)
    ensures lower <= x && BelowUpper(upper, x) ==>
      (PricePasses(d, x, lower, upper) <==> Kkt.Tight(d, x, Fin(lower), upper))
  {
  }

  /** Whatever passes the check has its plan optimal among all feasible plans. */
  lemma PassingPlanIsOptimal(b: Book)
    requires b.Shaped() && |b.cost| == |b.x| && Passes(b)
    ensures RowLp.IsOptimal(ToLp(b), b.x)
  {
    PassesIsKkt(b);
    RowLp.KktIsOptimal(ToLp(b), b.x, b.y);
  }

  // ---- Prices -------------------------------------------------------------------------------

  type Multiplier = v: nat | 1 <= v <= 9 witness 1
  type PriceStep = v: nat | v <= 9

  /** A drawn sign and magnitude for every row and every column. */
  datatype PriceDraws = PriceDraws(
    rowNegative: nat -> bool, rowSize: nat -> Multiplier,
    columnNegative: nat -> bool, columnSize: nat -> PriceStep)

  function Signed(negative: bool, size: nat): real {
    if negative then -(size as real) else size as real
  }

  /** The multiplier of a row at the plan: any sign on an equality, the sense's sign on a tight
      inequality, none on a slack one. */
  function RowPrice(row: Row, tight: bool, negative: bool, size: nat): real {
    match row.sense
    case Equal => Signed(negative, size)
    case AtMost => if tight then -(size as real) else 0.0
    case AtLeast => if tight then size as real else 0.0
  }

  function ColumnPrice(x: real, lower: real, upper: Bound, negative: bool, size: nat): real {
    var atLower, atUpper := x == lower, upper.Fin? && x == upper.v;
    if atLower && atUpper then Signed(negative, size)
    else if atLower then size as real
    else if atUpper then -(size as real)
    else 0.0
  }

  /** Row i's multiplier as drawn. */
  function DrawnRowPrice(b: Book, draws: PriceDraws, i: nat): real
    requires i < |b.rows| && ValidColumn(b.rows[i].entries, |b.x|)
  {
    RowPrice(b.rows[i], ColDot(b.rows[i].entries, b.x) == b.rows[i].rhs, draws.rowNegative(i), draws.rowSize(i))
  }

  predicate RowsPriced(b: Book, draws: PriceDraws)
    requires b.Shaped()
  {
    forall i :: 0 <= i < |b.rows| ==> b.y[i] == DrawnRowPrice(b, draws, i)
  }

  /** Every cost is the drawn reduced cost plus A'y. */
  predicate ColumnsPriced(b: Book, draws: PriceDraws)
    requires b.Shaped() && |b.cost| == |b.x|
  {
    forall j :: 0 <= j < |b.x| ==>
      b.cost[j] - PulledTo(b.rows, b.y, |b.x|, |b.rows|)[j]
      == ColumnPrice(b.x[j], b.lower[j], b.upper[j], draws.columnNegative(j), draws.columnSize(j))
  }

  lemma RowPricePasses(row: Row, x: seq<real>, negative: bool, size: nat)
    requires RowOk(row, x)
    ensures RowPasses(row, x, RowPrice(row, ColDot(row.entries, x) == row.rhs, negative, size))
    ensures Whole(RowPrice(row, ColDot(row.entries, x) == row.rhs, negative, size))
  {
    hide ColDot, ShortRow, DistinctKeys;
    var s: int := size;
    WholeOf(s);
    WholeOf(-s);
    assert (-s) as real == -(s as real);
  }

  lemma RowOkUnfolds(row: Row, x: seq<real>)
    requires RowOk(row, x)
    ensures ValidColumn(row.entries, |x|) && RowHolds(row, x) && ShortRow(row)
  {
  }

  /** Exactly the tight rows have a price, of a size from 1 to 9. */
  predicate TightRowsPriced(b: Book)
    requires b.Shaped()
  {
    forall i :: 0 <= i < |b.rows| ==>
      (b.y[i] != 0.0 <==> ColDot(b.rows[i].entries, b.x) == b.rows[i].rhs) && -9.0 <= b.y[i] <= 9.0
  }

  lemma PricedIsTight(b: Book, draws: PriceDraws)
    requires b.Holds() && RowsPriced(b, draws)
    ensures TightRowsPriced(b)
  {
    hide ColDot, ShortRow, DistinctKeys, ColumnOk;
    forall i | 0 <= i < |b.rows|
      ensures (b.y[i] != 0.0 <==> ColDot(b.rows[i].entries, b.x) == b.rows[i].rhs) && -9.0 <= b.y[i] <= 9.0
    {
      assert RowOk(b.rows[i], b.x) && b.y[i] == DrawnRowPrice(b, draws, i);
    }
  }

  /** Gives every row its multiplier. The generator's own assertions cannot fail. */
  method PriceRows(inst: Instance, draws: PriceDraws)
    requires inst.State().Holds()
    modifies inst`y
    ensures inst.State() == old(inst.State()).(y := inst.y) && |inst.y| == |inst.rows|
    ensures forall i :: 0 <= i < |inst.rows| ==> RowPasses(inst.rows[i], inst.x, inst.y[i]) && Whole(inst.y[i])
    ensures RowsPriced(inst.State(), draws)
  {
    hide RowOk, ColumnOk, RowPasses, RowPrice, Whole;
    ghost var b := inst.State();
    for i := 0 to |inst.rows|
      invariant inst.State() == b.(y := inst.y) && |inst.y| == |inst.rows|
      invariant forall q :: 0 <= q < i ==> RowPasses(b.rows[q], b.x, inst.y[q]) && Whole(inst.y[q])
      invariant forall q :: 0 <= q < i ==> inst.y[q] == DrawnRowPrice(b, draws, q)
    {
      var row := inst.rows[i];
      assert RowOk(row, b.x);
      RowOkUnfolds(row, b.x);
      var activity := EvaluateRow(row.entries, inst.x);
      var tight := activity == row.rhs;
      match row.sense {
        case Equal => assert tight;
        case AtMost => assert activity <= row.rhs;
        case AtLeast => assert activity >= row.rhs;
      }
      RowPricePasses(row, b.x, draws.rowNegative(i), draws.rowSize(i));
      inst.y := inst.y[i := RowPrice(row, tight, draws.rowNegative(i), draws.rowSize(i))];
      assert inst.y[i] == DrawnRowPrice(b, draws, i);
    }
  }

  /** A'y, skipping the rows without a multiplier. */
  method PullRows(rows: seq<Row>, y: seq<real>, n: nat) returns (pulled: seq<real>)
    requires |rows| == |y| && forall i :: 0 <= i < |rows| ==> ValidColumn(rows[i].entries, n)
    ensures |pulled| == n && pulled == PulledTo(rows, y, n, |rows|)
  {
    hide AddColumnTo;
    pulled := Zeros(n);
    for i := 0 to |rows|
      invariant |pulled| == n && pulled == PulledTo(rows, y, n, i)
    {
      if y[i] == 0.0 {
        AddNothing(pulled, rows[i].entries, |rows[i].entries|);
        continue;
      }
      pulled := Pull(pulled, rows[i].entries, y[i]);
    }
  }

  /** The costs c = d + A'y, one per column. */
  method PriceColumns(inst: Instance, pulled: seq<real>, draws: PriceDraws)
    requires inst.State().Shaped() && inst.cost == [] && |pulled| == |inst.x|
    modifies inst`cost
    ensures inst.State() == old(inst.State()).(cost := inst.cost) && |inst.cost| == |inst.x|
    ensures forall j :: 0 <= j < |inst.x| ==>
      PricePasses(inst.cost[j] - pulled[j], inst.x[j], inst.lower[j], inst.upper[j]) && Whole(inst.cost[j] - pulled[j])
    ensures forall j :: 0 <= j < |inst.x| ==>
      inst.cost[j] - pulled[j]
          == ColumnPrice(inst.x[j], inst.lower[j], inst.upper[j], draws.columnNegative(j), draws.columnSize(j))
  {
    hide ColumnPrice, PricePasses, Whole;
    for j := 0 to |inst.x|
      invariant inst.State() == old(inst.State()).(cost := inst.cost) && |inst.cost| == j
      invariant forall q :: 0 <= q < j ==>
        PricePasses(inst.cost[q] - pulled[q], inst.x[q], inst.lower[q], inst.upper[q])
            && Whole(inst.cost[q] - pulled[q])
      invariant forall q :: 0 <= q < j ==>
        inst.cost[q] - pulled[q]
            == ColumnPrice(inst.x[q], inst.lower[q], inst.upper[q], draws.columnNegative(q), draws.columnSize(q))
    {
      var d := ColumnPrice(inst.x[j], inst.lower[j], inst.upper[j], draws.columnNegative(j), draws.columnSize(j));
      ColumnPricePasses(inst.x[j], inst.lower[j], inst.upper[j], draws.columnNegative(j), draws.columnSize(j));
      inst.cost := inst.cost + [d + pulled[j]];
      assert inst.cost[j] - pulled[j] == d;
    }
  }

  lemma ColumnPricePasses(x: real, lower: real, upper: Bound, negative: bool, size: nat)
    ensures PricePasses(ColumnPrice(x, lower, upper, negative, size), x, lower, upper)
    ensures Whole(ColumnPrice(x, lower, upper, negative, size))
  {
    var s: int := size;
    WholeOf(s);
    WholeOf(-s);
    assert (-s) as real == -(s as real);
  }

  /** Everything the generator writes: coefficients, right-hand sides, upper bounds, costs. */
  predicate Printable(b: Book) {
    && (forall i :: 0 <= i < |b.rows| ==> ShortRow(b.rows[i]))
    && (forall j :: 0 <= j < |b.upper| ==> b.upper[j].Fin? ==> Parts(b.upper[j].v, 100000.0))
    && AllParts(b.cost, 100000.0)
  }

  lemma {:induction false} AddedShort(out: seq<real>, entries: seq<Entry>, t: real, k: nat)
    requires k <= |entries| && ValidColumn(entries, |out|) && AllParts(out, 100000.0) && Whole(t)
    requires forall q :: 0 <= q < |entries| ==> Parts(entries[q].val, 100000.0)
    ensures AllParts(AddColumnTo(out, entries, t, k), 100000.0)
  {
    hide Parts, Whole, Mul;
    if k > 0 {
      AddedShort(out, entries, t, k - 1);
      var before, e := AddColumnTo(out, entries, t, k - 1), entries[k - 1];
      ShortTimesWhole(e.val, t);
      PartsSum(before[e.row], Mul(e.val, t), 100000.0);
    }
  }

  lemma ShortTimesWhole(v: real, t: real)
    requires Parts(v, 100000.0) && Whole(t)
    ensures Parts(Mul(v, t), 100000.0)
  {
    PartsProduct(v, 100000.0, t, 1.0, 100000.0);
  }

  lemma {:induction false} PulledShort(rows: seq<Row>, y: seq<real>, n: nat, i: nat)
    requires i <= |rows| == |y| && forall q :: 0 <= q < |rows| ==> ValidColumn(rows[q].entries, n)
    requires forall q :: 0 <= q < |rows| ==> ShortRow(rows[q]) && Whole(y[q])
    ensures AllParts(PulledTo(rows, y, n, i), 100000.0)
  {
    hide Parts, Whole, AddColumnTo;
    if i == 0 {
      PartsZero(100000.0);
    } else {
      PulledShort(rows, y, n, i - 1);
      AddedShort(PulledTo(rows, y, n, i - 1), rows[i - 1].entries, y[i - 1], |rows[i - 1].entries|);
    }
  }

  lemma CostShort(c: real, pulled: real)
    requires Whole(c - pulled) && Parts(pulled, 100000.0)
    ensures Parts(c, 100000.0)
  {
    PartsFiner(c - pulled, 1.0, 100000.0, 100000.0);
    PartsSum(c - pulled, pulled, 100000.0);
  }

  /** Derives the multipliers and the costs that make the plan the best one: the self-check
      then passes and every number prints, whatever is drawn. */
  method Price(inst: Instance, draws: PriceDraws)
    requires inst.State().Holds() && inst.cost == []
    modifies inst`y, inst`cost
    ensures inst.State() == old(inst.State()).(y := inst.y, cost := inst.cost)
    ensures inst.State().Shaped() && |inst.cost| == |inst.x|
    ensures Passes(inst.State()) && Printable(inst.State())
    ensures RowsPriced(inst.State(), draws) && ColumnsPriced(inst.State(), draws)
  {
    hide RowOk, RowPasses, PricePasses, Whole, Parts, PulledTo, ShortRow, RowPrice, ColDot, ColumnPrice;
    ghost var b := inst.State();
    PriceRows(inst, draws);
    var pulled := PullRows(inst.rows, inst.y, |inst.x|);
    PriceColumns(inst, pulled, draws);
    forall i | 0 <= i < |b.rows| ensures ShortRow(b.rows[i]) {
      assert RowOk(b.rows[i], b.x);
      RowOkUnfolds(b.rows[i], b.x);
    }
    PulledShort(b.rows, inst.y, |b.x|, |b.rows|);
    forall j | 0 <= j < |b.x| ensures Parts(inst.cost[j], 100000.0) { CostShort(inst.cost[j], pulled[j]); }
    forall j | 0 <= j < |b.x| ensures b.lower[j] <= b.x[j] && BelowUpper(b.upper[j], b.x[j]) {
      assert ColumnOk(b.x[j], b.upper[j]);
    }
    forall j | 0 <= j < |b.x| && b.upper[j].Fin? ensures Parts(b.upper[j].v, 100000.0) {
      assert ColumnOk(b.x[j], b.upper[j]);
    }
  }

  // ---- Printing -----------------------------------------------------------------------------

  ghost predicate IsPrinted(b: Book, v: real) {
    || (exists i, k :: 0 <= i < |b.rows| && 0 <= k < |b.rows[i].entries| && v == b.rows[i].entries[k].val)
    || (exists i :: 0 <= i < |b.rows| && v == b.rows[i].rhs)
    || (exists j :: 0 <= j < |b.upper| && b.upper[j] == Fin(v))
    || v in b.cost
  }

  /** Every number written to the file has an exact decimal text, so the printer never refuses. */
  lemma EveryNumberPrints(b: Book, f: Decimals.Fraction)
    requires Printable(b) && f.Reduced() && IsPrinted(b, f.Value())
    ensures Decimals.IsShort(f)
  {
    var v := f.Value();
    assert Parts(v, 100000.0) by {
      hide Parts;
      if v in b.cost {
        var j :| 0 <= j < |b.cost| && b.cost[j] == v;
        assert Parts(b.cost[j], 100000.0);
      } else if exists i :: 0 <= i < |b.rows| && v == b.rows[i].rhs {
        var i :| 0 <= i < |b.rows| && v == b.rows[i].rhs;
        assert ShortRow(b.rows[i]);
      } else if exists j :: 0 <= j < |b.upper| && b.upper[j] == Fin(v) {
        var j :| 0 <= j < |b.upper| && b.upper[j] == Fin(v);
      } else {
        var i, k :| 0 <= i < |b.rows| && 0 <= k < |b.rows[i].entries| && v == b.rows[i].entries[k].val;
        assert ShortRow(b.rows[i]);
      }
    }
    Decimals.ShortOfWhole(f);
  }
}
