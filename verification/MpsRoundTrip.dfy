/** Reading back what was written: the reader, run over the writer's lines, restores the linear
    program. Each section is one induction over its lines. */
module MpsRoundTrip {
  import opened Prelude
  import opened Decimals
  import opened LpModel
  import opened RowLp
  import opened Mps

  // ---- What the reader has after each section ----------------------------------------------

  function RowIndexTo(i: nat): map<string, nat> {
    if i == 0 then map[] else RowIndexTo(i - 1)[RowName(i - 1) := i - 1]
  }

  function ColIndexTo(j: nat): map<string, nat> {
    if j == 0 then map[] else ColIndexTo(j - 1)[ColName(j - 1) := j - 1]
  }

  lemma {:induction false} RowIndexHolds(i: nat)
    ensures forall q: nat :: RowName(q) in RowIndexTo(i) <==> q < i
    ensures forall q :: 0 <= q < i ==> RowIndexTo(i)[RowName(q)] == q
    ensures forall name :: name in RowIndexTo(i) ==> RowIndexTo(i)[name] < i && name == RowName(RowIndexTo(i)[name])
  {
    hide RowName;
    if i > 0 {
      RowIndexHolds(i - 1);
      forall q: nat | RowName(q) == RowName(i - 1) ensures q == i - 1 { NamesDiffer(q, i - 1); }
    }
  }

  lemma {:induction false} ColIndexHolds(j: nat)
    ensures forall q: nat :: ColName(q) in ColIndexTo(j) <==> q < j
    ensures forall q :: 0 <= q < j ==> ColIndexTo(j)[ColName(q)] == q
    ensures forall name :: name in ColIndexTo(j) ==> ColIndexTo(j)[name] < j && name == ColName(ColIndexTo(j)[name])
  {
    hide ColName;
    if j > 0 {
      ColIndexHolds(j - 1);
      forall q: nat | ColName(q) == ColName(j - 1) ensures q == j - 1 { NamesDiffer(q, j - 1); }
    }
  }

  /** The set names and the objective's name are not names of rows or columns. */
  lemma ReservedNames(i: nat, j: nat)
    ensures "OBJ" !in RowIndexTo(i) && "RHS" !in RowIndexTo(i) && "RNG" !in RowIndexTo(i) && "BND" !in ColIndexTo(j)
  {
    RowIndexHolds(i);
    ColIndexHolds(j);
    hide RowIndexTo, ColIndexTo, RowName, ColName;
    if "OBJ" in RowIndexTo(i) { NamesDiffer(RowIndexTo(i)["OBJ"], 0); }
    if "RHS" in RowIndexTo(i) { NamesDiffer(RowIndexTo(i)["RHS"], 0); }
    if "RNG" in RowIndexTo(i) { NamesDiffer(RowIndexTo(i)["RNG"], 0); }
    if "BND" in ColIndexTo(j) { NamesDiffer(ColIndexTo(j)["BND"], 0); }
  }

  function KindsOf(p: Lp): (r: seq<Kind>)
    requires p.Valid()
    ensures |r| == |p.rows| && forall i :: 0 <= i < |r| ==> r[i] == KindOf(p.rowLower[i], p.rowUpper[i])
  {
    seq(|p.rows|, i requires 0 <= i < |p.rows| => KindOf(p.rowLower[i], p.rowUpper[i]))
  }

  /** After the objective row and the first i rows. */
  function AfterRows(p: Lp, i: nat): (r: Reader)
    requires p.Valid() && i <= |p.rows|
    ensures r.Valid()
  {
    RowIndexHolds(i);
    Blank().(section := RowsKey, objective := Some("OBJ"), rowIndex := RowIndexTo(i), kinds := KindsOf(p)[..i],
             rhs := seq(i, _ => Fin(0.0)), ranges := seq(i, _ => None))
  }

  function RowLine(p: Lp, i: nat): Line
    requires p.Valid() && i < |p.rows|
  {
    Fields([Word(KindText(KindOf(p.rowLower[i], p.rowUpper[i]))), Word(RowName(i))])
  }

  lemma RowStep(p: Lp, i: nat)
    requires p.Valid() && i < |p.rows|
    ensures Next(Some(AfterRows(p, i)), RowLine(p, i)) == Some(AfterRows(p, i + 1))
  {
    hide RowName, KindText, ReadKind, KindOf;
    KindReads(KindOf(p.rowLower[i], p.rowUpper[i]));
    assert KindsOf(p)[..i + 1] == KindsOf(p)[..i] + [KindsOf(p)[i]];
    assert seq(i + 1, _ => Fin(0.0)) == seq(i, _ => Fin(0.0)) + [Fin(0.0)];
    assert seq<Option<Bound>>(i + 1, _ => None) == seq<Option<Bound>>(i, _ => None) + [None];
    assert RowIndexTo(i + 1) == RowIndexTo(i)[RowName(i) := i];
  }

  /** Running one more line. */
  lemma RunStep(r: Option<Reader>, lines: seq<Line>, line: Line)
    requires r.Some? ==> r.value.Valid()
    ensures Run(r, lines + [line]) == Next(Run(r, lines), line)
  {
    assert (lines + [line])[..|lines|] == lines;
  }

  lemma {:induction false} RowsRead(p: Lp, i: nat)
    requires p.Valid() && i <= |p.rows|
    ensures Run(Some(AfterRows(p, 0)), RowLinesTo(p, i)) == Some(AfterRows(p, i))
  {
    hide Next, AfterRows, Run;
    if i > 0 {
      RowsRead(p, i - 1);
      RowStep(p, i - 1);
      RunStep(Some(AfterRows(p, 0)), RowLinesTo(p, i - 1), RowLine(p, i - 1));
    } else {
      RunNothing(Some(AfterRows(p, 0)));
    }
  }

  lemma RunNothing(r: Option<Reader>)
    requires r.Some? ==> r.value.Valid()
    ensures Run(r, []) == r
  {
  }

  lemma KindReads(k: Kind)
    ensures ReadKind(KindText(k)) == Some(k) && KindText(k) != "N"
  {
  }

  // ---- Columns ---------------------------------------------------------------------------------

  function CostOf(pairs: seq<Pair>): real {
    if pairs == [] then 0.0
    else
      var last := pairs[|pairs| - 1];
      CostOf(pairs[..|pairs| - 1]) + if last.CostPair? then last.value else 0.0
  }

  function EntriesOf(pairs: seq<Pair>): seq<Entry> {
    if pairs == [] then []
    else
      var earlier, last := EntriesOf(pairs[..|pairs| - 1]), pairs[|pairs| - 1];
      if last.RowPair? then earlier + [Entry(last.row, last.value)] else earlier
  }

  predicate RowsBelow(pairs: seq<Pair>, m: nat) {
    forall k :: 0 <= k < |pairs| && pairs[k].RowPair? ==> pairs[k].row < m
  }

  /** Column j as the writer gathers it. */
  function ColumnOf(p: Lp, j: nat): seq<Pair>
    requires p.Valid() && j < p.NumCols()
  {
    PairsTo(p, j, |p.rows|)
  }

  function EntriesTo(p: Lp, j: nat): (r: seq<seq<Entry>>)
    requires p.Valid() && j <= p.NumCols()
    ensures |r| == j && forall q :: 0 <= q < j ==> r[q] == EntriesOf(ColumnOf(p, q))
  {
    seq(j, q requires 0 <= q < j => EntriesOf(ColumnOf(p, q)))
  }

  /** After the first j columns. */
  function AfterColumns(p: Lp, j: nat): (r: Reader)
    requires p.Valid() && j <= p.NumCols()
    ensures r.Valid()
  {
    ColIndexHolds(j);
    AfterRows(p, |p.rows|).(
      section := ColumnsKey, colIndex := ColIndexTo(j), cost := p.cost[..j], lower := seq(j, _ => Fin(0.0)),
      upper := seq(j, _ => PosInf), lowerSet := seq(j, _ => false), entries := EntriesTo(p, j))
  }

  /** In the middle of column j: it exists, with some of its coefficients. */
  function InColumn(p: Lp, j: nat, cost: real, entries: seq<Entry>): (r: Reader)
    requires p.Valid() && j < p.NumCols()
    ensures r.Valid()
  {
    ColIndexHolds(j + 1);
    AfterRows(p, |p.rows|).(
      section := ColumnsKey, colIndex := ColIndexTo(j + 1), cost := p.cost[..j] + [cost],
      lower := seq(j + 1, _ => Fin(0.0)), upper := seq(j + 1, _ => PosInf), lowerSet := seq(j + 1, _ => false),
      entries := EntriesTo(p, j) + [entries])
  }

  lemma ColumnFinished(p: Lp, j: nat)
    requires p.Valid() && j < p.NumCols()
    ensures InColumn(p, j, p.cost[j], EntriesOf(ColumnOf(p, j))) == AfterColumns(p, j + 1)
  {
    assert p.cost[..j] + [p.cost[j]] == p.cost[..j + 1];
    assert EntriesTo(p, j) + [EntriesOf(ColumnOf(p, j))] == EntriesTo(p, j + 1);
  }

  /** The first mention of a column adds it. */
  lemma NewColumn(p: Lp, j: nat)
    requires p.Valid() && j < p.NumCols()
    ensures WithColumn(AfterColumns(p, j), ColName(j)) == InColumn(p, j, 0.0, [])
    ensures ColName(j) in InColumn(p, j, 0.0, []).colIndex && InColumn(p, j, 0.0, []).colIndex[ColName(j)] == j
  {
    hide ColName, AfterRows;
    ColIndexHolds(j);
    ColIndexHolds(j + 1);
    assert ColIndexTo(j + 1) == ColIndexTo(j)[ColName(j) := j];
    assert seq(j + 1, _ => Fin(0.0)) == seq(j, _ => Fin(0.0)) + [Fin(0.0)];
    assert seq(j + 1, _ => PosInf) == seq(j, _ => PosInf) + [PosInf];
    assert seq(j + 1, _ => false) == seq(j, _ => false) + [false];
  }

  lemma KnownColumn(p: Lp, j: nat, cost: real, entries: seq<Entry>)
    requires p.Valid() && j < p.NumCols()
    ensures var w := InColumn(p, j, cost, entries); WithColumn(w, ColName(j)) == w && w.colIndex[ColName(j)] == j
  {
    hide ColName, AfterRows;
    ColIndexHolds(j + 1);
  }

  function PairName(pair: Pair): string {
    match pair case CostPair(_) => "OBJ" case RowPair(i, _) => RowName(i)
  }

  /** One coefficient read into the column it belongs to. */
  lemma PairRead(p: Lp, j: nat, cost: real, entries: seq<Entry>, pair: Pair)
    requires p.Valid() && j < p.NumCols() && (pair.RowPair? ==> pair.row < |p.rows|)
    ensures ColumnPairs(InColumn(p, j, cost, entries), j,
      [Word(ColName(j)), Word(PairName(pair)), Number(Fin(pair.value))], 1)
            == Some(if pair.CostPair? then InColumn(p, j, cost + pair.value, entries)
                    else InColumn(p, j, cost, entries + [Entry(pair.row, pair.value)]))
  {
    hide ColName, RowName;
    var w := InColumn(p, j, cost, entries);
    RowIndexHolds(|p.rows|);
    match pair {
      case CostPair(v) =>
        assert (p.cost[..j] + [cost])[j := cost + v] == p.cost[..j] + [cost + v];
      case RowPair(i, v) =>
        NamesDiffer(i, i);
        assert RowName(i) in w.rowIndex && w.rowIndex[RowName(i)] == i;
        assert (EntriesTo(p, j) + [entries])[j := entries + [Entry(i, v)]] == EntriesTo(p, j)
            + [entries + [Entry(i, v)]];
    }
  }

  lemma PairLineIs(j: nat, pair: Pair)
    ensures PairLine(j, pair) == Fields([Word(ColName(j)), Word(PairName(pair)), Number(Fin(pair.value))])
  {
  }

  /** The first line of a column. */
  lemma FirstPair(p: Lp, j: nat, pair: Pair)
    requires p.Valid() && j < p.NumCols() && (pair.RowPair? ==> pair.row < |p.rows|)
    ensures Next(Some(AfterColumns(p, j)), PairLine(j, pair))
            == Some(if pair.CostPair? then InColumn(p, j, 0.0 + pair.value, [])
                else InColumn(p, j, 0.0, [] + [Entry(pair.row, pair.value)]))
  {
    PairLineIs(j, pair);
    NewColumn(p, j);
    PairRead(p, j, 0.0, [], pair);
    assert AfterColumns(p, j).section == ColumnsKey;
    hide ColName, PairName, WithColumn, ColumnPairs, InColumn, AfterColumns, PairLine;
  }

  lemma LaterPair(p: Lp, j: nat, cost: real, entries: seq<Entry>, pair: Pair)
    requires p.Valid() && j < p.NumCols() && (pair.RowPair? ==> pair.row < |p.rows|)
    ensures Next(Some(InColumn(p, j, cost, entries)), PairLine(j, pair))
            == Some(if pair.CostPair? then InColumn(p, j, cost + pair.value, entries)
                    else InColumn(p, j, cost, entries + [Entry(pair.row, pair.value)]))
  {
    PairLineIs(j, pair);
    KnownColumn(p, j, cost, entries);
    PairRead(p, j, cost, entries, pair);
    assert InColumn(p, j, cost, entries).section == ColumnsKey;
    hide ColName, PairName, WithColumn, ColumnPairs, InColumn, PairLine;
  }

  lemma {:induction false} PairsRead(p: Lp, j: nat, pairs: seq<Pair>, k: nat)
    requires p.Valid() && j < p.NumCols() && RowsBelow(pairs, |p.rows|) && 1 <= k <= |pairs|
    ensures Run(Some(AfterColumns(p, j)), PairLinesTo(j, pairs, k))
            == Some(InColumn(p, j, CostOf(pairs[..k]), EntriesOf(pairs[..k])))
  {
    hide Next, AfterColumns, Run, InColumn, PairLine;
    RunStep(Some(AfterColumns(p, j)), PairLinesTo(j, pairs, k - 1), PairLine(j, pairs[k - 1]));
    assert pairs[..k][..k - 1] == pairs[..k - 1];
    if k == 1 {
      RunNothing(Some(AfterColumns(p, j)));
      FirstPair(p, j, pairs[0]);
      assert pairs[..0] == [] && PairLinesTo(j, pairs, 0) == [];
    } else {
      PairsRead(p, j, pairs, k - 1);
      LaterPair(p, j, CostOf(pairs[..k - 1]), EntriesOf(pairs[..k - 1]), pairs[k - 1]);
    }
  }

  // ---- What the gathered columns hold -------------------------------------------------------------

  lemma {:induction false} CostOfConcat(a: seq<Pair>, b: seq<Pair>)
    ensures CostOf(a + b) == CostOf(a) + CostOf(b)
    decreases |b|
  {
    if b == [] {
      assert a + b == a;
    } else {
      assert (a + b)[..|a + b| - 1] == a + b[..|b| - 1];
      CostOfConcat(a, b[..|b| - 1]);
    }
  }

  lemma RowPairsHold(row: seq<Entry>, i: nat, j: nat, k: nat)
    requires k <= |row|
    ensures CostOf(PairsInRow(row, i, j, k)) == 0.0
    ensures forall q :: 0 <= q < |PairsInRow(row, i, j, k)| ==>
      PairsInRow(row, i, j, k)[q].RowPair? && PairsInRow(row, i, j, k)[q].row == i
  {
    RowPairsOnly(row, i, j, k);
    NoCost(PairsInRow(row, i, j, k));
  }

  lemma {:induction false} RowPairsOnly(row: seq<Entry>, i: nat, j: nat, k: nat)
    requires k <= |row|
    ensures forall q :: 0 <= q < |PairsInRow(row, i, j, k)| ==>
      PairsInRow(row, i, j, k)[q].RowPair? && PairsInRow(row, i, j, k)[q].row == i
  {
    if k > 0 { RowPairsOnly(row, i, j, k - 1); }
  }

  lemma {:induction false} NoCost(pairs: seq<Pair>)
    requires forall q :: 0 <= q < |pairs| ==> pairs[q].RowPair?
    ensures CostOf(pairs) == 0.0
  {
    if pairs != [] { NoCost(pairs[..|pairs| - 1]); }
  }

  /** A gathered column holds the column's cost ... */
  lemma {:induction false} ColumnCost(p: Lp, j: nat, i: nat)
    requires p.Valid() && j < p.NumCols() && i <= |p.rows|
    ensures CostOf(PairsTo(p, j, i)) == p.cost[j] && RowsBelow(PairsTo(p, j, i), i)
  {
    hide CostOf, PairsInRow, RowsBelow;
    if i == 0 {
      CostAlone(p.cost[j]);
    } else {
      ColumnCost(p, j, i - 1);
      var row := p.rows[i - 1];
      RowPairsHold(row, i - 1, j, |row|);
      CostOfConcat(PairsTo(p, j, i - 1), PairsInRow(row, i - 1, j, |row|));
      RowsBelowConcat(PairsTo(p, j, i - 1), PairsInRow(row, i - 1, j, |row|), i);
    }
  }

  lemma CostAlone(cost: real)
    ensures var pairs := if cost != 0.0 then [CostPair(cost)] else []; CostOf(pairs) == cost && RowsBelow(pairs, 0)
  {
    assert [CostPair(cost)][..0] == [];
  }

  lemma RowsBelowConcat(a: seq<Pair>, b: seq<Pair>, m: nat)
    requires m > 0 && RowsBelow(a, m - 1)
    requires forall q :: 0 <= q < |b| ==> b[q].RowPair? && b[q].row == m - 1
    ensures RowsBelow(a + b, m)
  {
  }

  /** How often an element occurs. */
  function Count<T(==)>(s: seq<T>, e: T): nat { multiset(s)[e] }

  lemma CountConcat<T>(a: seq<T>, b: seq<T>, e: T)
    ensures Count(a + b, e) == Count(a, e) + Count(b, e)
  {
  }

  lemma CountOne<T>(a: T, e: T)
    ensures Count([a], e) == if a == e then 1 else 0
  {
  }

  lemma CountAbsent<T>(a: seq<T>, e: T)
    requires e !in a
    ensures Count(a, e) == 0
  {
  }

  /** ... and exactly its nonzeros, each as often as it occurs. */
  lemma {:induction false} RowNonzeros(row: seq<Entry>, i: nat, j: nat, k: nat, v: real)
    requires k <= |row|
    ensures Count(PairsInRow(row, i, j, k), RowPair(i, v)) == if v != 0.0 then Count(row[..k], Entry(j, v)) else 0
  {
    hide Count;
    if k == 0 {
      CountAbsent<Pair>([], RowPair(i, v));
      CountAbsent<Entry>([], Entry(j, v));
    } else {
      RowNonzeros(row, i, j, k - 1, v);
      var last, earlier := row[k - 1], PairsInRow(row, i, j, k - 1);
      assert row[..k] == row[..k - 1] + [last];
      CountConcat(row[..k - 1], [last], Entry(j, v));
      CountOne(last, Entry(j, v));
      CountConcat(earlier, [RowPair(i, last.val)], RowPair(i, v));
      CountOne(RowPair(i, last.val), RowPair(i, v));
    }
  }

  lemma {:induction false} ColumnNonzeros(p: Lp, j: nat, i: nat, q: nat, v: real)
    requires p.Valid() && j < p.NumCols() && i <= |p.rows|
    ensures Count(PairsTo(p, j, i), RowPair(q, v)) == if q < i && v != 0.0 then Count(p.rows[q], Entry(j, v)) else 0
  {
    hide Count, PairsInRow;
    if i == 0 {
      CountAbsent(PairsTo(p, j, 0), RowPair(q, v));
    } else {
      ColumnNonzeros(p, j, i - 1, q, v);
      var row := p.rows[i - 1];
      RowPairsHold(row, i - 1, j, |row|);
      RowNonzeros(row, i - 1, j, |row|, v);
      assert row[..|row|] == row;
      CountConcat(PairsTo(p, j, i - 1), PairsInRow(row, i - 1, j, |row|), RowPair(q, v));
      if q != i - 1 { CountAbsent(PairsInRow(row, i - 1, j, |row|), RowPair(q, v)); }
    }
  }

  lemma {:induction false} EntriesOfHold(pairs: seq<Pair>, i: nat, v: real)
    ensures Count(EntriesOf(pairs), Entry(i, v)) == Count(pairs, RowPair(i, v))
  {
    hide Count;
    if pairs == [] {
      CountAbsent<Entry>([], Entry(i, v));
      CountAbsent<Pair>([], RowPair(i, v));
    } else {
      var front, last := pairs[..|pairs| - 1], pairs[|pairs| - 1];
      EntriesOfHold(front, i, v);
      assert pairs == front + [last];
      CountConcat(front, [last], RowPair(i, v));
      CountOne(last, RowPair(i, v));
      if last.RowPair? {
        CountConcat(EntriesOf(front), [Entry(last.row, last.value)], Entry(i, v));
        CountOne(Entry(last.row, last.value), Entry(i, v));
      }
    }
  }

  /** The restored matrix has exactly the nonzeros of the original, in their places, each as often
      as it was written. */
  lemma SameNonzeros(p: Lp, i: nat, j: nat, v: real)
    requires p.Valid() && i < |p.rows| && j < p.NumCols()
    ensures Count(EntriesOf(ColumnOf(p, j)), Entry(i, v)) == if v != 0.0 then Count(p.rows[i], Entry(j, v)) else 0
  {
    hide Count;
    ColumnNonzeros(p, j, |p.rows|, i, v);
    EntriesOfHold(ColumnOf(p, j), i, v);
  }

  lemma ColumnRead(p: Lp, j: nat)
    requires p.Valid() && j < p.NumCols()
    ensures Run(Some(AfterColumns(p, j)), ColumnLines(j, ColumnOf(p, j))) == Some(AfterColumns(p, j + 1))
  {
    hide Next, AfterColumns, Run, InColumn, PairLine, PairsTo;
    var pairs := ColumnOf(p, j);
    ColumnCost(p, j, |p.rows|);
    ColumnFinished(p, j);
    if pairs == [] {
      FirstPair(p, j, CostPair(0.0));
      RunStep(Some(AfterColumns(p, j)), [], PairLine(j, CostPair(0.0)));
      RunNothing(Some(AfterColumns(p, j)));
      assert [] + [PairLine(j, CostPair(0.0))] == [PairLine(j, CostPair(0.0))];
    } else {
      PairsRead(p, j, pairs, |pairs|);
      assert pairs[..|pairs|] == pairs;
    }
  }

  lemma {:induction false} ColumnsRead(p: Lp, j: nat)
    requires p.Valid() && j <= p.NumCols()
    ensures Run(Some(AfterColumns(p, 0)), ColumnLinesTo(p, j)) == Some(AfterColumns(p, j))
  {
    hide Next, AfterColumns, Run, ColumnLines, PairsTo;
    if j > 0 {
      ColumnsRead(p, j - 1);
      ColumnRead(p, j - 1);
      RunConcat(Some(AfterColumns(p, 0)), ColumnLinesTo(p, j - 1), ColumnLines(j - 1, ColumnOf(p, j - 1)));
    } else {
      RunNothing(Some(AfterColumns(p, 0)));
    }
  }

  // ---- Right-hand sides and ranges -------------------------------------------------------------------

  function RhsVector(p: Lp, i: nat): (r: seq<Bound>)
    requires p.Valid()
    ensures |r| == |p.rows|
    ensures forall q :: 0 <= q < |r| ==> r[q] == if q < i then RhsOf(p.rowLower[q], p.rowUpper[q]) else Fin(0.0)
  {
    seq(|p.rows|, q requires 0 <= q < |p.rows| => if q < i then RhsOf(p.rowLower[q], p.rowUpper[q]) else Fin(0.0))
  }

  function RangeOf(lo: Bound, hi: Bound): Option<Bound> {
    if IsRanged(lo, hi) then Some(Difference(hi, lo)) else None
  }

  function RangeVector(p: Lp, i: nat): (r: seq<Option<Bound>>)
    requires p.Valid()
    ensures |r| == |p.rows|
    ensures forall q :: 0 <= q < |r| ==> r[q] == if q < i then RangeOf(p.rowLower[q], p.rowUpper[q]) else None
  {
    seq(|p.rows|, q requires 0 <= q < |p.rows| => if q < i then RangeOf(p.rowLower[q], p.rowUpper[q]) else None)
  }

  function AfterRhs(p: Lp, i: nat): (r: Reader)
    requires p.Valid() && i <= |p.rows|
    ensures r.Valid()
  {
    AfterColumns(p, p.NumCols()).(section := RhsKey, rhs := RhsVector(p, i))
  }

  function AfterRanges(p: Lp, section: Keyword, i: nat): (r: Reader)
    requires p.Valid() && i <= |p.rows|
    ensures r.Valid()
  {
    AfterRhs(p, |p.rows|).(section := section, ranges := RangeVector(p, i))
  }

  /** One value read into the row it names, on a line that starts with a set name. */
  lemma ValueRead(r: Reader, setName: string, i: nat, value: Bound)
    requires r.Valid() && r.objective == Some("OBJ") && r.dropped == {} && i < |r.kinds|
      && r.rowIndex == RowIndexTo(|r.kinds|)
    requires setName == "RHS" || setName == "RNG"
    ensures ValueLine(r, [Word(setName), Word(RowName(i)), Number(value)])
            == Some(if r.section == RhsKey then r.(rhs := r.rhs[i := value])
                else r.(ranges := r.ranges[i := Some(value)]))
  {
    hide RowName;
    RowIndexHolds(|r.kinds|);
    ReservedNames(|r.kinds|, 0);
    NamesDiffer(i, i);
    var fields := [Word(setName), Word(RowName(i)), Number(value)];
    assert "RHS" != "OBJ" && "RNG" != "OBJ";
    assert !r.IsRow(setName);
    assert ValueLine(r, fields) == ValuePairs(r, fields, 1);
    assert r.objective != Some(RowName(i)) && RowName(i) !in r.dropped && r.rowIndex[RowName(i)] == i;
    var q := if r.section == RhsKey then r.(rhs := r.rhs[i := value]) else r.(ranges := r.ranges[i := Some(value)]);
    assert ValuePairs(q, fields, 3) == Some(q);
  }

  lemma RhsVectorStep(p: Lp, i: nat)
    requires p.Valid() && i < |p.rows|
    ensures var rhs := RhsOf(p.rowLower[i], p.rowUpper[i]);
      RhsVector(p, i)[i := rhs] == RhsVector(p, i + 1) && (rhs == Fin(0.0) ==> RhsVector(p, i) == RhsVector(p, i + 1))
  {
    hide RhsOf;
  }

  lemma RangeVectorStep(p: Lp, i: nat)
    requires p.Valid() && i < |p.rows|
    ensures var lo, hi := p.rowLower[i], p.rowUpper[i];
      if IsRanged(lo, hi) then RangeVector(p, i)[i := Some(Difference(hi, lo))] == RangeVector(p, i + 1)
      else RangeVector(p, i) == RangeVector(p, i + 1)
  {
    hide IsRanged, Difference;
  }

  /** What the value sections rely on of the reader after the columns. */
  lemma ColumnsReader(p: Lp)
    requires p.Valid()
    ensures var r := AfterColumns(p, p.NumCols());
      && r.Valid() && r.objective == Some("OBJ") && r.dropped == {}
      && |r.kinds| == |p.rows| && r.rowIndex == RowIndexTo(|p.rows|)
  {
    hide RowIndexTo, ColIndexTo, KindsOf, EntriesTo;
  }

  lemma NextValue(r: Reader, fields: seq<Token>)
    requires r.Valid() && (r.section == RhsKey || r.section == RangesKey)
    ensures Next(Some(r), Fields(fields)) == ValueLine(r, fields)
  {
    hide ValueLine;
  }

  lemma RhsStep(p: Lp, i: nat)
    requires p.Valid() && i < |p.rows|
    ensures var rhs := RhsOf(p.rowLower[i], p.rowUpper[i]);
      && (rhs == Fin(0.0) ==> AfterRhs(p, i + 1) == AfterRhs(p, i))
      && Next(Some(AfterRhs(p, i)), Fields([Word("RHS"), Word(RowName(i)), Number(rhs)])) == Some(AfterRhs(p, i + 1))
  {
    hide RowName, RhsOf, RhsVector, ValueLine, AfterColumns, RowIndexTo, Next;
    var rhs, r := RhsOf(p.rowLower[i], p.rowUpper[i]), AfterRhs(p, i);
    RhsVectorStep(p, i);
    ColumnsReader(p);
    NextValue(r, [Word("RHS"), Word(RowName(i)), Number(rhs)]);
    ValueRead(r, "RHS", i, rhs);
  }

  lemma {:induction false} RhsRead(p: Lp, i: nat)
    requires p.Valid() && i <= |p.rows|
    ensures Run(Some(AfterRhs(p, 0)), RhsLinesTo(p, i)) == Some(AfterRhs(p, i))
  {
    hide Next, AfterRhs, Run;
    if i > 0 {
      RhsRead(p, i - 1);
      RhsStep(p, i - 1);
      var rhs := RhsOf(p.rowLower[i - 1], p.rowUpper[i - 1]);
      var line := Fields([Word("RHS"), Word(RowName(i - 1)), Number(rhs)]);
      RunStep(Some(AfterRhs(p, 0)), RhsLinesTo(p, i - 1), line);
      assert RhsLinesTo(p, i) == RhsLinesTo(p, i - 1) + if rhs != Fin(0.0) then [line] else [];
      if rhs == Fin(0.0) { assert RhsLinesTo(p, i) == RhsLinesTo(p, i - 1); }
    } else {
      RunNothing(Some(AfterRhs(p, 0)));
    }
  }

  lemma RangeStep(p: Lp, i: nat)
    requires p.Valid() && i < |p.rows|
    ensures var lo, hi := p.rowLower[i], p.rowUpper[i];
      && (!IsRanged(lo, hi) ==> forall section :: AfterRanges(p, section, i + 1) == AfterRanges(p, section, i))
      && (IsRanged(lo, hi) ==>
          Next(Some(AfterRanges(p, RangesKey, i)), Fields([Word("RNG"), Word(RowName(i)), Number(Difference(hi, lo))]))
          == Some(AfterRanges(p, RangesKey, i + 1)))
  {
    hide RowName, RhsVector, RangeVector, ValueLine, AfterColumns, RowIndexTo, Difference, IsRanged, Next;
    var lo, hi, r := p.rowLower[i], p.rowUpper[i], AfterRanges(p, RangesKey, i);
    RangeVectorStep(p, i);
    ColumnsReader(p);
    NextValue(r, [Word("RNG"), Word(RowName(i)), Number(Difference(hi, lo))]);
    ValueRead(r, "RNG", i, Difference(hi, lo));
  }

  lemma {:induction false} RangesRead(p: Lp, i: nat)
    requires p.Valid() && i <= |p.rows|
    ensures Run(Some(AfterRanges(p, RangesKey, 0)), RangeLinesTo(p, i)) == Some(AfterRanges(p, RangesKey, i))
    ensures RangeLinesTo(p, i) == [] ==> forall section :: AfterRanges(p, section, i) == AfterRanges(p, section, 0)
  {
    hide Next, AfterRanges, Run, Difference, IsRanged;
    if i > 0 {
      RangesRead(p, i - 1);
      RangeStep(p, i - 1);
      var lo, hi := p.rowLower[i - 1], p.rowUpper[i - 1];
      var line := Fields([Word("RNG"), Word(RowName(i - 1)), Number(Difference(hi, lo))]);
      RunStep(Some(AfterRanges(p, RangesKey, 0)), RangeLinesTo(p, i - 1), line);
      assert RangeLinesTo(p, i) == RangeLinesTo(p, i - 1) + if IsRanged(lo, hi) then [line] else [];
      if !IsRanged(lo, hi) { assert RangeLinesTo(p, i) == RangeLinesTo(p, i - 1); }
    } else {
      RunNothing(Some(AfterRanges(p, RangesKey, 0)));
    }
  }

  // ---- Bounds -----------------------------------------------------------------------------------------

  /** The bounds a column comes back with: a lower bound of zero is not written, and then a
      negative upper bound opens the lower side. */
  function BoundsRead(lo: Bound, hi: Bound): (Bound, Bound) {
    (if lo == Fin(0.0) && Negative(hi) then NegInf else lo, hi)
  }

  /** A column's bounds come back exactly when its upper bound is not below a lower bound of
      zero. */
  lemma BoundsComeBack(lo: Bound, hi: Bound)
    ensures BoundsRead(lo, hi) == (lo, hi) <==> !(lo == Fin(0.0) && Negative(hi))
  {
  }

  function LowerSet(lo: Bound, hi: Bound): bool { lo != Fin(0.0) }

  function LowerVector(p: Lp, j: nat): (r: seq<Bound>)
    requires p.Valid()
    ensures |r| == p.NumCols()
    ensures forall q :: 0 <= q < |r| ==> r[q] == if q < j then BoundsRead(p.lower[q], p.upper[q]).0 else Fin(0.0)
  {
    seq(p.NumCols(), q requires 0 <= q < p.NumCols() => if q < j then BoundsRead(p.lower[q], p.upper[q]).0
        else Fin(0.0))
  }

  function UpperVector(p: Lp, j: nat): (r: seq<Bound>)
    requires p.Valid()
    ensures |r| == p.NumCols()
    ensures forall q :: 0 <= q < |r| ==> r[q] == if q < j then p.upper[q] else PosInf
  {
    seq(p.NumCols(), q requires 0 <= q < p.NumCols() => if q < j then p.upper[q] else PosInf)
  }

  function SetVector(p: Lp, j: nat): (r: seq<bool>)
    requires p.Valid()
    ensures |r| == p.NumCols()
    ensures forall q :: 0 <= q < |r| ==> r[q] == (q < j && LowerSet(p.lower[q], p.upper[q]))
  {
    seq(p.NumCols(), q requires 0 <= q < p.NumCols() => q < j && LowerSet(p.lower[q], p.upper[q]))
  }

  function AfterBounds(p: Lp, section: Keyword, j: nat): (r: Reader)
    requires p.Valid() && j <= p.NumCols()
    ensures r.Valid()
  {
    AfterRanges(p, RangesKey, |p.rows|).(section := section, lower := LowerVector(p, j), upper := UpperVector(p, j),
        lowerSet := SetVector(p, j))
  }

  /** One bound read into the column it names, on a line with a set name. */
  lemma BoundRead(r: Reader, kind: string, j: nat)
    requires r.Valid() && j < |r.cost| && r.colIndex == ColIndexTo(|r.cost|) && r.section == BoundsKey
    ensures Next(Some(r), BoundLine(kind, j)) == SetBound(r, kind, j, Fin(0.0))
  {
    hide ColName, SetBound;
    ColIndexHolds(|r.cost|);
    ReservedNames(0, |r.cost|);
  }

  lemma BoundValueRead(r: Reader, kind: string, j: nat, value: Bound)
    requires r.Valid() && j < |r.cost| && r.colIndex == ColIndexTo(|r.cost|) && r.section == BoundsKey
    ensures Next(Some(r), BoundValueLine(kind, j, value)) == SetBound(r, kind, j, value)
  {
    hide ColName, SetBound;
    ColIndexHolds(|r.cost|);
    ReservedNames(0, |r.cost|);
  }

  /** The reader with column j's bounds replaced. */
  function WithBounds(r: Reader, j: nat, lo: Bound, hi: Bound, isSet: bool): (q: Reader)
    requires r.Valid() && j < |r.cost|
    ensures q.Valid()
  {
    r.(lower := r.lower[j := lo], upper := r.upper[j := hi], lowerSet := r.lowerSet[j := isSet])
  }

  lemma LowerRead(r: Reader, j: nat, lo: Bound)
    requires r.Valid() && j < |r.cost| && r.colIndex == ColIndexTo(|r.cost|) && r.section == BoundsKey
    requires r.lower[j] == Fin(0.0) && r.upper[j] == PosInf && !r.lowerSet[j]
    ensures Run(Some(r), LowerLines(j, lo)) == Some(WithBounds(r, j, lo, PosInf, LowerSet(lo, PosInf)))
  {
    hide ColName, Next, Run, BoundLine, BoundValueLine;
    assert r.upper[j := PosInf] == r.upper;
    if lo == Fin(0.0) {
      RunNothing(Some(r));
      assert WithBounds(r, j, lo, PosInf, false) == r;
    } else if lo.NegInf? {
      RunOne(Some(r), BoundLine("MI", j));
      BoundRead(r, "MI", j);
    } else {
      RunOne(Some(r), BoundValueLine("LO", j, lo));
      BoundValueRead(r, "LO", j, lo);
      assert "LO" != "UP";
    }
  }

  lemma UpperRead(r: Reader, j: nat, lo: Bound, hi: Bound)
    requires r.Valid() && j < |r.cost| && r.colIndex == ColIndexTo(|r.cost|) && r.section == BoundsKey
    ensures Run(Some(WithBounds(r, j, lo, PosInf, LowerSet(lo, PosInf))), UpperLines(j, hi))
            == Some(WithBounds(r, j, BoundsRead(lo, hi).0, hi, LowerSet(lo, hi)))
  {
    hide ColName, Next, Run, BoundLine, BoundValueLine;
    var w := WithBounds(r, j, lo, PosInf, LowerSet(lo, PosInf));
    assert r.upper[j := PosInf][j := hi] == r.upper[j := hi];
    assert r.lower[j := lo][j := NegInf] == r.lower[j := NegInf];
    if hi.PosInf? {
      RunNothing(Some(w));
    } else {
      RunOne(Some(w), BoundValueLine("UP", j, hi));
      BoundValueRead(w, "UP", j, hi);
      assert SetBound(w, "UP", j, hi) == Some(WithBounds(r, j, BoundsRead(lo, hi).0, hi, LowerSet(lo, hi)));
    }
  }

  lemma ColumnBoundsRead(r: Reader, j: nat, lo: Bound, hi: Bound)
    requires r.Valid() && j < |r.cost| && r.colIndex == ColIndexTo(|r.cost|) && r.section == BoundsKey
    requires r.lower[j] == Fin(0.0) && r.upper[j] == PosInf && !r.lowerSet[j]
    ensures Run(Some(r), BoundLines(j, lo, hi))
            == Some(WithBounds(r, j, BoundsRead(lo, hi).0, hi, LowerSet(lo, hi)))
  {
    hide ColName, Next, Run, BoundLine, BoundValueLine, LowerLines, UpperLines;
    if lo.NegInf? && hi.PosInf? {
      RunOne(Some(r), BoundLine("FR", j));
      BoundRead(r, "FR", j);
    } else {
      LowerRead(r, j, lo);
      UpperRead(r, j, lo, hi);
      RunConcat(Some(r), LowerLines(j, lo), UpperLines(j, hi));
    }
  }

  lemma BoundsStep(p: Lp, j: nat)
    requires p.Valid() && j < p.NumCols()
    ensures Run(Some(AfterBounds(p, BoundsKey, j)), BoundLines(j, p.lower[j], p.upper[j]))
      == Some(AfterBounds(p, BoundsKey, j + 1))
    ensures BoundLines(j, p.lower[j], p.upper[j]) == [] ==>
      forall section :: AfterBounds(p, section, j + 1) == AfterBounds(p, section, j)
  {
    var lo, hi := p.lower[j], p.upper[j];
    var r := AfterBounds(p, BoundsKey, j);
    assert |r.cost| == p.NumCols() && r.colIndex == ColIndexTo(p.NumCols());
    assert LowerVector(p, j)[j := BoundsRead(lo, hi).0] == LowerVector(p, j + 1);
    assert UpperVector(p, j)[j := hi] == UpperVector(p, j + 1);
    assert SetVector(p, j)[j := LowerSet(lo, hi)] == SetVector(p, j + 1);
    if lo == Fin(0.0) && hi.PosInf? {
      assert LowerVector(p, j) == LowerVector(p, j + 1) && UpperVector(p, j) == UpperVector(p, j + 1)
          && SetVector(p, j) == SetVector(p, j + 1);
    }
    hide Run, EntriesTo, ColIndexTo, RowIndexTo, KindsOf, RangeVector, RhsVector;
    ColumnBoundsRead(r, j, lo, hi);
  }

  lemma {:induction false} AllBoundsRead(p: Lp, j: nat)
    requires p.Valid() && j <= p.NumCols()
    ensures Run(Some(AfterBounds(p, BoundsKey, 0)), BoundLinesTo(p, j)) == Some(AfterBounds(p, BoundsKey, j))
    ensures BoundLinesTo(p, j) == [] ==> forall section :: AfterBounds(p, section, j) == AfterBounds(p, section, 0)
  {
    hide Next, AfterBounds, Run, BoundLines;
    if j > 0 {
      AllBoundsRead(p, j - 1);
      BoundsStep(p, j - 1);
      RunConcat(Some(AfterBounds(p, BoundsKey, 0)), BoundLinesTo(p, j - 1),
          BoundLines(j - 1, p.lower[j - 1], p.upper[j - 1]));
    } else {
      RunNothing(Some(AfterBounds(p, BoundsKey, 0)));
    }
  }

  // ---- The whole file ------------------------------------------------------------------------------------

  lemma HeadRead(p: Lp)
    requires p.Valid()
    ensures Run(Some(Blank()), [Header(NameKey), Header(RowsKey), Fields([Word("N"), Word("OBJ")])])
      == Some(AfterRows(p, 0))
  {
    var a, b, c := Header(NameKey), Header(RowsKey), Fields([Word("N"), Word("OBJ")]);
    var start := Some(Blank());
    RunOne(start, a);
    RunStep(start, [a], b);
    RunStep(start, [a] + [b], c);
    assert [a, b, c] == [a] + [b] + [c];
    hide Run, KindsOf;
    assert KindsOf(p)[..0] == [];
    assert AfterRows(p, 0).rhs == [] && AfterRows(p, 0).ranges == [];
  }

  lemma EnterColumns(p: Lp)
    requires p.Valid()
    ensures Next(Some(AfterRows(p, |p.rows|)), Header(ColumnsKey)) == Some(AfterColumns(p, 0))
  {
    assert p.cost[..0] == [] && EntriesTo(p, 0) == [];
    assert AfterColumns(p, 0).lower == [] && AfterColumns(p, 0).upper == [] && AfterColumns(p, 0).lowerSet == [];
    hide EntriesTo, KindsOf, RowIndexTo;
  }

  lemma EnterRhs(p: Lp)
    requires p.Valid()
    ensures Next(Some(AfterColumns(p, p.NumCols())), Header(RhsKey)) == Some(AfterRhs(p, 0))
  {
    assert RhsVector(p, 0) == seq(|p.rows|, _ => Fin(0.0));
    hide EntriesTo, KindsOf, RowIndexTo, ColIndexTo, RhsVector;
  }

  lemma EnterRanges(p: Lp)
    requires p.Valid()
    ensures Next(Some(AfterRhs(p, |p.rows|)), Header(RangesKey)) == Some(AfterRanges(p, RangesKey, 0))
    ensures AfterRhs(p, |p.rows|) == AfterRanges(p, RhsKey, 0)
  {
    assert RangeVector(p, 0) == seq(|p.rows|, _ => None);
    hide EntriesTo, KindsOf, RowIndexTo, ColIndexTo, RhsVector, RangeVector;
  }

  lemma EnterBounds(p: Lp, section: Keyword)
    requires p.Valid() && section != EndDataKey
    ensures Next(Some(AfterRanges(p, section, |p.rows|)), Header(BoundsKey)) == Some(AfterBounds(p, BoundsKey, 0))
    ensures AfterRanges(p, section, |p.rows|) == AfterBounds(p, section, 0)
  {
    var n := p.NumCols();
    assert LowerVector(p, 0) == seq(n, _ => Fin(0.0)) && UpperVector(p, 0) == seq(n, _ => PosInf)
        && SetVector(p, 0) == seq(n, _ => false);
    hide EntriesTo, KindsOf, RowIndexTo, ColIndexTo, RhsVector, RangeVector, LowerVector, UpperVector, SetVector;
  }

  lemma EndRead(p: Lp, section: Keyword)
    requires p.Valid() && section != EndDataKey
    ensures Next(Some(AfterBounds(p, section, p.NumCols())), Header(EndDataKey))
      == Some(AfterBounds(p, EndDataKey, p.NumCols()))
  {
    hide AfterRanges;
  }

  /** RANGES, present or not, leaves the reader with every range. */
  lemma RangesSectionRead(p: Lp)
    requires p.Valid()
    ensures exists section :: (section != EndDataKey
      && Run(Some(AfterRhs(p, |p.rows|)), Section(RangesKey, RangeLinesTo(p, |p.rows|)))
          == Some(AfterRanges(p, section, |p.rows|)))
  {
    hide Next, Run, AfterRhs, AfterRanges, RangeLinesTo;
    var lines := RangeLinesTo(p, |p.rows|);
    EnterRanges(p);
    RangesRead(p, |p.rows|);
    if lines == [] {
      RunNothing(Some(AfterRhs(p, |p.rows|)));
      assert AfterRanges(p, RhsKey, |p.rows|) == AfterRanges(p, RhsKey, 0);
    } else {
      RunOne(Some(AfterRhs(p, |p.rows|)), Header(RangesKey));
      RunConcat(Some(AfterRhs(p, |p.rows|)), [Header(RangesKey)], lines);
    }
  }

  lemma BoundsSectionRead(p: Lp, section: Keyword)
    requires p.Valid() && section != EndDataKey
    ensures exists last :: (last != EndDataKey
      && Run(Some(AfterRanges(p, section, |p.rows|)), Section(BoundsKey, BoundLinesTo(p, p.NumCols())))
         == Some(AfterBounds(p, last, p.NumCols())))
  {
    hide Next, Run, AfterBounds, AfterRanges, BoundLinesTo;
    var lines := BoundLinesTo(p, p.NumCols());
    var start := Some(AfterRanges(p, section, |p.rows|));
    EnterBounds(p, section);
    AllBoundsRead(p, p.NumCols());
    if lines == [] {
      RunNothing(start);
      assert AfterBounds(p, section, p.NumCols()) == AfterBounds(p, section, 0);
    } else {
      RunOne(start, Header(BoundsKey));
      RunConcat(start, [Header(BoundsKey)], lines);
    }
  }

  /** The reader accepts every file the writer writes, and ends with every section in place. */
  lemma WrittenIsRead(p: Lp)
    requires p.Valid()
    ensures Run(Some(Blank()), Written(p)) == Some(AfterBounds(p, EndDataKey, p.NumCols()))
  {
    hide Next, Run, AfterRows, AfterColumns, AfterRhs, AfterRanges, AfterBounds;
    hide RowLinesTo, ColumnLinesTo, RhsLinesTo, RangeLinesTo, BoundLinesTo, Section;
    var m, n, start := |p.rows|, p.NumCols(), Some(Blank());
    var file := [Header(NameKey), Header(RowsKey), Fields([Word("N"), Word("OBJ")])];
    HeadRead(p);
    RunConcat(start, file, RowLinesTo(p, m));
    RowsRead(p, m);
    file := file + RowLinesTo(p, m);
    RunStep(start, file, Header(ColumnsKey));
    EnterColumns(p);
    file := file + [Header(ColumnsKey)];
    RunConcat(start, file, ColumnLinesTo(p, n));
    ColumnsRead(p, n);
    file := file + ColumnLinesTo(p, n);
    RunStep(start, file, Header(RhsKey));
    EnterRhs(p);
    file := file + [Header(RhsKey)];
    RunConcat(start, file, RhsLinesTo(p, m));
    RhsRead(p, m);
    file := file + RhsLinesTo(p, m);
    var ranges, bounds := Section(RangesKey, RangeLinesTo(p, m)), Section(BoundsKey, BoundLinesTo(p, n));
    RunConcat(start, file, ranges);
    RangesSectionRead(p);
    var section :| section != EndDataKey && Run(Some(AfterRhs(p, m)), ranges) == Some(AfterRanges(p, section, m));
    file := file + ranges;
    RunConcat(start, file, bounds);
    BoundsSectionRead(p, section);
    var last :| last != EndDataKey && Run(Some(AfterRanges(p, section, m)), bounds) == Some(AfterBounds(p, last, n));
    file := file + bounds;
    RunStep(start, file, Header(EndDataKey));
    EndRead(p, last);
    assert Written(p) == file + [Header(EndDataKey)];
  }

  // ---- The model that comes back ---------------------------------------------------------------------------

  predicate Ordered(lo: Bound, hi: Bound) {
    lo.NegInf? || hi.PosInf? || (lo.Fin? && hi.Fin? && lo.v <= hi.v)
  }

  /** Type, right-hand side and range together restore both bounds of an ordered row. */
  lemma RowComesBack(lo: Bound, hi: Bound)
    requires Ordered(lo, hi)
    ensures RowBounds(KindOf(lo, hi), RhsOf(lo, hi), RangeOf(lo, hi)) == Some((lo, hi))
  {
  }

  /** What each column's bounds read as, in the original's terms. */
  function LowersRead(p: Lp): (r: seq<Bound>)
    requires p.Valid()
    ensures |r| == p.NumCols() && forall j :: 0 <= j < |r| ==> r[j] == BoundsRead(p.lower[j], p.upper[j]).0
  {
    LowerVector(p, p.NumCols())
  }

  /** The same program, with bounds of 1e30 and more read as infinite. A column holds the nonzeros
      of its rows, row after row, each as often as it occurs. */
  ghost predicate Restores(p: Lp, m: Read)
    requires p.Valid()
  {
    && m.cost == p.cost && m.offset == 0.0
    && m.rowLower == NormalisedAll(p.rowLower) && m.rowUpper == NormalisedAll(p.rowUpper)
    && m.lower == NormalisedAll(LowersRead(p)) && m.upper == NormalisedAll(p.upper)
    && |m.entries| == p.NumCols()
    && forall j :: 0 <= j < p.NumCols() ==> m.entries[j] == EntriesOf(ColumnOf(p, j))
  }

  lemma ResolvedIsRestored(p: Lp, m: Read)
    requires p.Valid() && Resolves(AfterBounds(p, EndDataKey, p.NumCols()), m)
    requires forall i :: 0 <= i < |p.rows| ==> Ordered(p.rowLower[i], p.rowUpper[i])
    ensures Restores(p, m)
  {
    var r := AfterBounds(p, EndDataKey, p.NumCols());
    assert p.cost[..p.NumCols()] == p.cost && UpperVector(p, p.NumCols()) == p.upper;
    assert KindsOf(p)[..|p.rows|] == KindsOf(p);
    forall i | 0 <= i < |p.rows|
        ensures RowBounds(r.kinds[i], r.rhs[i], r.ranges[i]) == Some((p.rowLower[i], p.rowUpper[i])) {
      RowComesBack(p.rowLower[i], p.rowUpper[i]);
    }
    assert m.rowLower == NormalisedAll(p.rowLower) && m.rowUpper == NormalisedAll(p.rowUpper);
  }

  /** m is what the reader makes of a file: it accepts every line and resolves every row. */
  ghost predicate IsReadFrom(lines: seq<Line>, m: Read) {
    var r := Run(Some(Blank()), lines);
    r.Some? && Resolves(r.value, m)
  }

  /** m is what the reader makes of the file the writer writes for p. */
  ghost predicate IsReread(p: Lp, m: Read)
    requires p.Valid()
  {
    IsReadFrom(Written(p), m)
  }

  /** Whatever is read from the file of a program with ordered rows restores the program, and
      something is read from it. */
  lemma RereadRestores(p: Lp, m: Read)
    requires p.Valid() && IsReread(p, m)
    requires forall i :: 0 <= i < |p.rows| ==> Ordered(p.rowLower[i], p.rowUpper[i])
    ensures Restores(p, m)
  {
    hide Restores, Written, Run, AfterBounds, Resolves;
    WrittenIsRead(p);
    ResolvedIsRestored(p, m);
  }

  /** Writes a program and reads the file back. */
  method RoundTrip(p: Lp) returns (lines: seq<Line>, m: Option<Read>)
    requires p.Valid() && forall i :: 0 <= i < |p.rows| ==> Ordered(p.rowLower[i], p.rowUpper[i])
    ensures lines == Written(p)
    ensures m.Some? && IsReread(p, m.value) && Restores(p, m.value)
  {
    hide Restores, Written, Run, AfterBounds, Resolves;
    lines := WriteMps(p);
    m := ParseMps(lines);
    WrittenIsRead(p);
    WrittenResolves(p);
    RereadRestores(p, m.value);
  }

  lemma WrittenResolves(p: Lp)
    requires p.Valid() && forall i :: 0 <= i < |p.rows| ==> Ordered(p.rowLower[i], p.rowUpper[i])
    ensures var r := AfterBounds(p, EndDataKey, p.NumCols());
      forall i :: 0 <= i < |r.kinds| ==> RowBounds(r.kinds[i], r.rhs[i], r.ranges[i]).Some?
  {
    var r := AfterBounds(p, EndDataKey, p.NumCols());
    assert KindsOf(p)[..|p.rows|] == KindsOf(p);
    forall i | 0 <= i < |p.rows| ensures RowBounds(r.kinds[i], r.rhs[i], r.ranges[i]).Some? {
      RowComesBack(p.rowLower[i], p.rowUpper[i]);
    }
  }

  predicate AllModerate(s: seq<Bound>) {
    forall i :: 0 <= i < |s| ==> s[i].Fin? ==> IsFiniteBound(s[i])
  }

  /** With ordered columns and magnitudes below 1e30, every bound comes back as it was. */
  lemma ModerateBoundsComeBack(p: Lp, m: Read)
    requires p.Valid() && Restores(p, m)
    requires AllModerate(p.rowLower) && AllModerate(p.rowUpper) && AllModerate(p.lower) && AllModerate(p.upper)
    requires forall j :: 0 <= j < p.NumCols() ==> Ordered(p.lower[j], p.upper[j])
    ensures m.rowLower == p.rowLower && m.rowUpper == p.rowUpper && m.lower == p.lower && m.upper == p.upper
  {
    forall j | 0 <= j < p.NumCols() ensures LowersRead(p)[j] == p.lower[j] { BoundsComeBack(p.lower[j], p.upper[j]); }
    forall b: Bound | b.Fin? ==> IsFiniteBound(b) ensures Normalised(b) == b { NormalisedIsIdentity(b); }
  }
}
