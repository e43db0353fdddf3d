/** The MPS pair, at the level of fields: the robustness sweep's writer and the verifier's
    reader, a state machine over sections. Numbers are exact, names are text. */
module Mps {
  import opened Prelude
  import opened Decimals
  import opened LpModel
  import opened RowLp

  datatype Token = Word(text: string) | Number(value: Bound)

  datatype Keyword = NameKey | RowsKey | ColumnsKey | RhsKey | RangesKey | BoundsKey | EndDataKey | UnknownKey

  datatype Line = Header(key: Keyword) | Fields(fields: seq<Token>)

  datatype Kind = L | G | E

  function RowName(i: nat): string { "R" + NatText(i) }

  function ColName(j: nat): string { "X" + NatText(j) }

  lemma NamesDiffer(i: nat, j: nat)
    ensures RowName(i) == RowName(j) ==> i == j
    ensures ColName(i) == ColName(j) ==> i == j
    ensures RowName(i) != "OBJ" && RowName(i) != "RHS" && RowName(i) != "RNG"
    ensures ColName(i) != "BND"
  {
    assert RowName(i)[1..] == NatText(i) && RowName(j)[1..] == NatText(j);
    assert ColName(i)[1..] == NatText(i) && ColName(j)[1..] == NatText(j);
    assert RowName(i)[1] == NatText(i)[0] && IsDigit(NatText(i)[0]);
    assert "RHS"[1] == 'H' && "RNG"[1] == 'N';
    assert RowName(i)[0] == 'R' && ColName(i)[0] == 'X';
  }

  // ---- The reader -----------------------------------------------------------------------

  /** Everything the reader keeps between lines. */
  datatype Reader = Reader(
    section: Keyword,
    objective: Option<string>,
    dropped: set<string>,
    rowIndex: map<string, nat>,
    kinds: seq<Kind>,
    rhs: seq<Bound>,
    ranges: seq<Option<Bound>>,
    colIndex: map<string, nat>,
    cost: seq<real>,
    lower: seq<Bound>,
    upper: seq<Bound>,
    lowerSet: seq<bool>,
    entries: seq<seq<Entry>>,
    offset: real)
  {
    predicate Valid() {
      && |kinds| == |rhs| == |ranges|
      && |cost| == |lower| == |upper| == |lowerSet| == |entries|
      && (forall name :: name in rowIndex ==> rowIndex[name] < |kinds|)
      && (forall name :: name in colIndex ==> colIndex[name] < |cost|)
    }

    predicate IsRow(name: string) {
      name in rowIndex || objective == Some(name) || name in dropped
    }
  }

  function Blank(): Reader {
    Reader(UnknownKey, None, {}, map[], [], [], [], map[], [], [], [], [], [], 0.0)
  }

  function ReadKind(text: string): Option<Kind> {
    if text == "L" then Some(L) else if text == "G" then Some(G) else if text == "E" then Some(E) else None
  }

  /** Exactly a type and a name. The first N row is the objective, later ones are dropped. */
  function RowsLine(r: Reader, fields: seq<Token>): (q: Option<Reader>)
    requires r.Valid()
    ensures q.Some? ==> q.value.Valid()
  {
    if |fields| != 2 || !fields[0].Word? || !fields[1].Word? then None
    else
      var name := fields[1].text;
      if fields[0].text == "N" then
        if r.objective.None? then Some(r.(objective := Some(name))) else Some(r.(dropped := r.dropped + {name}))
      else
        var kind := ReadKind(fields[0].text);
        if kind.None? then None
        else Some(r.(rowIndex := r.rowIndex[name := |r.kinds|], kinds := r.kinds + [kind.value],
                     rhs := r.rhs + [Fin(0.0)], ranges := r.ranges + [None]))
  }

  /** The column of that name, added with the default bounds when it is new. */
  function WithColumn(r: Reader, name: string): (q: Reader)
    requires r.Valid()
    ensures q.Valid() && name in q.colIndex
    ensures q.rowIndex == r.rowIndex && q.kinds == r.kinds && q.objective == r.objective && q.dropped == r.dropped
  {
    if name in r.colIndex then r
    else r.(colIndex := r.colIndex[name := |r.cost|], cost := r.cost + [0.0], lower := r.lower + [Fin(0.0)],
            upper := r.upper + [PosInf], lowerSet := r.lowerSet + [false], entries := r.entries + [[]])
  }

  /** One (row, value) pair of a COLUMNS line. */
  function ColumnPair(r: Reader, col: nat, name: string, value: real): (q: Option<Reader>)
    requires r.Valid() && col < |r.cost|
    ensures q.Some? ==> q.value.Valid() && |q.value.cost| == |r.cost|
  {
    if r.objective == Some(name) then Some(r.(cost := r.cost[col := r.cost[col] + value]))
    else if name in r.dropped then Some(r)
    else if name in r.rowIndex then
      Some(r.(entries := r.entries[col := r.entries[col] + [Entry(r.rowIndex[name], value)]]))
    else None
  }

  /** The (row, value) pairs of a COLUMNS line, from field k. Coefficients are finite here. */
  function ColumnPairs(r: Reader, col: nat, fields: seq<Token>, k: nat): (q: Option<Reader>)
    requires r.Valid() && col < |r.cost|
    ensures q.Some? ==> q.value.Valid()
    decreases |fields| - k
  {
    if k + 1 >= |fields| then Some(r)
    else if !fields[k].Word? || !fields[k + 1].Number? || !fields[k + 1].value.Fin? then None
    else
      var next := ColumnPair(r, col, fields[k].text, fields[k + 1].value.v);
      if next.None? then None else ColumnPairs(next.value, col, fields, k + 2)
  }

  function ColumnsLine(r: Reader, fields: seq<Token>): (q: Option<Reader>)
    requires r.Valid()
    ensures q.Some? ==> q.value.Valid()
  {
    if fields == [] || !fields[0].Word? then None
    else
      var added := WithColumn(r, fields[0].text);
      ColumnPairs(added, added.colIndex[fields[0].text], fields, 1)
  }

  /** One (row, value) pair of an RHS or RANGES line. */
  function ValuePair(r: Reader, name: string, value: Bound): (q: Option<Reader>)
    requires r.Valid()
    ensures q.Some? ==> q.value.Valid()
  {
    if r.objective == Some(name) then
      if r.section == RhsKey then if value.Fin? then Some(r.(offset := r.offset - value.v)) else None
      else Some(r)
    else if name in r.dropped then Some(r)
    else if name !in r.rowIndex then None
    else
      var i := r.rowIndex[name];
      Some(if r.section == RhsKey then r.(rhs := r.rhs[i := value]) else r.(ranges := r.ranges[i := Some(value)]))
  }

  /** The (row, value) pairs of an RHS or RANGES line, from field k. */
  function ValuePairs(r: Reader, fields: seq<Token>, k: nat): (q: Option<Reader>)
    requires r.Valid()
    ensures q.Some? ==> q.value.Valid()
    decreases |fields| - k
  {
    if k + 1 >= |fields| then Some(r)
    else if !fields[k].Word? || !fields[k + 1].Number? then None
    else
      var next := ValuePair(r, fields[k].text, fields[k + 1].value);
      if next.None? then None else ValuePairs(next.value, fields, k + 2)
  }

  /** The set name is optional: it is absent when the first field already names a row. */
  function ValueLine(r: Reader, fields: seq<Token>): (q: Option<Reader>)
    requires r.Valid()
    ensures q.Some? ==> q.value.Valid()
  {
    if fields == [] || !fields[0].Word? then None
    else ValuePairs(r, fields, if r.IsRow(fields[0].text) then 0 else 1)
  }

  predicate Negative(b: Bound) { b.NegInf? || (b.Fin? && b.v < 0.0) }

  /** One bound of one column. A negative upper bound without a lower one opens the lower side. */
  function SetBound(r: Reader, kind: string, j: nat, value: Bound): (q: Option<Reader>)
    requires r.Valid() && j < |r.cost|
    ensures q.Some? ==> q.value.Valid()
  {
    if kind == "UP" then
      var raised := r.(upper := r.upper[j := value]);
      Some(if Negative(value) && !r.lowerSet[j] then raised.(lower := r.lower[j := NegInf]) else raised)
    else if kind == "LO" then Some(r.(lower := r.lower[j := value], lowerSet := r.lowerSet[j := true]))
    else if kind == "FX" then
      Some(r.(lower := r.lower[j := value], upper := r.upper[j := value], lowerSet := r.lowerSet[j := true]))
    else if kind == "FR" then
      Some(r.(lower := r.lower[j := NegInf], upper := r.upper[j := PosInf], lowerSet := r.lowerSet[j := true]))
    else if kind == "MI" then Some(r.(lower := r.lower[j := NegInf], lowerSet := r.lowerSet[j := true]))
    else if kind == "PL" then Some(r.(upper := r.upper[j := PosInf]))
    else None
  }

  /** The bound-set name is optional too, and so is the value. */
  function BoundsLine(r: Reader, fields: seq<Token>): (q: Option<Reader>)
    requires r.Valid()
    ensures q.Some? ==> q.value.Valid()
  {
    if |fields| < 2 || !fields[0].Word? || !fields[1].Word? then None
    else
      var p := if fields[1].text in r.colIndex then 1 else 2;
      if p >= |fields| || !fields[p].Word? || fields[p].text !in r.colIndex then None
      else if p + 1 < |fields| && !fields[p + 1].Number? then None
      else
        var value := if p + 1 < |fields| then fields[p + 1].value else Fin(0.0);
        SetBound(r, fields[0].text, r.colIndex[fields[p].text], value)
  }

  /** One line: a header changes the section, fields are read as the section says, and nothing
      after ENDATA is read. */
  function Next(r: Option<Reader>, line: Line): (q: Option<Reader>)
    requires r.Some? ==> r.value.Valid()
    ensures q.Some? ==> q.value.Valid()
  {
    if r.None? || r.value.section == EndDataKey then r
    else
      match line
      case Header(key) => if key == UnknownKey then None else Some(r.value.(section := key))
      case Fields(fields) =>
        match r.value.section
        case RowsKey => RowsLine(r.value, fields)
        case ColumnsKey => ColumnsLine(r.value, fields)
        case RhsKey | RangesKey => ValueLine(r.value, fields)
        case BoundsKey => BoundsLine(r.value, fields)
        case _ => r
  }

  /** The reader after a run of lines. */
  function Run(r: Option<Reader>, lines: seq<Line>): (q: Option<Reader>)
    requires r.Some? ==> r.value.Valid()
    ensures q.Some? ==> q.value.Valid()
  {
    if lines == [] then r else Next(Run(r, lines[..|lines| - 1]), lines[|lines| - 1])
  }

  lemma {:induction false} RunConcat(r: Option<Reader>, a: seq<Line>, b: seq<Line>)
    requires r.Some? ==> r.value.Valid()
    ensures Run(r, a + b) == Run(Run(r, a), b)
    decreases |b|
  {
    if b == [] {
      assert a + b == a;
    } else {
      assert (a + b)[..|a + b| - 1] == a + b[..|b| - 1];
      RunConcat(r, a, b[..|b| - 1]);
    }
  }

  lemma RunOne(r: Option<Reader>, line: Line)
    requires r.Some? ==> r.value.Valid()
    ensures Run(r, [line]) == Next(r, line)
  {
    hide Next;
    assert [line][..0] == [];
  }

  lemma RunTwo(r: Option<Reader>, first: Line, second: Line)
    requires r.Some? ==> r.value.Valid()
    ensures Run(r, [first, second]) == Next(Next(r, first), second)
  {
    hide Next;
    assert [first, second][..1] == [first];
    RunOne(r, first);
  }

  function Normalised(b: Bound): Bound {
    if b.Fin? && b.v >= MPS_INFINITY then PosInf else if b.Fin? && b.v <= -MPS_INFINITY then NegInf else b
  }

  /** Below 1e30 nothing is rounded to infinity, and from there on everything is. */
  lemma NormalisedIsIdentity(b: Bound)
    ensures Normalised(b) == b <==> (b.Fin? ==> IsFiniteBound(b))
  {
  }

  /** b + t for a finite t. */
  function Shift(b: Bound, t: real): Bound {
    if b.Fin? then Fin(b.v + t) else b
  }

  /** The two-sided bounds a type, a right-hand side and a range stand for. */
  function RowBounds(kind: Kind, rhs: Bound, range: Option<Bound>): Option<(Bound, Bound)> {
    if range.None? then
      match kind
      case L => Some((NegInf, rhs))
      case G => Some((rhs, PosInf))
      case E => Some((rhs, rhs))
    else if !range.value.Fin? then None
    else
      var width := range.value.v;
      var magnitude := if width < 0.0 then -width else width;
      match kind
      case G => Some((rhs, Shift(rhs, magnitude)))
      case L => Some((Shift(rhs, -magnitude), rhs))
      case E => if width >= 0.0 then Some((rhs, Shift(rhs, width))) else Some((Shift(rhs, width), rhs))
  }

  /** What the reader returns. */
  datatype Read = Read(rowLower: seq<Bound>, rowUpper: seq<Bound>, cost: seq<real>, offset: real,
                       lower: seq<Bound>, upper: seq<Bound>, entries: seq<seq<Entry>>)

  function NormalisedAll(s: seq<Bound>): (r: seq<Bound>)
    ensures |r| == |s| && forall i :: 0 <= i < |s| ==> r[i] == Normalised(s[i])
  {
    seq(|s|, i requires 0 <= i < |s| => Normalised(s[i]))
  }

  /** Every row resolved to its normalised bounds, or no model if a range is infinite. */
  ghost predicate Resolves(r: Reader, m: Read)
    requires r.Valid()
  {
    && |m.rowLower| == |m.rowUpper| == |r.kinds|
    && (forall i :: 0 <= i < |r.kinds| ==>
         var b := RowBounds(r.kinds[i], r.rhs[i], r.ranges[i]);
         b.Some? && m.rowLower[i] == Normalised(b.value.0) && m.rowUpper[i] == Normalised(b.value.1))
    && m.cost == r.cost && m.offset == r.offset && m.entries == r.entries
    && m.lower == NormalisedAll(r.lower) && m.upper == NormalisedAll(r.upper)
  }

  /** Reads a file line by line. No model comes back exactly when some line cannot be read or
      some range is infinite. */
  method ParseMps(lines: seq<Line>) returns (m: Option<Read>)
    ensures var r := Run(Some(Blank()), lines);
      if r.None?
         || (exists i ::
               0 <= i < |r.value.kinds| && RowBounds(r.value.kinds[i], r.value.rhs[i], r.value.ranges[i]).None?)
      then m.None?
      else m.Some? && Resolves(r.value, m.value)
  {
    hide Next;
    var state := Some(Blank());
    for k := 0 to |lines|
      invariant state == Run(Some(Blank()), lines[..k])
    {
      assert lines[..k + 1][..k] == lines[..k];
      state := Next(state, lines[k]);
    }
    assert lines[..|lines|] == lines;
    if state.None? { return None; }
    var r := state.value;
    var rowLower, rowUpper := [], [];
    for i := 0 to |r.kinds|
      invariant |rowLower| == |rowUpper| == i
      invariant forall q :: 0 <= q < i ==>
        var b := RowBounds(r.kinds[q], r.rhs[q], r.ranges[q]);
        b.Some? && rowLower[q] == Normalised(b.value.0) && rowUpper[q] == Normalised(b.value.1)
    {
      var b := RowBounds(r.kinds[i], r.rhs[i], r.ranges[i]);
      if b.None? { return None; }
      rowLower := rowLower + [Normalised(b.value.0)];
      rowUpper := rowUpper + [Normalised(b.value.1)];
    }
    m := Some(Read(rowLower, rowUpper, r.cost, r.offset, NormalisedAll(r.lower), NormalisedAll(r.upper), r.entries));
  }

  // ---- The writer -----------------------------------------------------------------------

  /** One coefficient of a column: its cost, or its entry in a row. */
  datatype Pair = CostPair(value: real) | RowPair(row: nat, value: real)

  function KindOf(lo: Bound, hi: Bound): Kind {
    if lo == hi then E else if hi.PosInf? then G else if lo.NegInf? then L else G
  }

  function RhsOf(lo: Bound, hi: Bound): Bound {
    if KindOf(lo, hi).L? then hi else lo
  }

  /** A row written as G whose upper bound is finite needs a RANGES entry. */
  predicate IsRanged(lo: Bound, hi: Bound) { KindOf(lo, hi).G? && !hi.PosInf? }

  function Difference(hi: Bound, lo: Bound): Bound {
    if hi.Fin? && lo.Fin? then Fin(hi.v - lo.v) else if hi.NegInf? then NegInf else PosInf
  }

  function KindText(k: Kind): string {
    match k case L => "L" case G => "G" case E => "E"
  }

  /** The nonzeros of column j among the first k entries of row i. */
  function PairsInRow(row: seq<Entry>, i: nat, j: nat, k: nat): seq<Pair>
    requires k <= |row|
  {
    if k == 0 then []
    else
      var earlier := PairsInRow(row, i, j, k - 1);
      if row[k - 1].row == j && row[k - 1].val != 0.0 then earlier + [RowPair(i, row[k - 1].val)] else earlier
  }

  /** Column j's coefficients over the first i rows, the cost first. */
  function PairsTo(p: Lp, j: nat, i: nat): seq<Pair>
    requires p.Valid() && j < p.NumCols() && i <= |p.rows|
  {
    if i == 0 then (if p.cost[j] != 0.0 then [CostPair(p.cost[j])] else [])
    else PairsTo(p, j, i - 1) + PairsInRow(p.rows[i - 1], i - 1, j, |p.rows[i - 1]|)
  }

  function PairLine(j: nat, pair: Pair): Line {
    match pair
    case CostPair(v) => Fields([Word(ColName(j)), Word("OBJ"), Number(Fin(v))])
    case RowPair(i, v) => Fields([Word(ColName(j)), Word(RowName(i)), Number(Fin(v))])
  }

  function PairLinesTo(j: nat, pairs: seq<Pair>, k: nat): seq<Line>
    requires k <= |pairs|
  {
    if k == 0 then [] else PairLinesTo(j, pairs, k - 1) + [PairLine(j, pairs[k - 1])]
  }

  /** A column with no coefficient at all still appears, at cost zero. */
  function ColumnLines(j: nat, pairs: seq<Pair>): seq<Line> {
    if pairs == [] then [PairLine(j, CostPair(0.0))] else PairLinesTo(j, pairs, |pairs|)
  }

  function RowLinesTo(p: Lp, i: nat): seq<Line>
    requires p.Valid() && i <= |p.rows|
  {
    if i == 0 then []
    else
      var kind := KindOf(p.rowLower[i - 1], p.rowUpper[i - 1]);
      RowLinesTo(p, i - 1) + [Fields([Word(KindText(kind)), Word(RowName(i - 1))])]
  }

  function ColumnLinesTo(p: Lp, j: nat): seq<Line>
    requires p.Valid() && j <= p.NumCols()
  {
    if j == 0 then [] else ColumnLinesTo(p, j - 1) + ColumnLines(j - 1, PairsTo(p, j - 1, |p.rows|))
  }

  function RhsLinesTo(p: Lp, i: nat): seq<Line>
    requires p.Valid() && i <= |p.rows|
  {
    if i == 0 then []
    else
      var rhs := RhsOf(p.rowLower[i - 1], p.rowUpper[i - 1]);
      RhsLinesTo(p, i - 1) + if rhs != Fin(0.0) then [Fields([Word("RHS"), Word(RowName(i - 1)), Number(rhs)])] else []
  }

  function RangeLinesTo(p: Lp, i: nat): seq<Line>
    requires p.Valid() && i <= |p.rows|
  {
    if i == 0 then []
    else
      var lo, hi := p.rowLower[i - 1], p.rowUpper[i - 1];
      RangeLinesTo(p, i - 1)
      + if IsRanged(lo, hi) then [Fields([Word("RNG"), Word(RowName(i - 1)), Number(Difference(hi, lo))])] else []
  }

  function BoundLine(kind: string, j: nat): Line {
    Fields([Word(kind), Word("BND"), Word(ColName(j))])
  }

  function BoundValueLine(kind: string, j: nat, value: Bound): Line {
    Fields([Word(kind), Word("BND"), Word(ColName(j)), Number(value)])
  }

  function LowerLines(j: nat, lo: Bound): seq<Line> {
    if lo == Fin(0.0) then [] else if lo.NegInf? then [BoundLine("MI", j)] else [BoundValueLine("LO", j, lo)]
  }

  function UpperLines(j: nat, hi: Bound): seq<Line> {
    if hi.PosInf? then [] else [BoundValueLine("UP", j, hi)]
  }

  function BoundLines(j: nat, lo: Bound, hi: Bound): seq<Line> {
    if lo.NegInf? && hi.PosInf? then [BoundLine("FR", j)] else LowerLines(j, lo) + UpperLines(j, hi)
  }

  function BoundLinesTo(p: Lp, j: nat): seq<Line>
    requires p.Valid() && j <= p.NumCols()
  {
    if j == 0 then [] else BoundLinesTo(p, j - 1) + BoundLines(j - 1, p.lower[j - 1], p.upper[j - 1])
  }

  /** A section that is only written when it has a line. */
  function Section(key: Keyword, lines: seq<Line>): seq<Line> {
    if lines == [] then [] else [Header(key)] + lines
  }

  /** The whole file. */
  function Written(p: Lp): seq<Line>
    requires p.Valid()
  {
    var m, n := |p.rows|, p.NumCols();
    [Header(NameKey), Header(RowsKey), Fields([Word("N"), Word("OBJ")])] + RowLinesTo(p, m)
    + [Header(ColumnsKey)] + ColumnLinesTo(p, n) + [Header(RhsKey)] + RhsLinesTo(p, m)
    + Section(RangesKey, RangeLinesTo(p, m)) + Section(BoundsKey, BoundLinesTo(p, n)) + [Header(EndDataKey)]
  }

  /** The coefficients gathered by column: the costs, then row after row. */
  method GatherByColumn(p: Lp) returns (byCol: seq<seq<Pair>>)
    requires p.Valid()
    ensures |byCol| == p.NumCols() && forall j :: 0 <= j < |byCol| ==> byCol[j] == PairsTo(p, j, |p.rows|)
  {
    var n := p.NumCols();
    byCol := seq(n, j requires 0 <= j < n => if p.cost[j] != 0.0 then [CostPair(p.cost[j])] else []);
    for i := 0 to |p.rows|
      invariant |byCol| == n && forall j :: 0 <= j < n ==> byCol[j] == PairsTo(p, j, i)
    {
      ghost var before := byCol;
      for k := 0 to |p.rows[i]|
        invariant |byCol| == n && forall j :: 0 <= j < n ==> byCol[j] == before[j] + PairsInRow(p.rows[i], i, j, k)
      {
        var e := p.rows[i][k];
        if e.val != 0.0 { byCol := byCol[e.row := byCol[e.row] + [RowPair(i, e.val)]]; }
      }
    }
  }

  method WriteRows(p: Lp) returns (lines: seq<Line>)
    requires p.Valid()
    ensures lines == RowLinesTo(p, |p.rows|)
  {
    lines := [];
    for i := 0 to |p.rows|
      invariant lines == RowLinesTo(p, i)
    {
      lines := lines + [Fields([Word(KindText(KindOf(p.rowLower[i], p.rowUpper[i]))), Word(RowName(i))])];
    }
  }

  method WriteColumns(p: Lp) returns (lines: seq<Line>)
    requires p.Valid()
    ensures lines == ColumnLinesTo(p, p.NumCols())
  {
    var byCol := GatherByColumn(p);
    lines := [];
    for j := 0 to p.NumCols()
      invariant lines == ColumnLinesTo(p, j)
    {
      var column := WriteColumn(j, byCol[j]);
      lines := lines + column;
    }
  }

  method WriteRhs(p: Lp) returns (lines: seq<Line>)
    requires p.Valid()
    ensures lines == RhsLinesTo(p, |p.rows|)
  {
    lines := [];
    for i := 0 to |p.rows|
      invariant lines == RhsLinesTo(p, i)
    {
      var rhs := RhsOf(p.rowLower[i], p.rowUpper[i]);
      if rhs != Fin(0.0) { lines := lines + [Fields([Word("RHS"), Word(RowName(i)), Number(rhs)])]; }
    }
  }

  method WriteRanges(p: Lp) returns (lines: seq<Line>)
    requires p.Valid()
    ensures lines == RangeLinesTo(p, |p.rows|)
  {
    lines := [];
    for i := 0 to |p.rows|
      invariant lines == RangeLinesTo(p, i)
    {
      var lo, hi := p.rowLower[i], p.rowUpper[i];
      if IsRanged(lo, hi) { lines := lines + [Fields([Word("RNG"), Word(RowName(i)), Number(Difference(hi, lo))])]; }
    }
  }

  method WriteBounds(p: Lp) returns (lines: seq<Line>)
    requires p.Valid()
    ensures lines == BoundLinesTo(p, p.NumCols())
  {
    lines := [];
    for j := 0 to p.NumCols()
      invariant lines == BoundLinesTo(p, j)
    {
      lines := lines + BoundLines(j, p.lower[j], p.upper[j]);
    }
  }

  method WriteMps(p: Lp) returns (out: seq<Line>)
    requires p.Valid()
    ensures out == Written(p)
  {
    hide RowLinesTo, ColumnLinesTo, RhsLinesTo, RangeLinesTo, BoundLinesTo;
    out := [Header(NameKey), Header(RowsKey), Fields([Word("N"), Word("OBJ")])];
    var rows := WriteRows(p);
    var columns := WriteColumns(p);
    var rhs := WriteRhs(p);
    var ranged := WriteRanges(p);
    var bounds := WriteBounds(p);
    out := out + rows + [Header(ColumnsKey)] + columns + [Header(RhsKey)] + rhs;
    if ranged != [] { out := out + ([Header(RangesKey)] + ranged); }
    if bounds != [] { out := out + ([Header(BoundsKey)] + bounds); }
    out := out + [Header(EndDataKey)];
  }

  method WriteColumn(j: nat, pairs: seq<Pair>) returns (lines: seq<Line>)
    ensures lines == ColumnLines(j, pairs)
  {
    lines := [];
    for k := 0 to |pairs|
      invariant lines == PairLinesTo(j, pairs, k)
    {
      lines := lines + [PairLine(j, pairs[k])];
    }
    if pairs == [] { lines := [PairLine(j, CostPair(0.0))]; }
  }
}
