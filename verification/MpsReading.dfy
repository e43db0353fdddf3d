/** What the lines of an MPS file mean to the reader: the values a column or a row admits, the
    constant of the objective, and the spellings of a line that mean the same. */
module MpsReading {
  import opened Prelude
  import opened LpModel
  import opened Mps

  // ---- Bounds -------------------------------------------------------------------------------------

  /** Outside BOUNDS-related fields, and on every other column, nothing changes. */
  predicate OnlyBoundsOf(r: Reader, q: Reader, j: nat) {
    && q == r.(lower := q.lower, upper := q.upper, lowerSet := q.lowerSet)
    && |q.lower| == |r.lower| && |q.upper| == |r.upper| && |q.lowerSet| == |r.lowerSet|
    && (forall k :: 0 <= k < |r.lower| && k != j ==> q.lower[k] == r.lower[k])
    && (forall k :: 0 <= k < |r.upper| && k != j ==> q.upper[k] == r.upper[k])
    && (forall k :: 0 <= k < |r.lowerSet| && k != j ==> q.lowerSet[k] == r.lowerSet[k])
  }

  predicate IsBelowZero(value: Bound) { value.NegInf? || (value.Fin? && value.v < 0.0) }

  /** What column j admits from below after a bound of this kind: a new limit, none, or what it did before.
      An upper bound below zero opens the lower side unless a lower bound was stated. */
  predicate AdmitsFromBelow(r: Reader, kind: string, j: nat, value: Bound, v: real)
    requires r.Valid() && j < |r.lower|
  {
    if kind in {"LO", "FX"} then AboveLower(value, v)
    else if kind in {"FR", "MI"} || (kind == "UP" && IsBelowZero(value) && !r.lowerSet[j]) then true
    else AboveLower(r.lower[j], v)
  }

  predicate AdmitsFromAbove(r: Reader, kind: string, j: nat, value: Bound, v: real)
    requires r.Valid() && j < |r.upper|
  {
    if kind in {"UP", "FX"} then BelowUpper(value, v)
    else if kind in {"FR", "PL"} then true
    else BelowUpper(r.upper[j], v)
  }

  /** A line of the BOUNDS section, with or without the name of the set. */
  function BoundLine(kind: string, named: Option<string>, name: string, value: Option<Bound>): Line {
    Fields([Word(kind)] + (if named.Some? then [Word(named.value)] else []) + [Word(name)]
           + if value.Some? then [Number(value.value)] else [])
  }

  /** A bound line is read if its kind is one of six, and then says what its column admits. A missing value is
      zero, and the name of the set says nothing. */
  lemma BoundLineMeans(r: Reader, kind: string, named: Option<string>, name: string, value: Option<Bound>)
    requires r.Valid() && r.section == BoundsKey && name in r.colIndex
    requires named.Some? ==> named.value !in r.colIndex
    ensures var q, j := Next(Some(r), BoundLine(kind, named, name, value)), r.colIndex[name];
      var limit := if value.Some? then value.value else Fin(0.0);
      && (q.Some? <==> kind in {"UP", "LO", "FX", "FR", "MI", "PL"})
      && (q.Some? ==>
          && q.value.Valid() && OnlyBoundsOf(r, q.value, j)
          && (q.value.lowerSet[j] <==> r.lowerSet[j] || kind in {"LO", "FX", "FR", "MI"})
          && (forall v :: AboveLower(q.value.lower[j], v) <==> AdmitsFromBelow(r, kind, j, limit, v))
          && (forall v :: BelowUpper(q.value.upper[j], v) <==> AdmitsFromAbove(r, kind, j, limit, v)))
  {
    BoundLineIsRead(r, kind, named, name, value);
    var j, limit := r.colIndex[name], if value.Some? then value.value else Fin(0.0);
    hide Next, BoundsLine, BoundLine;
    SetBoundMeans(r, kind, j, limit);
  }

  /** A bound of a column that no COLUMNS line named cannot be read. */
  lemma UnknownColumnIsRefused(r: Reader, kind: string, named: Option<string>, name: string, value: Option<Bound>)
    requires r.Valid() && r.section == BoundsKey && name !in r.colIndex
    requires named.Some? ==> named.value !in r.colIndex
    ensures Next(Some(r), BoundLine(kind, named, name, value)).None?
  {
    hide SetBound;
  }

  lemma BoundLineIsRead(r: Reader, kind: string, named: Option<string>, name: string, value: Option<Bound>)
    requires r.Valid() && r.section == BoundsKey && name in r.colIndex
    requires named.Some? ==> named.value !in r.colIndex
    ensures Next(Some(r), BoundLine(kind, named, name, value))
            == SetBound(r, kind, r.colIndex[name], if value.Some? then value.value else Fin(0.0))
  {
    hide SetBound;
  }

  lemma SetBoundMeans(r: Reader, kind: string, j: nat, value: Bound)
    requires r.Valid() && j < |r.lower|
    ensures var q := SetBound(r, kind, j, value);
      && (q.Some? <==> kind in {"UP", "LO", "FX", "FR", "MI", "PL"})
      && (q.Some? ==>
          && q.value.Valid() && OnlyBoundsOf(r, q.value, j)
          && (q.value.lowerSet[j] <==> r.lowerSet[j] || kind in {"LO", "FX", "FR", "MI"})
          && (forall v :: AboveLower(q.value.lower[j], v) <==> AdmitsFromBelow(r, kind, j, value, v))
          && (forall v :: BelowUpper(q.value.upper[j], v) <==> AdmitsFromAbove(r, kind, j, value, v)))
  {
    SetBoundFrame(r, kind, j, value);
    Unlimited();
    hide AboveLower, BelowUpper, Reader.Valid, OnlyBoundsOf;
  }

  lemma SetBoundFrame(r: Reader, kind: string, j: nat, value: Bound)
    requires r.Valid() && j < |r.lower|
    ensures var q := SetBound(r, kind, j, value);
      && (q.Some? <==> kind in {"UP", "LO", "FX", "FR", "MI", "PL"})
      && (q.Some? ==>
          && q.value.Valid() && OnlyBoundsOf(r, q.value, j)
          && (q.value.lowerSet[j] <==> r.lowerSet[j] || kind in {"LO", "FX", "FR", "MI"}))
  {
  }

  lemma Unlimited()
    ensures forall v :: AboveLower(NegInf, v) && BelowUpper(PosInf, v)
  {
  }

  // ---- Right-hand sides and ranges -------------------------------------------------------------------

  /** A line of the RHS or RANGES section with one pair and the name of its set. */
  function PairLine(named: string, name: string, value: Bound): Line {
    Fields([Word(named), Word(name), Number(value)])
  }

  lemma OnePair(r: Reader, fields: seq<Token>)
    requires r.Valid() && |fields| == 3 && fields[0].Word? && fields[1].Word? && fields[2].Number?
    requires !r.IsRow(fields[0].text)
    ensures ValueLine(r, fields) == ValuePair(r, fields[1].text, fields[2].value)
  {
    hide ValuePair;
    forall q: Reader | q.Valid() ensures ValuePairs(q, fields, 3) == Some(q) {}
    assert ValueLine(r, fields) == ValuePairs(r, fields, 1);
  }

  /** An RHS of the objective lowers the constant by it, one of a row replaces the row's, one of a row that was
      dropped says nothing, and any other name cannot be read. */
  lemma RhsLineMeans(r: Reader, named: string, name: string, value: Bound)
    requires r.Valid() && r.section == RhsKey && !r.IsRow(named)
    ensures var q := Next(Some(r), PairLine(named, name, value));
      if r.objective == Some(name) then
        if value.Fin? then q == Some(r.(offset := r.offset - value.v)) else q.None?
      else if name in r.dropped then q == Some(r)
      else if name in r.rowIndex then
        q.Some? && q.value == r.(rhs := q.value.rhs) && |q.value.rhs| == |r.rhs|
        && forall i :: 0 <= i < |r.rhs| ==> q.value.rhs[i] == if i == r.rowIndex[name] then value else r.rhs[i]
      else q.None?
  {
    var fields := [Word(named), Word(name), Number(value)];
    OnePair(r, fields);
  }

  /** A range of a row replaces the row's; one of the objective says nothing. */
  lemma RangeLineMeans(r: Reader, named: string, name: string, value: Bound)
    requires r.Valid() && r.section == RangesKey && !r.IsRow(named)
    ensures var q := Next(Some(r), PairLine(named, name, value));
      if r.objective == Some(name) || name in r.dropped then q == Some(r)
      else if name in r.rowIndex then
        q.Some? && q.value == r.(ranges := q.value.ranges) && |q.value.ranges| == |r.ranges|
        && forall i :: 0 <= i < |r.ranges| ==>
          q.value.ranges[i] == if i == r.rowIndex[name] then Some(value) else r.ranges[i]
      else q.None?
  {
    var fields := [Word(named), Word(name), Number(value)];
    OnePair(r, fields);
  }

  // ---- Rows and columns ------------------------------------------------------------------------------

  /** The first N row is the objective and later ones are dropped; any other row comes last, with a right-hand
      side of zero and no range. */
  lemma RowLineMeans(r: Reader, kind: string, name: string)
    requires r.Valid() && r.section == RowsKey
    ensures var q := Next(Some(r), Fields([Word(kind), Word(name)]));
      && (q.Some? <==> kind in {"N", "L", "G", "E"})
      && (kind == "N" ==> q == Some(if r.objective.None? then r.(objective := Some(name))
                                     else r.(dropped := r.dropped + {name})))
      && (kind in {"L", "G", "E"} ==>
          && q.value == r.(rowIndex := q.value.rowIndex, kinds := q.value.kinds, rhs := q.value.rhs,
                           ranges := q.value.ranges)
          && q.value.rowIndex == r.rowIndex[name := |r.kinds|]
          && q.value.kinds == r.kinds + [if kind == "L" then L else if kind == "G" then G else E]
          && q.value.rhs == r.rhs + [Fin(0.0)] && q.value.ranges == r.ranges + [None])
  {
  }

  /** Column j as the reader has it so far: a new one costs nothing, has no entries and admits every
      nonnegative value. */
  ghost predicate IsNewColumn(q: Reader, j: nat)
    requires q.Valid() && j < |q.cost|
  {
    && q.cost[j] == 0.0 && q.entries[j] == [] && !q.lowerSet[j]
    && (forall v :: Within(q.lower[j], v, q.upper[j]) <==> v >= 0.0)
  }

  lemma OneColumnPair(r: Reader, j: nat, fields: seq<Token>)
    requires r.Valid() && j < |r.cost| && |fields| == 3 && fields[1].Word? && fields[2].Number? && fields[2].value.Fin?
    ensures ColumnPairs(r, j, fields, 1) == ColumnPair(r, j, fields[1].text, fields[2].value.v)
  {
    hide ColumnPair;
    forall q: Reader | q.Valid() && j < |q.cost| ensures ColumnPairs(q, j, fields, 3) == Some(q) {}
  }

  /** A coefficient of the objective adds to the column's cost, one of a row is one more entry, and one of a
      dropped row says nothing. */
  lemma ColumnLineMeans(r: Reader, name: string, row: string, value: real)
    requires r.Valid() && r.section == ColumnsKey
    ensures var q, known := Next(Some(r), Fields([Word(name), Word(row), Number(Fin(value))])), WithColumn(r, name);
      var j := known.colIndex[name];
      if r.objective == Some(row) then q == Some(known.(cost := known.cost[j := known.cost[j] + value]))
      else if row in r.dropped then q == Some(known)
      else if row in r.rowIndex then
        q == Some(known.(entries := known.entries[j := known.entries[j] + [Entry(r.rowIndex[row], value)]]))
      else q.None?
  {
    var known, fields := WithColumn(r, name), [Word(name), Word(row), Number(Fin(value))];
    var j := known.colIndex[name];
    OneColumnPair(known, j, fields);
    assert ColumnsLine(r, fields) == ColumnPairs(known, j, fields, 1);
  }

  lemma NewColumnMeans(r: Reader, name: string)
    requires r.Valid()
    ensures var q := WithColumn(r, name);
      && (name in r.colIndex ==> q == r)
      && (name !in r.colIndex ==>
          && q.colIndex == r.colIndex[name := |r.cost|] && IsNewColumn(q, |r.cost|)
          && q == r.(colIndex := q.colIndex, cost := q.cost, lower := q.lower, upper := q.upper,
                     lowerSet := q.lowerSet, entries := q.entries)
          && r.cost == q.cost[..|r.cost|] && r.lower == q.lower[..|r.cost|] && r.upper == q.upper[..|r.cost|]
          && r.lowerSet == q.lowerSet[..|r.cost|] && r.entries == q.entries[..|r.cost|]
          && |q.cost| == |r.cost| + 1)
  {
  }

  // ---- Spellings that mean the same -------------------------------------------------------------------

  /** Reading pairs from field k reads the fields from there on. */
  lemma {:induction false} PairsFrom(r: Reader, fields: seq<Token>, k: nat, start: nat)
    requires r.Valid() && start <= k <= |fields|
    ensures ValuePairs(r, fields, k) == ValuePairs(r, fields[start..], k - start)
    decreases |fields| - k
  {
    hide ValuePair;
    if k + 1 < |fields| && fields[k].Word? && fields[k + 1].Number? {
      var next := ValuePair(r, fields[k].text, fields[k + 1].value);
      if next.Some? { PairsFrom(next.value, fields, k + 2, start); }
    }
  }

  predicate SameNames(r: Reader, q: Reader) {
    r.section == q.section && r.rowIndex == q.rowIndex && r.objective == q.objective && r.dropped == q.dropped
  }

  lemma PairKeepsNames(r: Reader, name: string, value: Bound)
    requires r.Valid()
    ensures var q := ValuePair(r, name, value); q.Some? ==> SameNames(r, q.value)
  {
  }

  /** Pairs are read one after the other: first the ones of `a`, then the rest. */
  lemma {:induction false} PairsInTurn(r: Reader, a: seq<Token>, b: seq<Token>, k: nat)
    requires r.Valid() && |a| % 2 == 0 && k <= |a| && k % 2 == 0
    ensures var q := ValuePairs(r, a, k);
      && ValuePairs(r, a + b, k) == (if q.None? then None else ValuePairs(q.value, a + b, |a|))
      && (q.Some? ==> SameNames(r, q.value))
    decreases |a| - k
  {
    hide ValuePair;
    if k < |a| && a[k].Word? && a[k + 1].Number? {
      var next := ValuePair(r, a[k].text, a[k + 1].value);
      PairKeepsNames(r, a[k].text, a[k + 1].value);
      if next.Some? { PairsInTurn(next.value, a, b, k + 2); }
    }
  }

  lemma LineReads(r: Reader, named: string, pairs: seq<Token>)
    requires r.Valid() && r.section in {RhsKey, RangesKey} && !r.IsRow(named)
    ensures Next(Some(r), Fields([Word(named)] + pairs)) == ValuePairs(r, pairs, 0)
  {
    hide ValuePairs;
    PairsFrom(r, [Word(named)] + pairs, 1, 1);
    assert ([Word(named)] + pairs)[1..] == pairs;
  }

  /** The name of the set says nothing: a line whose pairs name a row first reads the same without it. */
  lemma SetNameSaysNothing(r: Reader, named: string, pairs: seq<Token>)
    requires r.Valid() && r.section in {RhsKey, RangesKey} && !r.IsRow(named)
    requires pairs != [] && pairs[0].Word? && r.IsRow(pairs[0].text)
    ensures Next(Some(r), Fields([Word(named)] + pairs)) == Next(Some(r), Fields(pairs))
  {
    hide ValuePairs;
    LineReads(r, named, pairs);
  }

  /** A line with several pairs means what one line for some of them and one for the others mean. */
  lemma LineSplits(r: Reader, named: string, a: seq<Token>, b: seq<Token>)
    requires r.Valid() && r.section in {RhsKey, RangesKey} && !r.IsRow(named) && |a| % 2 == 0
    ensures Next(Some(r), Fields([Word(named)] + (a + b)))
            == Next(Next(Some(r), Fields([Word(named)] + a)), Fields([Word(named)] + b))
  {
    NoneStays(Fields([Word(named)] + b));
    hide ValuePairs, Next;
    LineReads(r, named, a + b);
    LineReads(r, named, a);
    PairsInTurn(r, a, b, 0);
    var q := ValuePairs(r, a, 0);
    if q.Some? {
      PairsFrom(q.value, a + b, |a|, |a|);
      assert (a + b)[|a|..] == b;
      LineReads(q.value, named, b);
    }
  }

  lemma {:induction false} ColumnPairsFrom(r: Reader, j: nat, fields: seq<Token>, k: nat, start: nat)
    requires r.Valid() && j < |r.cost| && start <= k <= |fields|
    ensures ColumnPairs(r, j, fields, k) == ColumnPairs(r, j, fields[start..], k - start)
    decreases |fields| - k
  {
    hide ColumnPair;
    if k + 1 < |fields| && fields[k].Word? && fields[k + 1].Number? && fields[k + 1].value.Fin? {
      var next := ColumnPair(r, j, fields[k].text, fields[k + 1].value.v);
      if next.Some? { ColumnPairsFrom(next.value, j, fields, k + 2, start); }
    }
  }

  predicate SameColumns(r: Reader, q: Reader) {
    SameNames(r, q) && r.colIndex == q.colIndex && |r.cost| == |q.cost|
  }

  lemma ColumnPairKeepsNames(r: Reader, j: nat, name: string, value: real)
    requires r.Valid() && j < |r.cost|
    ensures var q := ColumnPair(r, j, name, value); q.Some? ==> SameColumns(r, q.value)
  {
  }

  lemma {:induction false} ColumnPairsInTurn(r: Reader, j: nat, a: seq<Token>, b: seq<Token>, k: nat)
    requires r.Valid() && j < |r.cost| && |a| % 2 == 0 && k <= |a| && k % 2 == 0
    ensures var q := ColumnPairs(r, j, a, k);
      && (q.Some? ==> SameColumns(r, q.value))
      && ColumnPairs(r, j, a + b, k) == (if q.None? then None else ColumnPairs(q.value, j, a + b, |a|))
    decreases |a| - k
  {
    hide ColumnPair;
    if k < |a| && a[k].Word? && a[k + 1].Number? && a[k + 1].value.Fin? {
      var next := ColumnPair(r, j, a[k].text, a[k + 1].value.v);
      ColumnPairKeepsNames(r, j, a[k].text, a[k + 1].value.v);
      if next.Some? { ColumnPairsInTurn(next.value, j, a, b, k + 2); }
    }
  }

  lemma ColumnLineReads(r: Reader, name: string, pairs: seq<Token>)
    requires r.Valid() && r.section == ColumnsKey
    ensures var known := WithColumn(r, name);
      Next(Some(r), Fields([Word(name)] + pairs)) == ColumnPairs(known, known.colIndex[name], pairs, 0)
  {
    hide ColumnPairs;
    var known := WithColumn(r, name);
    ColumnPairsFrom(known, known.colIndex[name], [Word(name)] + pairs, 1, 1);
    assert ([Word(name)] + pairs)[1..] == pairs;
  }

  /** So does a line of the COLUMNS section. */
  lemma ColumnLineSplits(r: Reader, name: string, a: seq<Token>, b: seq<Token>)
    requires r.Valid() && r.section == ColumnsKey && |a| % 2 == 0
    ensures Next(Some(r), Fields([Word(name)] + (a + b)))
            == Next(Next(Some(r), Fields([Word(name)] + a)), Fields([Word(name)] + b))
  {
    NoneStays(Fields([Word(name)] + b));
    hide ColumnPairs, Next;
    var known := WithColumn(r, name);
    var j := known.colIndex[name];
    ColumnLineReads(r, name, a + b);
    ColumnLineReads(r, name, a);
    ColumnPairsInTurn(known, j, a, b, 0);
    var q := ColumnPairs(known, j, a, 0);
    if q.Some? {
      ColumnPairsFrom(q.value, j, a + b, |a|, |a|);
      assert (a + b)[|a|..] == b;
      ColumnLineReads(q.value, name, b);
    }
  }

  /** So a file may be written either way. */
  lemma FileSplits(before: seq<Line>, named: string, a: seq<Token>, b: seq<Token>, after: seq<Line>)
    requires |a| % 2 == 0
    requires var r := Run(Some(Blank()), before);
      r.Some? ==> r.value.section in {RhsKey, RangesKey} && !r.value.IsRow(named)
    ensures Run(Some(Blank()), before + [Fields([Word(named)] + (a + b))] + after)
            == Run(Some(Blank()), before + [Fields([Word(named)] + a), Fields([Word(named)] + b)] + after)
  {
    hide Next, Run;
    var r, start := Run(Some(Blank()), before), Some(Blank());
    var one, two := [Fields([Word(named)] + (a + b))], [Fields([Word(named)] + a), Fields([Word(named)] + b)];
    RunConcat(start, before + one, after);
    RunConcat(start, before + two, after);
    RunConcat(start, before, one);
    RunConcat(start, before, two);
    RunOne(r, one[0]);
    RunTwo(r, two[0], two[1]);
    if r.Some? { LineSplits(r.value, named, a, b); } else { NoneStays(one[0]); NoneStays(two[0]); NoneStays(two[1]); }
  }

  lemma NoneStays(line: Line)
    ensures Next(None, line) == None
  {
  }

  /** Nothing after ENDATA is read. */
  lemma {:induction false} NothingAfterEnd(r: Option<Reader>, after: seq<Line>)
    requires r.Some? ==> r.value.Valid() && r.value.section == EndDataKey
    ensures Run(r, after) == r
    decreases |after|
  {
    if after != [] { NothingAfterEnd(r, after[..|after| - 1]); }
  }

  // ---- What is returned -------------------------------------------------------------------------------

  /** v is not below a limit; a limit of 1e30 or more is one nothing reaches, and one of -1e30 or less
      is none. */
  predicate NotBelow(limit: real, v: real) {
    limit <= -1000000000000000000000000000000.0 || (limit < 1000000000000000000000000000000.0 && v >= limit)
  }

  predicate NotAbove(limit: real, v: real) {
    limit >= 1000000000000000000000000000000.0 || (limit > -1000000000000000000000000000000.0 && v <= limit)
  }

  function Size(width: real): real { if width < 0.0 then -width else width }

  /** The activities a row admits: a range R widens an L or G row of right-hand side b by |R|, and an E row to
      everything between b and b + R. */
  predicate RowAdmits(kind: Kind, b: real, range: Option<real>, v: real) {
    if range.None? then (kind.L? || NotBelow(b, v)) && (kind.G? || NotAbove(b, v))
    else
      match kind
      case G => NotBelow(b, v) && NotAbove(b + Size(range.value), v)
      case L => NotBelow(b - Size(range.value), v) && NotAbove(b, v)
      case E =>
        if range.value < 0.0 then NotBelow(b + range.value, v) && NotAbove(b, v)
        else NotBelow(b, v) && NotAbove(b + range.value, v)
  }

  lemma RowMeans(r: Reader, m: Read, i: nat, v: real)
    requires r.Valid() && Resolves(r, m) && i < |r.kinds| && r.rhs[i].Fin?
    ensures r.ranges[i].Some? ==> r.ranges[i].value.Fin?
    ensures var range := if r.ranges[i].Some? then Some(r.ranges[i].value.v) else None;
      Within(m.rowLower[i], v, m.rowUpper[i]) <==> RowAdmits(r.kinds[i], r.rhs[i].v, range, v)
  {
    assert RowBounds(r.kinds[i], r.rhs[i], r.ranges[i]).Some?;
    NormalisedMeans(RowBounds(r.kinds[i], r.rhs[i], r.ranges[i]).value.0, v);
    NormalisedMeans(RowBounds(r.kinds[i], r.rhs[i], r.ranges[i]).value.1, v);
    hide Normalised, NotBelow, NotAbove;
  }

  lemma NormalisedMeans(b: Bound, v: real)
    ensures AboveLower(Normalised(b), v) <==> b.NegInf? || (b.Fin? && NotBelow(b.v, v))
    ensures BelowUpper(Normalised(b), v) <==> b.PosInf? || (b.Fin? && NotAbove(b.v, v))
  {
  }

  /** The values a column admits, its cost and entries and the constant are those of the last line. */
  lemma ColumnMeans(r: Reader, m: Read, j: nat, v: real)
    requires r.Valid() && Resolves(r, m) && j < |r.lower|
    ensures |m.lower| == |m.upper| == |r.lower| && m.cost == r.cost && m.entries == r.entries && m.offset == r.offset
    ensures AboveLower(m.lower[j], v) <==> r.lower[j].NegInf? || (r.lower[j].Fin? && NotBelow(r.lower[j].v, v))
    ensures BelowUpper(m.upper[j], v) <==> r.upper[j].PosInf? || (r.upper[j].Fin? && NotAbove(r.upper[j].v, v))
  {
    NormalisedMeans(r.lower[j], v);
    NormalisedMeans(r.upper[j], v);
    hide Normalised, NotBelow, NotAbove;
  }
}
