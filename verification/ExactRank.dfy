/** Rank by Gaussian elimination in exact arithmetic, in place on a list of rows. */
module ExactRank {
  import opened Vectors
  import opened LinearAlgebra

  function Width(a: seq<seq<real>>): nat { if a == [] then 0 else |a[0]| }

  /** After the columns below `col`: one pivot row per pivot column, which is zero everywhere
      else, and nothing left of `col` in the rows not yet used. */
  ghost predicate Eliminated(m: seq<seq<real>>, n: nat, col: nat, pivots: seq<nat>) {
    && Rect(m, n) && col <= n && |pivots| <= |m|
    && (forall i :: 0 <= i < |pivots| ==> pivots[i] < col)
    && (forall i :: 0 <= i < |pivots| ==> m[i][pivots[i]] != 0.0)
    && (forall i, k :: 0 <= i < |pivots| && 0 <= k < |m| && k != i ==> m[k][pivots[i]] == 0.0)
    && (forall k, c :: |pivots| <= k < |m| && 0 <= c < col ==> m[k][c] == 0.0)
  }

  // ---- Row operations keep the row space ----------------------------------------------

  function Exchange(m: seq<seq<real>>, i: nat, j: nat): (r: seq<seq<real>>)
    requires i < |m| && j < |m|
    ensures |r| == |m|
  {
    m[i := m[j]][j := m[i]]
  }

  lemma ExchangeKeepsSpan(m: seq<seq<real>>, n: nat, i: nat, j: nat)
    requires Rect(m, n) && i < |m| && j < |m|
    ensures Rect(Exchange(m, i, j), n) && SameSpan(Exchange(m, i, j), m, n)
  {
    var r := Exchange(m, i, j);
    forall k | 0 <= k < |m| ensures r[k] in m && m[k] in r {
      assert m[k] == r[if k == i then j else if k == j then i else k];
    }
    SubsetInSpan(r, m, n);
    SubsetInSpan(m, r, n);
  }

  /** Row r less `factor` times row p. */
  function Subtract(m: seq<seq<real>>, n: nat, r: nat, factor: real, p: nat): (s: seq<seq<real>>)
    requires Rect(m, n) && r < |m| && p < |m|
    ensures |s| == |m| && Rect(s, n)
  {
    m[r := Combine(1.0, m[r], -factor, m[p])]
  }

  lemma SubtractKeepsSpan(m: seq<seq<real>>, n: nat, r: nat, factor: real, p: nat)
    requires Rect(m, n) && r < |m| && p < |m| && r != p
    ensures SameSpan(Subtract(m, n, r, factor, p), m, n)
  {
    hide InSpan;
    var s := Subtract(m, n, r, factor, p);
    RowInSpan(m, n, r);
    RowInSpan(m, n, p);
    SpanClosed(m[r], m[p], m, n, 1.0, -factor);
    forall k | 0 <= k < |s| ensures InSpan(s[k], m, n) {
      if k != r { RowInSpan(m, n, k); }
    }
    RowInSpan(s, n, r);
    RowInSpan(s, n, p);
    SpanClosed(s[r], s[p], s, n, 1.0, factor);
    AddedBack(m[r], factor, m[p]);
    forall k | 0 <= k < |m| ensures InSpan(m[k], s, n) {
      if k != r { RowInSpan(s, n, k); }
    }
  }

  lemma AddedBack(u: seq<real>, f: real, v: seq<real>)
    requires |u| == |v|
    ensures Combine(1.0, Combine(1.0, u, -f, v), f, v) == u
  {
  }

  // ---- One column ---------------------------------------------------------------------

  /** Exchanging an unused row into the pivot place disturbs nothing found so far. */
  lemma ExchangeKeepsEliminated(m: seq<seq<real>>, n: nat, col: nat, pivots: seq<nat>, j: nat)
    requires Eliminated(m, n, col, pivots) && |pivots| <= j < |m|
    ensures Eliminated(Exchange(m, |pivots|, j), n, col, pivots)
  {
  }

  /** Clearing one entry of the pivot column disturbs nothing found so far. */
  lemma SubtractKeepsEliminated(m: seq<seq<real>>, n: nat, col: nat, pivots: seq<nat>, r: nat)
    requires Eliminated(m, n, col, pivots) && |pivots| < |m| && col < n && m[|pivots|][col] != 0.0
    requires r < |m| && r != |pivots|
    ensures var s := Subtract(m, n, r, m[r][col] / m[|pivots|][col], |pivots|);
      Eliminated(s, n, col, pivots) && s[r][col] == 0.0
  {
    var p := |pivots|;
    var factor := m[r][col] / m[p][col];
    var s := Subtract(m, n, r, factor, p);
    DivideBack(m[r][col], m[p][col]);
    assert s[r][col] == 1.0 * m[r][col] + -factor * m[p][col];
    forall i | 0 <= i < p ensures s[r][pivots[i]] == m[r][pivots[i]] {
      ZeroTimes(m[r][pivots[i]], factor, m[p][pivots[i]]);
    }
    forall c | 0 <= c < col && p <= r ensures s[r][c] == 0.0 {
      ZeroTimes(m[r][c], factor, m[p][c]);
    }
  }

  lemma ZeroTimes(a: real, f: real, z: real)
    requires z == 0.0
    ensures 1.0 * a + -f * z == a
  {
  }

  lemma NegatedFactor(a: real, f: real, b: real)
    ensures a - f * b == 1.0 * a + -f * b
  {
  }

  /** A column whose entries are cleared around the pivot is finished. */
  lemma ColumnDone(m: seq<seq<real>>, n: nat, col: nat, pivots: seq<nat>)
    requires Eliminated(m, n, col, pivots) && |pivots| < |m| && col < n && m[|pivots|][col] != 0.0
    requires forall k :: 0 <= k < |m| && k != |pivots| ==> m[k][col] == 0.0
    ensures Eliminated(m, n, col + 1, pivots + [col])
  {
  }

  // ---- The rank of an eliminated matrix -----------------------------------------------

  lemma {:induction false} DotSingle(c: seq<real>, v: seq<real>, i: nat, k: nat)
    requires |c| == |v| && i < k <= |c| && forall l :: 0 <= l < |v| && l != i ==> v[l] == 0.0
    ensures DotTo(c, v, k) == c[i] * v[i]
  {
    if k == i + 1 {
      DotToZero(c, v, i);
    } else {
      DotSingle(c, v, i, k - 1);
    }
  }

  /** Each pivot row has an entry no other has, so no combination of them vanishes. */
  lemma PivotRowsIndependent(m: seq<seq<real>>, n: nat, col: nat, pivots: seq<nat>)
    requires Eliminated(m, n, col, pivots)
    ensures Rect(m[..|pivots|], n) && Independent(m[..|pivots|], n)
  {
    var b := m[..|pivots|];
    forall c: seq<real> | |c| == |b| && IsZero(Comb(c, b, n)) ensures IsZero(c) {
      forall i | 0 <= i < |c| ensures c[i] == 0.0 {
        var v := Column(b, n, pivots[i]);
        DotSingle(c, v, i, |c|);
        assert Comb(c, b, n)[pivots[i]] == 0.0;
        NonzeroFactor(c[i], v[i]);
      }
    }
  }

  lemma NonzeroFactor(a: real, b: real)
    requires a * b == 0.0 && b != 0.0
    ensures a == 0.0
  {
  }

  /** When no unused row has anything left, the number of pivots is the rank. */
  lemma PivotsAreRank(m: seq<seq<real>>, n: nat, col: nat, pivots: seq<nat>)
    requires Eliminated(m, n, col, pivots) && (col == n || |pivots| == |m|)
    ensures IsRank(m, n, |pivots|)
  {
    hide InSpan, Independent;
    var b := m[..|pivots|];
    PivotRowsIndependent(m, n, col, pivots);
    SubsetInSpan(b, m, n);
    forall k | 0 <= k < |m| ensures InSpan(m[k], b, n) {
      if k < |b| {
        RowInSpan(b, n, k);
        assert b[k] == m[k];
      } else {
        assert m[k] == Zeros(n);
        ZeroInSpan(b, n);
      }
    }
  }

  lemma RankOfSameSpan(a: seq<seq<real>>, m: seq<seq<real>>, n: nat, r: nat)
    requires Rect(a, n) && Rect(m, n) && SameSpan(m, a, n) && IsRank(m, n, r)
    ensures IsRank(a, n, r)
  {
    hide InSpan, Independent;
    var b: seq<seq<real>> :| |b| == r && Rect(b, n) && Independent(b, n) && SameSpan(m, b, n);
    SameSpanTransitive(a, m, b, n);
  }

  // ---- The algorithm ------------------------------------------------------------------

  /** The first row at or below `rank` with a nonzero entry in the column, if any. */
  method FindPivot(m: array<seq<real>>, n: nat, rank: nat, col: nat) returns (pivot: nat)
    requires Rect(m[..], n) && col < n && rank <= m.Length
    ensures rank <= pivot <= m.Length
    ensures forall k :: rank <= k < pivot ==> m[k][col] == 0.0
    ensures pivot < m.Length ==> m[pivot][col] != 0.0
  {
    pivot := rank;
    while pivot < m.Length && m[pivot][col] == 0.0
      invariant rank <= pivot <= m.Length
      invariant forall k :: rank <= k < pivot ==> m[k][col] == 0.0
    {
      pivot := pivot + 1;
    }
  }

  /** Subtract in place, touching only the columns from `col` on: the pivot row is already zero
      to the left, so this is the full row operation. */
  method SubtractFrom(m: array<seq<real>>, n: nat, col: nat, r: nat, factor: real, p: nat)
    requires Rect(m[..], n) && r < m.Length && p < m.Length && r != p && col <= n
    requires forall c :: 0 <= c < col ==> m[p][c] == 0.0
    modifies m
    ensures m[..] == Subtract(old(m[..]), n, r, factor, p)
  {
    ghost var row, from := m[r], m[p];
    for c := col to n
      invariant m[..] == old(m[..])[r := m[r]] && |m[r]| == n
      invariant forall j :: 0 <= j < col || c <= j < n ==> m[r][j] == row[j]
      invariant forall j :: col <= j < c ==> m[r][j] == row[j] - factor * from[j]
    {
      m[r] := m[r][c := m[r][c] - factor * m[p][c]];
    }
    forall j | 0 <= j < n ensures m[r][j] == Combine(1.0, row, -factor, from)[j] {
      if j < col { ZeroTimes(row[j], factor, from[j]); } else { NegatedFactor(row[j], factor, from[j]); }
    }
    assert m[r] == Combine(1.0, row, -factor, from);
  }

  /** Clear the column in every other row, with the pivot in row `rank`. */
  method ClearColumn(m: array<seq<real>>, n: nat, col: nat, rank: nat, ghost pivots: seq<nat>)
    requires col < n && Eliminated(m[..], n, col, pivots) && rank == |pivots| < m.Length && m[rank][col] != 0.0
    modifies m
    ensures Eliminated(m[..], n, col + 1, pivots + [col])
    ensures SameSpan(m[..], old(m[..]), n)
  {
    hide InSpan;
    var inverse := m[rank][col];
    ghost var start := m[..];
    SubsetInSpan(start, start, n);
    for r := 0 to m.Length
      invariant Eliminated(m[..], n, col, pivots) && SameSpan(m[..], start, n)
      invariant m[rank][col] == inverse
      invariant forall k :: 0 <= k < r && k != rank ==> m[k][col] == 0.0
    {
      if r != rank && m[r][col] != 0.0 {
        var factor := m[r][col] / inverse;
        ghost var before := m[..];
        SubtractKeepsEliminated(before, n, col, pivots, r);
        SubtractKeepsSpan(before, n, r, factor, rank);
        SubtractFrom(m, n, col, r, factor, rank);
        assert m[..] == Subtract(before, n, r, factor, rank);
        SameSpanTransitive(m[..], before, start, n);
        assert forall k :: 0 <= k < m.Length && k != r ==> m[..][k] == before[k];
      }
    }
    ColumnDone(m[..], n, col, pivots);
  }

  method ExactRank(a: seq<seq<real>>) returns (rank: nat)
    requires Rect(a, Width(a))
    ensures IsRank(a, Width(a), rank)
  {
    hide InSpan;
    var n := Width(a);
    var m := new seq<real>[|a|](i requires 0 <= i < |a| => a[i]);
    assert m[..] == a;
    SubsetInSpan(a, a, n);
    rank := 0;
    ghost var pivots: seq<nat>, done := [], 0;
    for col := 0 to n
      invariant Eliminated(m[..], n, col, pivots) && rank == |pivots| && done == col
      invariant SameSpan(m[..], a, n)
      invariant rank < m.Length || n == 0
    {
      var pivot := FindPivot(m, n, rank, col);
      done := col + 1;
      if pivot == m.Length {
        assert Eliminated(m[..], n, col + 1, pivots);
        continue;
      }
      ghost var before := m[..];
      ExchangeKeepsSpan(before, n, rank, pivot);
      ExchangeKeepsEliminated(before, n, col, pivots, pivot);
      m[rank], m[pivot] := m[pivot], m[rank];
      assert m[..] == Exchange(before, rank, pivot);
      SameSpanTransitive(m[..], before, a, n);
      ghost var exchanged := m[..];
      ClearColumn(m, n, col, rank, pivots);
      SameSpanTransitive(m[..], exchanged, a, n);
      rank, pivots := rank + 1, pivots + [col];
      if rank == m.Length { break; }
    }
    PivotsAreRank(m[..], n, done, pivots);
    RankOfSameSpan(a, m[..], n, rank);
  }

  /** What the number means: exactly `rank` rows of the matrix can be chosen to be independent
      and span all of it, and no independent list inside its row space is longer. */
  lemma RankCountsRows(a: seq<seq<real>>, rank: nat) returns (sel: seq<nat>)
    requires Rect(a, Width(a)) && IsRank(a, Width(a), rank)
    ensures |sel| == rank && Positions(sel, |a|) && Rect(Select(a, sel), Width(a))
    ensures Independent(Select(a, sel), Width(a)) && SameSpan(a, Select(a, sel), Width(a))
    ensures forall vs: seq<seq<real>> ::
      Rect(vs, Width(a)) && AllInSpan(vs, a, Width(a)) && Independent(vs, Width(a)) ==> |vs| <= rank
  {
    sel := RankIsOfRows(a, Width(a), rank);
    forall vs: seq<seq<real>> | Rect(vs, Width(a)) && AllInSpan(vs, a, Width(a)) && Independent(vs, Width(a))
        ensures |vs| <= rank {
      RankIsLargest(a, Width(a), rank, vs);
    }
  }
}
