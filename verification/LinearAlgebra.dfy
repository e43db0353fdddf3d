/** Spans, independence and dimension for lists of real vectors of a common length. */
module LinearAlgebra {
  import opened Vectors

  predicate Rect(rows: seq<seq<real>>, n: nat) { forall i :: 0 <= i < |rows| ==> |rows[i]| == n }

  /** Component j of every row. */
  function Column(rows: seq<seq<real>>, n: nat, j: nat): (c: seq<real>)
    requires Rect(rows, n) && j < n
    ensures |c| == |rows|
    ensures forall i :: 0 <= i < |rows| ==> c[i] == rows[i][j]
  {
    seq(|rows|, i requires 0 <= i < |rows| => rows[i][j])
  }

  /** c[0]*rows[0] + ... + c[k-1]*rows[k-1] */
  function CombTo(c: seq<real>, rows: seq<seq<real>>, n: nat, k: nat): (v: seq<real>)
    requires Rect(rows, n) && |c| == |rows| && k <= |c|
    ensures |v| == n
    ensures forall j :: 0 <= j < n ==> v[j] == DotTo(c, Column(rows, n, j), k)
  {
    seq(n, j requires 0 <= j < n => DotTo(c, Column(rows, n, j), k))
  }

  function Comb(c: seq<real>, rows: seq<seq<real>>, n: nat): (v: seq<real>)
    requires Rect(rows, n) && |c| == |rows|
    ensures |v| == n
  {
    CombTo(c, rows, n, |c|)
  }

  ghost predicate InSpan(v: seq<real>, rows: seq<seq<real>>, n: nat)
    requires Rect(rows, n)
  {
    exists c: seq<real> :: |c| == |rows| && v == Comb(c, rows, n)
  }

  ghost predicate AllInSpan(vs: seq<seq<real>>, rows: seq<seq<real>>, n: nat)
    requires Rect(rows, n)
  {
    forall i :: 0 <= i < |vs| ==> InSpan(vs[i], rows, n)
  }

  ghost predicate SameSpan(a: seq<seq<real>>, b: seq<seq<real>>, n: nat)
    requires Rect(a, n) && Rect(b, n)
  {
    AllInSpan(a, b, n) && AllInSpan(b, a, n)
  }

  predicate IsZero(c: seq<real>) { forall i :: 0 <= i < |c| ==> c[i] == 0.0 }

  ghost predicate Independent(rows: seq<seq<real>>, n: nat)
    requires Rect(rows, n)
  {
    forall c: seq<real> :: |c| == |rows| && IsZero(Comb(c, rows, n)) ==> IsZero(c)
  }

  // ---- Spans are subspaces ------------------------------------------------------------

  /** Combinations add and scale. */
  lemma CombLinear(c: seq<real>, d: seq<real>, rows: seq<seq<real>>, n: nat, s: real, t: real)
    requires Rect(rows, n) && |c| == |d| == |rows|
    ensures Comb(Combine(s, c, t, d), rows, n) == Combine(s, Comb(c, rows, n), t, Comb(d, rows, n))
  {
    hide DotTo;
    forall j | 0 <= j < n
      ensures Comb(Combine(s, c, t, d), rows, n)[j] == s * Comb(c, rows, n)[j] + t * Comb(d, rows, n)[j]
    {
      var col := Column(rows, n, j);
      DotCombine(col, s, c, t, d);
      DotToCommutes(col, c, |c|);
      DotToCommutes(col, d, |c|);
      DotToCommutes(col, Combine(s, c, t, d), |c|);
    }
  }

  lemma SpanClosed(u: seq<real>, v: seq<real>, rows: seq<seq<real>>, n: nat, s: real, t: real)
    requires Rect(rows, n) && InSpan(u, rows, n) && InSpan(v, rows, n)
    ensures |u| == |v| == n && InSpan(Combine(s, u, t, v), rows, n)
  {
    var c: seq<real> :| |c| == |rows| && u == Comb(c, rows, n);
    var d: seq<real> :| |d| == |rows| && v == Comb(d, rows, n);
    CombLinear(c, d, rows, n, s, t);
    assert Combine(s, u, t, v) == Comb(Combine(s, c, t, d), rows, n);
  }

  lemma ZeroInSpan(rows: seq<seq<real>>, n: nat)
    requires Rect(rows, n)
    ensures InSpan(Zeros(n), rows, n)
  {
    var c := Zeros(|rows|);
    forall j | 0 <= j < n ensures Comb(c, rows, n)[j] == 0.0 {
      DotToCommutes(c, Column(rows, n, j), |c|);
      DotToZero(Column(rows, n, j), c, |c|);
    }
    assert Zeros(n) == Comb(c, rows, n);
  }

  lemma UnitComb(rows: seq<seq<real>>, n: nat, i: nat)
    requires Rect(rows, n) && i < |rows|
    ensures Comb(Unit(i, |rows|), rows, n) == rows[i]
  {
    var e, z := Unit(i, |rows|), Zeros(|rows|);
    forall j | 0 <= j < n ensures Comb(e, rows, n)[j] == rows[i][j] {
      var col := Column(rows, n, j);
      DotToCommutes(e, col, |rows|);
      DotToUpdate(col, z, i, 1.0, |rows|);
      DotToZero(col, z, |rows|);
      assert z[i := z[i] + 1.0] == e;
    }
  }

  lemma RowInSpan(rows: seq<seq<real>>, n: nat, i: nat)
    requires Rect(rows, n) && i < |rows|
    ensures InSpan(rows[i], rows, n)
  {
    UnitComb(rows, n, i);
  }

  /** One more term of a combination. */
  lemma CombStep(c: seq<real>, rows: seq<seq<real>>, n: nat, k: nat)
    requires Rect(rows, n) && |c| == |rows| && k < |c|
    ensures CombTo(c, rows, n, k + 1) == Combine(1.0, CombTo(c, rows, n, k), c[k], rows[k])
  {
    forall j | 0 <= j < n
      ensures CombTo(c, rows, n, k + 1)[j] == 1.0 * CombTo(c, rows, n, k)[j] + c[k] * rows[k][j]
    {
      assert DotTo(c, Column(rows, n, j), k + 1) == DotTo(c, Column(rows, n, j), k) + Mul(c[k], Column(rows, n, j)[k]);
    }
  }

  lemma EmptyComb(c: seq<real>, rows: seq<seq<real>>, n: nat)
    requires Rect(rows, n) && |c| == |rows|
    ensures CombTo(c, rows, n, 0) == Zeros(n)
  {
  }

  lemma {:induction false} PartialInSpan(c: seq<real>, a: seq<seq<real>>, b: seq<seq<real>>, n: nat, k: nat)
    requires Rect(a, n) && Rect(b, n) && |c| == |a| && k <= |c| && AllInSpan(a, b, n)
    ensures InSpan(CombTo(c, a, n, k), b, n)
  {
    hide DotTo, Comb, InSpan;
    if k == 0 {
      EmptyComb(c, a, n);
      ZeroInSpan(b, n);
    } else {
      PartialInSpan(c, a, b, n, k - 1);
      CombStep(c, a, n, k - 1);
      SpanClosed(CombTo(c, a, n, k - 1), a[k - 1], b, n, 1.0, c[k - 1]);
    }
  }

  /** A span contains the span of anything inside it. */
  lemma SpanTransitive(v: seq<real>, a: seq<seq<real>>, b: seq<seq<real>>, n: nat)
    requires Rect(a, n) && Rect(b, n) && InSpan(v, a, n) && AllInSpan(a, b, n)
    ensures InSpan(v, b, n)
  {
    var c: seq<real> :| |c| == |a| && v == Comb(c, a, n);
    PartialInSpan(c, a, b, n, |c|);
  }

  lemma SameSpanTransitive(a: seq<seq<real>>, b: seq<seq<real>>, c: seq<seq<real>>, n: nat)
    requires Rect(a, n) && Rect(b, n) && Rect(c, n) && SameSpan(a, b, n) && SameSpan(b, c, n)
    ensures SameSpan(a, c, n)
  {
    forall i | 0 <= i < |a| ensures InSpan(a[i], c, n) { SpanTransitive(a[i], b, c, n); }
    forall i | 0 <= i < |c| ensures InSpan(c[i], a, n) { SpanTransitive(c[i], b, a, n); }
  }

  /** The rows of a list are in the span of any list that contains them all. */
  lemma SubsetInSpan(a: seq<seq<real>>, b: seq<seq<real>>, n: nat)
    requires Rect(b, n) && forall i :: 0 <= i < |a| ==> a[i] in b
    ensures AllInSpan(a, b, n)
  {
    forall i | 0 <= i < |a| ensures InSpan(a[i], b, n) {
      var k :| 0 <= k < |b| && b[k] == a[i];
      RowInSpan(b, n, k);
    }
  }

  // ---- More vectors than dimensions are dependent -------------------------------------

  function Remove<T>(s: seq<T>, i: nat): (r: seq<T>)
    requires i < |s|
    ensures |r| == |s| - 1
    ensures forall l :: 0 <= l < i ==> r[l] == s[l]
    ensures forall l :: i <= l < |r| ==> r[l] == s[l + 1]
  {
    s[..i] + s[i + 1..]
  }

  lemma {:induction false} DotRemove(a: seq<real>, b: seq<real>, i: nat, k: nat)
    requires |a| == |b| && i < k <= |a|
    ensures DotTo(a, b, k) == DotTo(Remove(a, i), Remove(b, i), k - 1) + Mul(a[i], b[i])
  {
    if k == i + 1 {
      DotPrefix(a, b, Remove(a, i), Remove(b, i), i);
    } else {
      DotRemove(a, b, i, k - 1);
      assert Remove(a, i)[k - 2] == a[k - 1] && Remove(b, i)[k - 2] == b[k - 1];
    }
  }

  lemma {:induction false} DotPrefix(a: seq<real>, b: seq<real>, a': seq<real>, b': seq<real>, k: nat)
    requires k <= |a| && k <= |b| && k <= |a'| && k <= |b'|
    requires forall l :: 0 <= l < k ==> a[l] == a'[l] && b[l] == b'[l]
    ensures DotTo(a, b, k) == DotTo(a', b', k)
  {
    if k > 0 { DotPrefix(a, b, a', b', k - 1); }
  }

  /** Each vector less its multiple of `pivot`. */
  function Reduced(vs: seq<seq<real>>, n: nat, t: seq<real>, pivot: seq<real>): (r: seq<seq<real>>)
    requires Rect(vs, n) && |t| == |vs| && |pivot| == n
    ensures |r| == |vs| && Rect(r, n)
    ensures forall i :: 0 <= i < |vs| ==> r[i] == Combine(1.0, vs[i], -t[i], pivot)
  {
    seq(|vs|, i requires 0 <= i < |vs| => Combine(1.0, vs[i], -t[i], pivot))
  }

  /** Component j of a combination of reduced vectors. */
  lemma {:induction false} DotReduced(c: seq<real>, vs: seq<seq<real>>, n: nat, t: seq<real>, pivot: seq<real>, j: nat,
      k: nat)
    requires Rect(vs, n) && |c| == |t| == |vs| && |pivot| == n && j < n && k <= |c|
    ensures DotTo(c, Column(Reduced(vs, n, t, pivot), n, j), k)
            == DotTo(c, Column(vs, n, j), k) - DotTo(c, t, k) * pivot[j]
  {
    hide Mul, Combine;
    if k > 0 {
      DotReduced(c, vs, n, t, pivot, j, k - 1);
      var v := Column(Reduced(vs, n, t, pivot), n, j)[k - 1];
      assert v == Combine(1.0, vs[k - 1], -t[k - 1], pivot)[j];
      ReducedTerm(c[k - 1], vs[k - 1][j], t[k - 1], pivot[j], DotTo(c, t, k - 1), v);
    }
  }

  lemma ReducedTerm(c: real, v: real, t: real, p: real, sum: real, w: real)
    requires w == 1.0 * v + -t * p
    ensures Mul(c, w) == Mul(c, v) - ((sum + Mul(c, t)) * p - sum * p)
  {
  }

  /** A dependency among the reduced others becomes one among all, by giving the pivot vector
      the coefficient that cancels what was subtracted. */
  lemma LiftDependency(vs: seq<seq<real>>, n: nat, i: nat, t: seq<real>, c: seq<real>) returns (full: seq<real>)
    requires Rect(vs, n) && i < |vs| && |t| == |c| == |vs| - 1
    requires !IsZero(c) && IsZero(Comb(c, Reduced(Remove(vs, i), n, t, vs[i]), n))
    ensures |full| == |vs| && !IsZero(full) && IsZero(Comb(full, vs, n))
  {
    hide Comb, Dot, Reduced;
    full := c[..i] + [-Dot(c, t)] + c[i..];
    assert Remove(full, i) == c;
    var l :| 0 <= l < |c| && c[l] != 0.0;
    assert full[if l < i then l else l + 1] == c[l];
    forall j | 0 <= j < n ensures Comb(full, vs, n)[j] == 0.0 {
      LiftComponent(vs, n, i, t, c, full, j);
    }
  }

  lemma LiftComponent(vs: seq<seq<real>>, n: nat, i: nat, t: seq<real>, c: seq<real>, full: seq<real>, j: nat)
    requires Rect(vs, n) && i < |vs| && |t| == |c| == |vs| - 1 && j < n
    requires |full| == |vs| && Remove(full, i) == c && full[i] == -Dot(c, t)
    requires IsZero(Comb(c, Reduced(Remove(vs, i), n, t, vs[i]), n))
    ensures Comb(full, vs, n)[j] == 0.0
  {
    hide Mul, DotTo, Reduced;
    var others, col := Remove(vs, i), Column(vs, n, j);
    assert Remove(col, i) == Column(others, n, j);
    DotRemove(full, col, i, |full|);
    DotReduced(c, others, n, t, vs[i], j, |c|);
    assert Comb(c, Reduced(others, n, t, vs[i]), n)[j] == 0.0;
    NegatedProduct(Dot(c, t), vs[i][j]);
  }

  /** The coefficients of a vector of the span. */
  ghost function Coefficients(v: seq<real>, rows: seq<seq<real>>, n: nat): (c: seq<real>)
    requires Rect(rows, n) && InSpan(v, rows, n)
    ensures |c| == |rows| && v == Comb(c, rows, n)
  {
    var c: seq<real> :| |c| == |rows| && v == Comb(c, rows, n);
    c
  }

  /** A zero last coefficient can be dropped with its row. */
  lemma DropLast(c: seq<real>, rows: seq<seq<real>>, n: nat)
    requires Rect(rows, n) && |c| == |rows| > 0 && c[|c| - 1] == 0.0
    ensures InSpan(Comb(c, rows, n), rows[..|rows| - 1], n)
  {
    hide InSpan;
    var k := |c| - 1;
    var c', rows' := c[..k], rows[..k];
    forall j | 0 <= j < n ensures Comb(c, rows, n)[j] == Comb(c', rows', n)[j] {
      DotPrefix(c, Column(rows, n, j), c', Column(rows', n, j), k);
    }
    assert Comb(c, rows, n) == Comb(c', rows', n);
    CombInSpan(c', rows', n);
  }

  lemma CombInSpan(c: seq<real>, rows: seq<seq<real>>, n: nat)
    requires Rect(rows, n) && |c| == |rows|
    ensures InSpan(Comb(c, rows, n), rows, n)
  {
  }

  /** More vectors than generators are dependent. */
  lemma {:induction false} Steinitz(vs: seq<seq<real>>, b: seq<seq<real>>, n: nat) returns (c: seq<real>)
    requires Rect(vs, n) && Rect(b, n) && |vs| > |b| && AllInSpan(vs, b, n)
    ensures |c| == |vs| && !IsZero(c) && IsZero(Comb(c, vs, n))
    decreases |b|
  {
    hide Comb, InSpan;
    if |b| == 0 {
      c := Unit(0, |vs|);
      assert c[0] == 1.0;
      UnitComb(vs, n, 0);
      var e := Coefficients(vs[0], b, n);
      NoRowsNoComb(e, b, n);
    } else {
      var k := |b| - 1;
      var lasts := seq(|vs|, l requires 0 <= l < |vs| => Coefficients(vs[l], b, n)[k]);
      if i :| 0 <= i < |vs| && lasts[i] != 0.0 {
        c := EliminateWith(vs, b, n, i, lasts);
      } else {
        forall l | 0 <= l < |vs| ensures InSpan(vs[l], b[..k], n) {
          assert lasts[l] == 0.0;
          DropLast(Coefficients(vs[l], b, n), b, n);
        }
        c := Steinitz(vs, b[..k], n);
      }
    }
  }

  lemma NoRowsNoComb(c: seq<real>, rows: seq<seq<real>>, n: nat)
    requires Rect(rows, n) && |c| == |rows| == 0
    ensures IsZero(Comb(c, rows, n))
  {
  }

  /** The step of the exchange: eliminate the last generator with a vector that uses it. */
  lemma {:induction false} EliminateWith(vs: seq<seq<real>>, b: seq<seq<real>>, n: nat, i: nat, lasts: seq<real>)
    returns (c: seq<real>)
    requires Rect(vs, n) && Rect(b, n) && |vs| > |b| > 0 && AllInSpan(vs, b, n) && i < |vs| == |lasts|
    requires forall l :: 0 <= l < |vs| ==> lasts[l] == Coefficients(vs[l], b, n)[|b| - 1]
    requires lasts[i] != 0.0
    ensures |c| == |vs| && !IsZero(c) && IsZero(Comb(c, vs, n))
    decreases |b|, 0
  {
    hide Comb, InSpan;
    var others := Remove(vs, i);
    var t := seq(|others|, l requires 0 <= l < |others| => Remove(lasts, i)[l] / lasts[i]);
    var reduced := Reduced(others, n, t, vs[i]);
    forall l | 0 <= l < |others| ensures InSpan(reduced[l], b[..|b| - 1], n) {
      var l' := if l < i then l else l + 1;
      DivideBack(lasts[l'], lasts[i]);
      assert Remove(lasts, i)[l] == lasts[l'];
      EliminatedInSpan(vs[l'], vs[i], b, n, t[l], lasts[l'], lasts[i]);
    }
    var c' := Steinitz(reduced, b[..|b| - 1], n);
    c := LiftDependency(vs, n, i, t, c');
  }

  lemma DivideBack(a: real, b: real)
    requires b != 0.0
    ensures (a / b) * b == a
  {
  }

  lemma EliminatedInSpan(v: seq<real>, pivot: seq<real>, b: seq<seq<real>>, n: nat, t: real, lastV: real, lastP: real)
    requires Rect(b, n) && |b| > 0 && InSpan(v, b, n) && InSpan(pivot, b, n) && |v| == |pivot| == n
    requires lastV == Coefficients(v, b, n)[|b| - 1] && lastP == Coefficients(pivot, b, n)[|b| - 1]
    requires t * lastP == lastV
    ensures InSpan(Combine(1.0, v, -t, pivot), b[..|b| - 1], n)
  {
    hide InSpan;
    var cv, cp := Coefficients(v, b, n), Coefficients(pivot, b, n);
    CombLinear(cv, cp, b, n, 1.0, -t);
    DropLast(Combine(1.0, cv, -t, cp), b, n);
  }

  // ---- Bases and rank -----------------------------------------------------------------

  /** r is the dimension of the row space: some independent list of r vectors spans it. */
  ghost predicate IsRank(a: seq<seq<real>>, n: nat, r: nat)
    requires Rect(a, n)
  {
    exists b: seq<seq<real>> :: |b| == r && Rect(b, n) && Independent(b, n) && SameSpan(a, b, n)
  }

  /** No independent list inside the row space is longer than the rank. */
  lemma RankIsLargest(a: seq<seq<real>>, n: nat, r: nat, vs: seq<seq<real>>)
    requires Rect(a, n) && Rect(vs, n) && IsRank(a, n, r) && AllInSpan(vs, a, n) && Independent(vs, n)
    ensures |vs| <= r
  {
    var b: seq<seq<real>> :| |b| == r && Rect(b, n) && Independent(b, n) && SameSpan(a, b, n);
    if |vs| > r {
      forall i | 0 <= i < |vs| ensures InSpan(vs[i], b, n) { SpanTransitive(vs[i], a, b, n); }
      var c := Steinitz(vs, b, n);
      assert false;
    }
  }

  lemma RankIsUnique(a: seq<seq<real>>, n: nat, r: nat, s: nat)
    requires Rect(a, n) && IsRank(a, n, r) && IsRank(a, n, s)
    ensures r == s
  {
    var b: seq<seq<real>> :| |b| == r && Rect(b, n) && Independent(b, n) && SameSpan(a, b, n);
    var c: seq<seq<real>> :| |c| == s && Rect(c, n) && Independent(c, n) && SameSpan(a, c, n);
    RankIsLargest(a, n, r, c);
    RankIsLargest(a, n, s, b);
  }

  /** The rows of `a` at the given positions. */
  function Select(a: seq<seq<real>>, sel: seq<nat>): (b: seq<seq<real>>)
    requires forall i :: 0 <= i < |sel| ==> sel[i] < |a|
    ensures |b| == |sel|
    ensures forall i :: 0 <= i < |sel| ==> b[i] == a[sel[i]]
  {
    seq(|sel|, i requires 0 <= i < |sel| => a[sel[i]])
  }

  predicate Positions(sel: seq<nat>, m: nat) {
    (forall i :: 0 <= i < |sel| ==> sel[i] < m) && (forall i, j :: 0 <= i < j < |sel| ==> sel[i] < sel[j])
  }

  /** A vector outside the span of an independent list extends it. */
  lemma ExtendIndependent(b: seq<seq<real>>, v: seq<real>, n: nat)
    requires Rect(b, n) && |v| == n && Independent(b, n) && !InSpan(v, b, n)
    ensures Rect(b + [v], n) && Independent(b + [v], n)
  {
    hide InSpan, Comb;
    var e := b + [v];
    forall c: seq<real> | |c| == |e| && IsZero(Comb(c, e, n)) ensures IsZero(c) {
      var k := |b|;
      var c' := c[..k];
      LastTerm(c, b, v, n);
      if c[k] != 0.0 {
        SolvedForLast(Comb(c', b, n), v, c[k]);
        CombInSpan(c', b, n);
        SpanClosed(Comb(c', b, n), Comb(c', b, n), b, n, -1.0 / c[k], 0.0);
        assert false;
      } else {
        forall j | 0 <= j < n ensures Comb(c', b, n)[j] == 0.0 {
          assert Comb(c, e, n)[j] == 1.0 * Comb(c', b, n)[j] + c[k] * v[j];
        }
        assert IsZero(c');
        assert forall l :: 0 <= l < k ==> c[l] == c'[l];
      }
    }
  }

  lemma LastTerm(c: seq<real>, b: seq<seq<real>>, v: seq<real>, n: nat)
    requires Rect(b, n) && |v| == n && |c| == |b| + 1
    ensures Comb(c, b + [v], n) == Combine(1.0, Comb(c[..|b|], b, n), c[|b|], v)
  {
    hide Combine;
    var e, k := b + [v], |b|;
    CombStep(c, e, n, k);
    forall j | 0 <= j < n ensures CombTo(c, e, n, k)[j] == Comb(c[..k], b, n)[j] {
      DotPrefix(c, Column(e, n, j), c[..k], Column(b, n, j), k);
    }
    assert CombTo(c, e, n, k) == Comb(c[..k], b, n);
  }

  lemma SolvedForLast(u: seq<real>, v: seq<real>, c: real)
    requires |u| == |v| && c != 0.0 && IsZero(Combine(1.0, u, c, v))
    ensures v == Combine(-1.0 / c, u, 0.0, u)
  {
    forall j | 0 <= j < |v| ensures v[j] == Combine(-1.0 / c, u, 0.0, u)[j] {
      assert Combine(1.0, u, c, v)[j] == 0.0;
      SolveForV(u[j], v[j], c);
    }
  }

  lemma SolveForV(u: real, v: real, c: real)
    requires c != 0.0 && 1.0 * u + c * v == 0.0
    ensures v == (-1.0 / c) * u
  {
    var s := -1.0 / c;
    assert s * c == -1.0;
    assert s * u == s * (-(c * v)) == -(s * c) * v;
  }

  /** Some rows of any matrix are independent and span all of it. */
  lemma {:induction false} RowBasis(a: seq<seq<real>>, n: nat, k: nat) returns (sel: seq<nat>)
    requires Rect(a, n) && k <= |a|
    ensures Positions(sel, k) && Rect(Select(a, sel), n) && Independent(Select(a, sel), n)
    ensures AllInSpan(a[..k], Select(a, sel), n)
  {
    hide InSpan;
    if k == 0 {
      sel := [];
    } else {
      sel := RowBasis(a, n, k - 1);
      var b := Select(a, sel);
      if InSpan(a[k - 1], b, n) {
        forall i | 0 <= i < k ensures InSpan(a[..k][i], b, n) {
          if i < k - 1 { assert a[..k][i] == a[..k - 1][i]; }
        }
      } else {
        ExtendIndependent(b, a[k - 1], n);
        sel := sel + [k - 1];
        var e := Select(a, sel);
        assert e == b + [a[k - 1]];
        SubsetInSpan(b, e, n);
        RowInSpan(e, n, |b|);
        forall i | 0 <= i < k ensures InSpan(a[..k][i], e, n) {
          if i < k - 1 {
            assert a[..k][i] == a[..k - 1][i];
            SpanTransitive(a[i], b, e, n);
          }
        }
      }
    }
  }

  /** The rank counts rows: some r rows are independent and span exactly the row space. */
  lemma RankIsOfRows(a: seq<seq<real>>, n: nat, r: nat) returns (sel: seq<nat>)
    requires Rect(a, n) && IsRank(a, n, r)
    ensures |sel| == r && Positions(sel, |a|) && Rect(Select(a, sel), n)
    ensures Independent(Select(a, sel), n) && SameSpan(a, Select(a, sel), n)
  {
    sel := RowBasis(a, n, |a|);
    var b := Select(a, sel);
    assert a[..|a|] == a;
    SubsetInSpan(b, a, n);
    assert IsRank(a, n, |sel|);
    RankIsUnique(a, n, r, |sel|);
  }
}
