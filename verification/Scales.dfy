/** Tolerances relative to the largest of several sizes: a value is within one exactly when it is
    within it relative to one of them, so a test says what it says without naming the largest. */
module Scales {
  import opened Vectors
  import opened LpModel
  import opened Farkas

  /** v is at most the tolerance relative to a size. */
  predicate Tolerated(v: real, tol: real, size: real) { v <= tol * size }

  predicate SizeTolerates(size: real, tol: real, v: real) { v <= tol || Tolerated(v, tol, Abs(size)) }

  /** v is at most tol, or at most tol relative to some entry of y. */
  ghost predicate PricesTolerate(y: seq<real>, tol: real, v: real) {
    v <= tol || exists i :: 0 <= i < |y| && Tolerated(v, tol, Abs(y[i]))
  }

  lemma RatioAtMost(v: real, scale: real, tol: real)
    requires scale >= 1.0
    ensures v / scale <= tol <==> Tolerated(v, tol, scale)
  {
    var q := v / scale;
    assert q * scale == v;
    if q <= tol { MulLe(scale, q, tol); }
    if q > tol { MulLt(scale, tol, q); }
  }

  lemma UnitTolerates(v: real, tol: real)
    ensures Tolerated(v, tol, 1.0) <==> v <= tol
  {
  }

  lemma MaxTolerates(tol: real, a: real, b: real, v: real)
    requires tol >= 0.0
    ensures Tolerated(v, tol, Max(a, b)) <==> Tolerated(v, tol, a) || Tolerated(v, tol, b)
  {
    MulLe(tol, a, Max(a, b));
    MulLe(tol, b, Max(a, b));
  }

  lemma {:induction false} ColumnScaleTolerates(col: seq<Entry>, y: seq<real>, k: nat, from: real, tol: real, v: real)
    requires k <= |col| && ValidColumn(col, |y|) && tol >= 0.0
    ensures Tolerated(v, tol, ColumnScale(col, y, k, from)) <==>
      Tolerated(v, tol, from) || exists q :: 0 <= q < k && Tolerated(v, tol, Abs(Term(col[q], y)))
  {
    hide Tolerated, Abs, Term, Max;
    if k > 0 {
      ColumnScaleTolerates(col, y, k - 1, from, tol, v);
      MaxTolerates(tol, ColumnScale(col, y, k - 1, from), Abs(Term(col[k - 1], y)), v);
    }
  }

  lemma {:induction false} MagnitudeTolerates(y: seq<real>, k: nat, tol: real, v: real)
    requires k <= |y| && tol >= 0.0
    ensures Tolerated(v, tol, Max(1.0, MagnitudeTo(y, k))) <==>
      v <= tol || exists i :: 0 <= i < k && Tolerated(v, tol, Abs(y[i]))
  {
    hide Tolerated, Abs;
    UnitTolerates(v, tol);
    if k > 0 {
      MagnitudeTolerates(y, k - 1, tol, v);
      MaxTolerates(tol, Max(1.0, MagnitudeTo(y, k - 1)), Abs(y[k - 1]), v);
    }
  }

  lemma SizeRatio(size: real, tol: real, v: real)
    requires tol >= 0.0
    ensures v / Max(1.0, Abs(size)) <= tol <==> SizeTolerates(size, tol, v)
  {
    RatioAtMost(v, Max(1.0, Abs(size)), tol);
    MaxTolerates(tol, 1.0, Abs(size), v);
    UnitTolerates(v, tol);
  }
}
