/** Finite sums and dot products of real vectors. A vector is a `seq<real>`; sums are taken
    over a prefix length, so that an accumulating loop's invariant is the function itself. */
module Vectors {

  function Abs(v: real): real { if v < 0.0 then -v else v }

  function Max(a: real, b: real): real { if a >= b then a else b }

  function Min(a: real, b: real): real { if a <= b then a else b }

  /** A product kept as one term, so that equal products are equal without arithmetic. */
  function Mul(a: real, b: real): real { a * b }

  /** s[0] + ... + s[k-1] */
  function SumTo(s: seq<real>, k: nat): real
    requires k <= |s|
  {
    if k == 0 then 0.0 else SumTo(s, k - 1) + s[k - 1]
  }

  function Sum(s: seq<real>): real { SumTo(s, |s|) }

  /** a[0]*b[0] + ... + a[k-1]*b[k-1] */
  function DotTo(a: seq<real>, b: seq<real>, k: nat): real
    requires k <= |a| && k <= |b|
  {
    if k == 0 then 0.0 else DotTo(a, b, k - 1) + Mul(a[k - 1], b[k - 1])
  }

  function Dot(a: seq<real>, b: seq<real>): real
    requires |a| == |b|
  {
    DotTo(a, b, |a|)
  }

  /** The dot product as the source computes it, one product at a time. */
  method Evaluate(a: seq<real>, b: seq<real>) returns (sum: real)
    requires |a| == |b|
    ensures sum == Dot(a, b)
  {
    sum := 0.0;
    for j := 0 to |b|
      invariant sum == DotTo(a, b, j)
    {
      sum := sum + Mul(a[j], b[j]);
    }
  }

  /** The largest of the first k values, or 0 if none is positive. */
  function MaxTo(s: seq<real>, k: nat): real
    requires k <= |s|
  {
    if k == 0 then 0.0 else Max(MaxTo(s, k - 1), s[k - 1])
  }

  function Worst(s: seq<real>): real { MaxTo(s, |s|) }

  lemma {:induction false} MaxToBound(s: seq<real>, k: nat, bound: real)
    requires k <= |s| && bound >= 0.0
    ensures MaxTo(s, k) <= bound <==> forall i :: 0 <= i < k ==> s[i] <= bound
    ensures MaxTo(s, k) >= 0.0
  {
    if k > 0 { MaxToBound(s, k - 1, bound); }
  }

  /** The largest |v_i| among the first k. */
  function MagnitudeTo(d: seq<real>, k: nat): real
    requires k <= |d|
  {
    if k == 0 then 0.0 else Max(MagnitudeTo(d, k - 1), Abs(d[k - 1]))
  }

  function Magnitude(d: seq<real>): real { MagnitudeTo(d, |d|) }

  lemma {:induction false} MagnitudeBounds(d: seq<real>, k: nat)
    requires k <= |d|
    ensures MagnitudeTo(d, k) >= 0.0
    ensures forall i :: 0 <= i < k ==> Abs(d[i]) <= MagnitudeTo(d, k)
    ensures MagnitudeTo(d, k) == 0.0 || exists i :: 0 <= i < k && MagnitudeTo(d, k) == Abs(d[i])
  {
    if k > 0 { MagnitudeBounds(d, k - 1); }
  }

  lemma {:induction false} SumToLe(a: seq<real>, b: seq<real>, k: nat)
    requires k <= |a| && k <= |b|
    requires forall i :: 0 <= i < k ==> a[i] <= b[i]
    ensures SumTo(a, k) <= SumTo(b, k)
  {
    if k > 0 { SumToLe(a, b, k - 1); }
  }

  /** c = s*a + t*b elementwise implies the same of the sums. */
  lemma {:induction false} SumToLinear(a: seq<real>, b: seq<real>, c: seq<real>, s: real, t: real, k: nat)
    requires k <= |a| && k <= |b| && k <= |c|
    requires forall i :: 0 <= i < k ==> c[i] == s * a[i] + t * b[i]
    ensures SumTo(c, k) == s * SumTo(a, k) + t * SumTo(b, k)
  {
    if k > 0 {
      SumToLinear(a, b, c, s, t, k - 1);
      assert c[k - 1] == s * a[k - 1] + t * b[k - 1];
    }
  }

  /** p <= r + f*n elementwise implies the same of the sums. */
  lemma {:induction false} SumToBound(p: seq<real>, r: seq<real>, n: seq<real>, f: real, k: nat)
    requires k <= |p| && k <= |r| && k <= |n|
    requires forall i :: 0 <= i < k ==> p[i] <= r[i] + f * n[i]
    ensures SumTo(p, k) <= SumTo(r, k) + f * SumTo(n, k)
  {
    if k > 0 {
      SumToBound(p, r, n, f, k - 1);
      Distribute(f, SumTo(n, k - 1), n[k - 1]);
    }
  }

  lemma {:induction false} SumToNonneg(a: seq<real>, k: nat)
    requires k <= |a|
    requires forall i :: 0 <= i < k ==> a[i] >= 0.0
    ensures SumTo(a, k) >= 0.0
    ensures forall i :: 0 <= i < k ==> a[i] <= SumTo(a, k)
  {
    if k > 0 { SumToNonneg(a, k - 1); }
  }

  lemma {:induction false} SumToZero(a: seq<real>, k: nat)
    requires k <= |a|
    requires forall i :: 0 <= i < k ==> a[i] == 0.0
    ensures SumTo(a, k) == 0.0
  {
    if k > 0 { SumToZero(a, k - 1); }
  }

  /** Elementwise products, so that a dot product is a sum. */
  function Products(a: seq<real>, b: seq<real>): (r: seq<real>)
    requires |a| == |b|
    ensures |r| == |a|
    ensures forall i :: 0 <= i < |a| ==> r[i] == Mul(a[i], b[i])
  {
    seq(|a|, i requires 0 <= i < |a| => Mul(a[i], b[i]))
  }

  lemma {:induction false} DotIsSum(a: seq<real>, b: seq<real>, k: nat)
    requires |a| == |b| && k <= |a|
    ensures DotTo(a, b, k) == SumTo(Products(a, b), k)
  {
    if k > 0 { DotIsSum(a, b, k - 1); }
  }

  lemma {:induction false} DotToCommutes(a: seq<real>, b: seq<real>, k: nat)
    requires k <= |a| && k <= |b|
    ensures DotTo(a, b, k) == DotTo(b, a, k)
  {
    if k > 0 { DotToCommutes(a, b, k - 1); }
  }

  /** Adding t to one component adds a[i]*t to the dot product. */
  lemma {:induction false} DotToUpdate(a: seq<real>, v: seq<real>, i: nat, t: real, k: nat)
    requires |a| == |v| && i < |v| && k <= |a|
    ensures DotTo(a, v[i := v[i] + t], k) == DotTo(a, v, k) + (if i < k then a[i] * t else 0.0)
  {
    if k > 0 { DotToUpdate(a, v, i, t, k - 1); }
  }

  lemma {:induction false} DotToZero(a: seq<real>, v: seq<real>, k: nat)
    requires k <= |a| && k <= |v|
    requires forall i :: 0 <= i < k ==> v[i] == 0.0
    ensures DotTo(a, v, k) == 0.0
  {
    if k > 0 { DotToZero(a, v, k - 1); }
  }

  /** w = s*u + t*v elementwise implies the same of the dot products with a. */
  lemma {:induction false} DotToLinear(a: seq<real>, u: seq<real>, v: seq<real>, w: seq<real>, s: real, t: real, k: nat)
    requires k <= |a| && k <= |u| && k <= |v| && k <= |w|
    requires forall i :: 0 <= i < k ==> w[i] == s * u[i] + t * v[i]
    ensures DotTo(a, w, k) == s * DotTo(a, u, k) + t * DotTo(a, v, k)
  {
    if k > 0 {
      DotToLinear(a, u, v, w, s, t, k - 1);
      assert w[k - 1] == s * u[k - 1] + t * v[k - 1];
    }
  }

  /** s*u + t*v */
  function Combine(s: real, u: seq<real>, t: real, v: seq<real>): (w: seq<real>)
    requires |u| == |v|
    ensures |w| == |u|
    ensures forall i :: 0 <= i < |u| ==> w[i] == s * u[i] + t * v[i]
  {
    seq(|u|, i requires 0 <= i < |u| => s * u[i] + t * v[i])
  }

  lemma DotCombine(a: seq<real>, s: real, u: seq<real>, t: real, v: seq<real>)
    requires |a| == |u| == |v|
    ensures Dot(a, Combine(s, u, t, v)) == s * Dot(a, u) + t * Dot(a, v)
  {
    DotToLinear(a, u, v, Combine(s, u, t, v), s, t, |a|);
  }

  function Zeros(n: nat): (r: seq<real>)
    ensures |r| == n
    ensures forall i :: 0 <= i < n ==> r[i] == 0.0
  {
    seq(n, i => 0.0)
  }

  function Negated(v: seq<real>): (r: seq<real>)
    ensures |r| == |v| && forall i :: 0 <= i < |v| ==> r[i] == -v[i]
  {
    seq(|v|, i requires 0 <= i < |v| => -v[i])
  }

  lemma AtLeastOne(a: real)
    ensures Max(1.0, a) >= 1.0
  {
  }

  /** One at i and zeros elsewhere. */
  function Unit(i: nat, k: nat): (e: seq<real>)
    requires i < k
    ensures |e| == k && forall j :: 0 <= j < k ==> e[j] == if j == i then 1.0 else 0.0
  {
    Zeros(k)[i := 1.0]
  }

  lemma MulZero(t: real)
    ensures Mul(0.0, t) == 0.0
  {
  }

  lemma NegatedProduct(a: real, b: real)
    ensures Mul(-a, b) == -Mul(a, b) == -(a * b)
  {
  }

  lemma Distribute(f: real, a: real, b: real)
    ensures f * (a + b) == f * a + f * b
  {
  }

  lemma SquareNonneg(a: real)
    ensures a * a >= 0.0
  {
  }

  lemma MulLe(f: real, a: real, b: real)
    requires f >= 0.0 && a <= b
    ensures f * a <= f * b
  {
  }

  lemma MulLt(f: real, a: real, b: real)
    requires f > 0.0
    ensures a < b <==> f * a < f * b
  {
    if a <= b { MulLe(f, a, b); } else { MulLe(f, b, a); }
    assert f * (b - a) == f * b - f * a;
    if a < b { assert f * (b - a) > 0.0; }
  }

  lemma MulGe(f: real, a: real, b: real)
    requires f <= 0.0 && a <= b
    ensures f * a >= f * b
  {
  }
}
