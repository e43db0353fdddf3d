/** Numbers on a decimal grid: whole numbers, hundredths, thousandths, hundred-thousandths. */
module Grids {
  import opened Vectors

  predicate Whole(v: real) { v.Floor as real == v }

  /** v is a whole number of n-ths. */
  predicate Parts(v: real, n: real) { Whole(n * v) }

  predicate AllParts(s: seq<real>, n: real) {
    forall i :: 0 <= i < |s| ==> Parts(s[i], n)
  }

  lemma IntSum(i: int, j: int)
    ensures (i + j) as real == i as real + j as real && (i - j) as real == i as real - j as real
  {
  }

  lemma WholeSum(a: real, b: real)
    requires Whole(a) && Whole(b)
    ensures Whole(a + b) && Whole(a - b)
  {
    var i, j := a.Floor, b.Floor;
    WholeOf(i + j);
    WholeOf(i - j);
    IntSum(i, j);
  }

  lemma WholeProduct(a: real, b: real, product: real)
    requires Whole(a) && Whole(b) && product == a * b
    ensures Whole(product)
  {
    var i, j := a.Floor, b.Floor;
    assert a * b == (i * j) as real;
    WholeOf(i * j);
  }

  lemma WholeOf(n: int)
    ensures Whole(n as real)
  {
  }

  lemma PartsSum(a: real, b: real, n: real)
    requires Parts(a, n) && Parts(b, n)
    ensures Parts(a + b, n) && Parts(a - b, n) && Parts(-a, n)
  {
    WholeSum(n * a, n * b);
    WholeOf(0);
    WholeSum(0.0, n * a);
    DistributeAll(n, a, b);
  }

  lemma DistributeAll(n: real, a: real, b: real)
    ensures n * (a + b) == n * a + n * b && n * (a - b) == n * a - n * b && n * (-a) == 0.0 - n * a
  {
  }

  /** m-ths times n-ths are (m n)-ths. */
  lemma PartsProduct(a: real, m: real, b: real, n: real, mn: real)
    requires Parts(a, m) && Parts(b, n) && mn == m * n
    ensures Parts(Mul(a, b), mn)
  {
    Regroup(m, a, n, b, mn);
    WholeProduct(m * a, n * b, mn * Mul(a, b));
  }

  lemma Regroup(m: real, a: real, n: real, b: real, mn: real)
    requires mn == m * n
    ensures mn * Mul(a, b) == (m * a) * (n * b)
  {
  }

  /** Whole numbers are n-ths, and hundredths are hundred-thousandths. */
  lemma PartsFiner(a: real, m: real, f: real, n: real)
    requires Parts(a, m) && Whole(f) && n == m * f
    ensures Parts(a, n)
  {
    Refine(m, a, f, n);
    WholeProduct(m * a, f, n * a);
  }

  lemma Refine(m: real, a: real, f: real, n: real)
    requires n == m * f
    ensures n * a == (m * a) * f
  {
  }

  lemma {:induction false} PartsDot(a: seq<real>, m: real, b: seq<real>, n: real, mn: real, k: nat)
    requires k <= |a| == |b| && AllParts(a, m) && AllParts(b, n) && mn == m * n
    ensures Parts(DotTo(a, b, k), mn)
  {
    hide Mul, Parts;
    if k == 0 {
      PartsZero(mn);
    } else {
      PartsDot(a, m, b, n, mn, k - 1);
      PartsProduct(a[k - 1], m, b[k - 1], n, mn);
      PartsSum(DotTo(a, b, k - 1), Mul(a[k - 1], b[k - 1]), mn);
    }
  }

  lemma PartsZero(n: real)
    ensures Parts(0.0, n)
  {
    WholeOf(0);
  }

  lemma {:induction false} PartsSumTo(a: seq<real>, n: real, k: nat)
    requires k <= |a| && AllParts(a, n)
    ensures Parts(SumTo(a, k), n)
  {
    hide Parts;
    if k == 0 {
      PartsZero(n);
    } else {
      PartsSumTo(a, n, k - 1);
      PartsSum(SumTo(a, k - 1), a[k - 1], n);
    }
  }
}
