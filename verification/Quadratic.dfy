/** The quadratic objective x'Qx/2, with Q stored as its lower triangle: an off-diagonal entry
    stands for two entries of Q. */
module Quadratic {
  import opened Vectors
  import opened LpModel

  /** One stored entry's part of x'Qy. */
  function FormEntry(e: HessianEntry, x: seq<real>, y: seq<real>): real
    requires e.col <= e.row < |x| && |x| == |y|
  {
    if e.row == e.col then e.val * (x[e.row] * y[e.col])
    else e.val * (x[e.row] * y[e.col] + x[e.col] * y[e.row])
  }

  predicate ValidHessian(h: seq<HessianEntry>, n: nat) {
    forall k :: 0 <= k < |h| ==> h[k].col <= h[k].row < n
  }

  function FormTo(h: seq<HessianEntry>, x: seq<real>, y: seq<real>, k: nat): real
    requires k <= |h| && |x| == |y| && ValidHessian(h, |x|)
  {
    if k == 0 then 0.0 else FormTo(h, x, y, k - 1) + FormEntry(h[k - 1], x, y)
  }

  /** x'Qy */
  function Form(m: Model, x: seq<real>, y: seq<real>): real
    requires m.Valid() && |x| == |y| == |m.cols|
  {
    FormTo(m.hessian, x, y, |m.hessian|)
  }

  function AddAt(out: seq<real>, i: nat, t: real): (r: seq<real>)
    requires i < |out|
    ensures |r| == |out|
  {
    out[i := out[i] + t]
  }

  lemma DotAddAt(y: seq<real>, out: seq<real>, i: nat, t: real)
    requires i < |out| == |y|
    ensures Dot(y, AddAt(out, i, t)) == Dot(y, out) + y[i] * t
  {
    DotToUpdate(y, out, i, t, |y|);
  }

  /** Q x accumulated so far, plus one stored entry's contributions: one on the diagonal, two off it. */
  function AddHessianEntry(out: seq<real>, e: HessianEntry, x: seq<real>): (r: seq<real>)
    requires e.col <= e.row < |x| && |out| == |x|
    ensures |r| == |out|
  {
    var first := AddAt(out, e.row, Mul(e.val, x[e.col]));
    if e.row == e.col then first else AddAt(first, e.col, Mul(e.val, x[e.row]))
  }

  function HessianTimesTo(h: seq<HessianEntry>, x: seq<real>, k: nat): (r: seq<real>)
    requires k <= |h| && ValidHessian(h, |x|)
    ensures |r| == |x|
  {
    if k == 0 then Zeros(|x|) else AddHessianEntry(HessianTimesTo(h, x, k - 1), h[k - 1], x)
  }

  /** Q x */
  function HessianTimes(m: Model, x: seq<real>): (r: seq<real>)
    requires m.Valid() && |x| == |m.cols|
    ensures |r| == |x|
  {
    HessianTimesTo(m.hessian, x, |m.hessian|)
  }

  lemma DotAddHessianEntry(y: seq<real>, out: seq<real>, e: HessianEntry, x: seq<real>)
    requires e.col <= e.row < |x| && |out| == |x| == |y|
    ensures Dot(y, AddHessianEntry(out, e, x)) == Dot(y, out) + FormEntry(e, y, x)
  {
    var first := AddAt(out, e.row, Mul(e.val, x[e.col]));
    DotAddAt(y, out, e.row, Mul(e.val, x[e.col]));
    Swap3(y[e.row], e.val, x[e.col]);
    if e.row != e.col {
      DotAddAt(y, first, e.col, Mul(e.val, x[e.row]));
      Swap3(y[e.col], e.val, x[e.row]);
      Distribute(e.val, y[e.row] * x[e.col], y[e.col] * x[e.row]);
    }
  }

  lemma Swap3(a: real, v: real, b: real)
    ensures a * (v * b) == v * (a * b)
  {
  }

  lemma {:induction false} DotHessianTimesTo(h: seq<HessianEntry>, y: seq<real>, x: seq<real>, k: nat)
    requires k <= |h| && |x| == |y| && ValidHessian(h, |x|)
    ensures Dot(y, HessianTimesTo(h, x, k)) == FormTo(h, y, x, k)
  {
    if k == 0 {
      DotToZero(y, Zeros(|x|), |y|);
    } else {
      DotHessianTimesTo(h, y, x, k - 1);
      DotAddHessianEntry(y, HessianTimesTo(h, x, k - 1), h[k - 1], x);
    }
  }

  /** The accumulated Q x is the gradient of the form: y.(Q x) = y'Qx. */
  lemma DotHessianTimes(m: Model, y: seq<real>, x: seq<real>)
    requires m.Valid() && |x| == |y| == |m.cols|
    ensures Dot(y, HessianTimes(m, x)) == Form(m, y, x)
  {
    DotHessianTimesTo(m.hessian, y, x, |m.hessian|);
  }

  lemma {:induction false} FormToSymmetric(h: seq<HessianEntry>, x: seq<real>, y: seq<real>, k: nat)
    requires k <= |h| && |x| == |y| && ValidHessian(h, |x|)
    ensures FormTo(h, x, y, k) == FormTo(h, y, x, k)
  {
    if k > 0 {
      FormToSymmetric(h, x, y, k - 1);
      var e := h[k - 1];
      assert x[e.row] * y[e.col] == y[e.col] * x[e.row];
      assert x[e.col] * y[e.row] == y[e.row] * x[e.col];
    }
  }

  lemma FormEntryLinear(e: HessianEntry, x: seq<real>, u: seq<real>, v: seq<real>, w: seq<real>, s: real, t: real)
    requires e.col <= e.row < |x| && |x| == |u| == |v| == |w|
    requires forall i :: 0 <= i < |u| ==> w[i] == s * u[i] + t * v[i]
    ensures FormEntry(e, x, w) == s * FormEntry(e, x, u) + t * FormEntry(e, x, v)
  {
    var xr, xc := x[e.row], x[e.col];
    ProductLinear(e.val, xr, u[e.col], v[e.col], w[e.col], s, t);
    ProductLinear(e.val, xc, u[e.row], v[e.row], w[e.row], s, t);
    Distribute(e.val, xr * u[e.col], xc * u[e.row]);
    Distribute(e.val, xr * v[e.col], xc * v[e.row]);
    Distribute(e.val, xr * w[e.col], xc * w[e.row]);
    Distribute(s, e.val * (xr * u[e.col]), e.val * (xc * u[e.row]));
    Distribute(t, e.val * (xr * v[e.col]), e.val * (xc * v[e.row]));
  }

  lemma ProductLinear(f: real, x: real, u: real, v: real, w: real, s: real, t: real)
    requires w == s * u + t * v
    ensures f * (x * w) == s * (f * (x * u)) + t * (f * (x * v))
  {
  }

  lemma AddLinear(s: real, a: real, b: real, t: real, c: real, d: real, ac: real, bd: real)
    requires (ac == s * a + t * c && bd == s * b + t * d) || (ac == bd == a == b == c == d == 0.0)
    ensures ac + bd == s * (a + b) + t * (c + d)
  {
  }

  lemma {:induction false} FormToLinear(h: seq<HessianEntry>, x: seq<real>, u: seq<real>, v: seq<real>, w: seq<real>,
                                        s: real, t: real, k: nat)
    requires k <= |h| && |x| == |u| == |v| == |w| && ValidHessian(h, |x|)
    requires forall i :: 0 <= i < |u| ==> w[i] == s * u[i] + t * v[i]
    ensures FormTo(h, x, w, k) == s * FormTo(h, x, u, k) + t * FormTo(h, x, v, k)
  {
    hide FormEntry;
    if k > 0 {
      FormToLinear(h, x, u, v, w, s, t, k - 1);
      FormEntryLinear(h[k - 1], x, u, v, w, s, t);
      AddLinear(s, FormTo(h, x, u, k - 1), FormEntry(h[k - 1], x, u), t, FormTo(h, x, v, k - 1),
          FormEntry(h[k - 1], x, v),
                FormTo(h, x, w, k - 1), FormEntry(h[k - 1], x, w));
    } else {
      AddLinear(s, 0.0, 0.0, t, 0.0, 0.0, 0.0, 0.0);
    }
  }

  lemma ExpandSquare(ww: real, wu: real, wv: real, uu: real, uv: real, vv: real, t: real)
    requires ww == 1.0 * wu + t * wv && wu == 1.0 * uu + t * uv && wv == 1.0 * uv + t * vv
    ensures ww == uu + 2.0 * t * uv + t * t * vv
  {
    assert t * wv == t * uv + t * (t * vv);
  }

  /** The entry of Q in row r and column c: what is stored for the pair in either order. */
  function StoredTo(h: seq<HessianEntry>, r: nat, c: nat, k: nat): real
    requires k <= |h|
  {
    if k == 0 then 0.0
    else
      var e := h[k - 1];
      StoredTo(h, r, c, k - 1) + if (e.row == r && e.col == c) || (e.row == c && e.col == r) then e.val else 0.0
  }

  lemma {:induction false} FormToAtUnits(h: seq<HessianEntry>, r: nat, c: nat, n: nat, k: nat)
    requires k <= |h| && ValidHessian(h, n) && r < n && c < n
    ensures FormTo(h, Unit(r, n), Unit(c, n), k) == StoredTo(h, r, c, k)
  {
    if k > 0 {
      FormToAtUnits(h, r, c, n, k - 1);
      EntryAtUnits(h[k - 1], r, c, n);
    }
  }

  lemma EntryAtUnits(e: HessianEntry, r: nat, c: nat, n: nat)
    requires e.col <= e.row < n && r < n && c < n
    ensures FormEntry(e, Unit(r, n), Unit(c, n))
            == if (e.row == r && e.col == c) || (e.row == c && e.col == r) then e.val else 0.0
  {
    var u, v := Unit(r, n), Unit(c, n);
    assert u[e.row] == (if e.row == r then 1.0 else 0.0) && u[e.col] == (if e.col == r then 1.0 else 0.0);
    assert v[e.row] == (if e.row == c then 1.0 else 0.0) && v[e.col] == (if e.col == c then 1.0 else 0.0);
    hide Unit;
  }

  /** Between two coordinates the form is the entry of Q, an off-diagonal one standing on both sides. */
  lemma FormAtUnits(m: Model, r: nat, c: nat)
    requires m.Valid() && r < |m.cols| && c < |m.cols|
    ensures Form(m, Unit(r, |m.cols|), Unit(c, |m.cols|)) == StoredTo(m.hessian, r, c, |m.hessian|)
  {
    FormToAtUnits(m.hessian, r, c, |m.cols|, |m.hessian|);
  }

  lemma FormSymmetric(m: Model, x: seq<real>, y: seq<real>)
    requires m.Valid() && |x| == |y| == |m.cols|
    ensures Form(m, x, y) == Form(m, y, x)
  {
    FormToSymmetric(m.hessian, x, y, |m.hessian|);
  }

  lemma FormCombine(m: Model, x: seq<real>, s: real, u: seq<real>, t: real, v: seq<real>)
    requires m.Valid() && |x| == |u| == |v| == |m.cols|
    ensures Form(m, x, Combine(s, u, t, v)) == s * Form(m, x, u) + t * Form(m, x, v)
  {
    hide FormTo;
    FormToLinear(m.hessian, x, u, v, Combine(s, u, t, v), s, t, |m.hessian|);
  }

  /** The form of a combination with itself, expanded. */
  lemma FormExpand(m: Model, u: seq<real>, t: real, v: seq<real>)
    requires m.Valid() && |u| == |v| == |m.cols|
    ensures var w := Combine(1.0, u, t, v);
      Form(m, w, w) == Form(m, u, u) + 2.0 * t * Form(m, u, v) + t * t * Form(m, v, v)
  {
    hide Form;
    var w := Combine(1.0, u, t, v);
    FormCombine(m, w, 1.0, u, t, v);
    FormSymmetric(m, w, u);
    FormSymmetric(m, w, v);
    FormCombine(m, u, 1.0, u, t, v);
    FormCombine(m, v, 1.0, u, t, v);
    FormSymmetric(m, u, v);
    ExpandSquare(Form(m, w, w), Form(m, w, u), Form(m, w, v), Form(m, u, u), Form(m, u, v), Form(m, v, v), t);
  }

  /** sense * Q is positive semidefinite: the model is convex in minimise space. */
  ghost predicate ConvexInMinimiseSpace(m: Model)
    requires m.Valid()
  {
    forall v :: |v| == |m.cols| ==> m.Sense() * Form(m, v, v) >= 0.0
  }

  /** In a positive semidefinite form a direction of zero curvature is orthogonal to everything:
      d'Qd = 0 implies v'Qd = 0 for every v, that is Q d = 0. */
  lemma ZeroCurvatureMeansNull(m: Model, d: seq<real>, v: seq<real>)
    requires m.Valid() && |d| == |v| == |m.cols|
    requires ConvexInMinimiseSpace(m) && Form(m, d, d) == 0.0
    ensures Form(m, v, d) == 0.0
  {
    hide Form;
    var vv, vd := Form(m, v, v), Form(m, v, d);
    assert m.Sense() * vv >= 0.0;
    if vd != 0.0 {
      var s := Descent(m.Sense(), vv, vd);
      var w := Combine(1.0, d, s, v);
      FormExpand(m, d, s, v);
      FormSymmetric(m, d, v);
      assert m.Sense() * Form(m, w, w) >= 0.0;
      StepGoesBelowZero(m.Sense(), vv, vd, Form(m, w, w));
    }
  }

  /** How far to step along v to go below zero. */
  function Descent(sense: real, vv: real, vd: real): real
    requires sense == 1.0 || sense == -1.0
  {
    if vv == 0.0 then -(sense * vd) else -(vd / vv)
  }

  lemma StepGoesBelowZero(sense: real, vv: real, vd: real, ww: real)
    requires (sense == 1.0 || sense == -1.0) && sense * vv >= 0.0 && vd != 0.0
    requires var s := Descent(sense, vv, vd); ww == 2.0 * s * vd + s * s * vv
    ensures sense * ww < 0.0
  {
    var s := Descent(sense, vv, vd);
    SquarePositive(vd);
    if vv == 0.0 {
      assert s * s * vv == 0.0;
      assert s * vd == -(sense * (vd * vd)) by { FactorOut(sense, vd); }
    } else {
      var r := vd / vv;
      assert r * vv == vd;
      RatioExpansion(r, vv, vd);
      assert ww == -(r * vd);
      CurvatureSign(sense, r, vv, vd);
    }
  }

  lemma FactorOut(sense: real, b: real)
    ensures (-(sense * b)) * b == -(sense * (b * b))
  {
  }

  lemma SquarePositive(b: real)
    requires b != 0.0
    ensures b * b > 0.0
  {
  }

  lemma RatioExpansion(r: real, vv: real, vd: real)
    requires r * vv == vd
    ensures 2.0 * (-r) * vd + (-r) * (-r) * vv == -(r * vd)
  {
    assert (-r) * (-r) * vv == r * (r * vv);
  }

  lemma CurvatureSign(sense: real, r: real, vv: real, vd: real)
    requires (sense == 1.0 || sense == -1.0) && sense * vv >= 0.0 && vd != 0.0 && r * vv == vd
    ensures sense * (r * vd) > 0.0
  {
    assert r != 0.0 && vv != 0.0;
    SquarePositive(r);
    assert r * vd == (r * r) * vv;
    if sense == 1.0 { ProductPositive(r * r, vv); } else { ProductPositive(r * r, -vv); }
  }

  lemma ProductPositive(a: real, b: real)
    requires a > 0.0 && b > 0.0
    ensures a * b > 0.0
  {
  }

  // ---- Objectives ---------------------------------------------------------------------

  function QuadraticObjective(m: Model, x: seq<real>): real
    requires m.Valid() && |x| == |m.cols|
  {
    0.5 * Form(m, x, x)
  }

  /** offset + c.x + x'Qx/2 in the model's own sense. */
  function Objective(m: Model, x: seq<real>): real
    requires m.Valid() && |x| == |m.cols|
  {
    m.offset + Dot(m.colCost, x) + QuadraticObjective(m, x)
  }

  /** The objective to be minimised, whatever the model's sense. */
  function MinimiseObjective(m: Model, x: seq<real>): real
    requires m.Valid() && |x| == |m.cols|
  {
    m.Sense() * Objective(m, x)
  }

  /** x is feasible and no feasible point is better in the model's sense. */
  ghost predicate IsOptimal(m: Model, x: seq<real>)
    requires m.Valid()
  {
    Feasible(m, x) && forall z :: Feasible(m, z) ==> MinimiseObjective(m, x) <= MinimiseObjective(m, z)
  }

  /** With no Hessian the gradient has no quadratic part and the objective is linear. */
  lemma LinearObjective(m: Model, x: seq<real>)
    requires m.Valid() && |x| == |m.cols| && m.hessian == []
    ensures HessianTimes(m, x) == Zeros(|x|)
    ensures Objective(m, x) == m.offset + Dot(m.colCost, x)
  {
  }

  /** The objective along a direction. */
  lemma ObjectiveAlong(m: Model, x: seq<real>, t: real, d: seq<real>)
    requires m.Valid() && |x| == |d| == |m.cols|
    ensures Objective(m, Combine(1.0, x, t, d))
            == Objective(m, x) + t * (Dot(m.colCost, d) + Form(m, x, d)) + 0.5 * (t * t * Form(m, d, d))
  {
    DotCombine(m.colCost, 1.0, x, t, d);
    FormExpand(m, x, t, d);
    Distribute(t, Dot(m.colCost, d), Form(m, x, d));
  }
}
