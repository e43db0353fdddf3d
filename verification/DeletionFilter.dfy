/** The deletion filter: an irreducible infeasible subsystem by freeing one candidate at a
    time in a working sub-model and re-solving. The solver is a parameter, of which only the
    truth of its verdicts is assumed. */
module DeletionFilter {
  import opened Vectors
  import opened LpModel
  import opened Farkas
  import opened Elements
  import opened Solutions

  // ---- The solver as an oracle --------------------------------------------------------

  datatype Trial = Trial(status: Status, farkasDual: seq<real>, colValue: seq<real>)

  /** The k-th call of the solver; a repeated model may end differently, as under a time limit. */
  type Solver = (nat, Model) -> Trial

  /** An infeasible verdict is true, a certificate it carries has been checked, and an optimal
      or feasible verdict carries a point of the model. Every other verdict promises nothing. */
  ghost predicate Truthful(sub: Model, t: Trial)
    requires sub.Valid()
  {
    && (t.status.Infeasible? ==> LpModel.Infeasible(sub) && (t.farkasDual != [] ==> Proves(sub, t.farkasDual)))
    && (t.status in {Optimal, Status.Feasible} ==> LpModel.Feasible(sub, t.colValue))
  }

  ghost predicate TruthfulSolver(solve: Solver) {
    forall k: nat, sub: Model :: sub.Valid() ==> Truthful(sub, solve(k, sub))
  }

  predicate IsConclusive(status: Status) { status in {Status.Infeasible, Optimal, Status.Feasible} }

  // ---- Candidates: the certificate's support ------------------------------------------

  predicate IsCandidate(m: Model, y: seq<real>, e: Element)
    requires m.Valid() && |y| == m.numRows
  {
    Exists(m, e) &&
    var d, threshold := TransposeTimes(m, y), ZeroLevel(m, y, ZERO_DROP);
    match e
    case Row(i) => y[i] != 0.0
    case ColLower(j) => d[j] < -threshold && IsFiniteBound(m.colLower[j])
    case ColUpper(j) => d[j] > threshold && IsFiniteBound(m.colUpper[j])
  }

  ghost function Candidates(m: Model, y: seq<real>): (s: set<Element>)
    requires m.Valid() && |y| == m.numRows
    ensures forall e :: e in s <==> IsCandidate(m, y, e)
  {
    var rows := set i | 0 <= i < m.numRows :: Row(i);
    var lowers := set j | 0 <= j < |m.cols| :: ColLower(j);
    var uppers := set j | 0 <= j < |m.cols| :: ColUpper(j);
    set e | e in rows + lowers + uppers && IsCandidate(m, y, e)
  }

  /** The solver reaches a verdict on every sub-model that a run on this certificate can ask
      about, and an irreducible one comes with a certificate. */
  ghost predicate Decides(solve: Solver, m: Model, y: seq<real>)
    requires m.Valid() && |y| == m.numRows
  {
    forall k: nat, s: set<Element> | s <= Candidates(m, y) :: DecidesOn(solve(k, Relaxed(m, s)), m, s)
  }

  ghost predicate DecidesOn(t: Trial, m: Model, s: set<Element>)
    requires m.Valid()
  {
    IsConclusive(t.status) && (t.status.Infeasible? && IsIis(m, s) ==> |t.farkasDual| == m.numRows)
  }

  /** The membership flags of the working set, one list per kind of element. */
  datatype Flags = Flags(rows: seq<bool>, lowers: seq<bool>, uppers: seq<bool>)

  ghost predicate Tracks(m: Model, f: Flags, s: set<Element>)
    requires m.Valid()
  {
    && |f.rows| == m.numRows && |f.lowers| == |f.uppers| == |m.cols|
    && (forall e :: e in s ==> Exists(m, e))
    && (forall i :: 0 <= i < m.numRows ==> (f.rows[i] <==> Row(i) in s))
    && (forall j :: 0 <= j < |m.cols| ==> (f.lowers[j] <==> ColLower(j) in s))
    && (forall j :: 0 <= j < |m.cols| ==> (f.uppers[j] <==> ColUpper(j) in s))
  }

  method SelectCandidates(m: Model, y: seq<real>) returns (f: Flags)
    requires m.Valid() && |y| == m.numRows
    ensures Tracks(m, f, Candidates(m, y))
  {
    var d, scale := AggregateColumns(m, y);
    var threshold := ZERO_DROP * Max(1.0, scale);
    var rows := seq(m.numRows, _ => false);
    for i := 0 to m.numRows
      invariant |rows| == m.numRows
      invariant forall k :: 0 <= k < i ==> rows[k] == (y[k] != 0.0)
      invariant forall k :: i <= k < m.numRows ==> !rows[k]
    {
      if y[i] != 0.0 { rows := rows[i := true]; }
    }
    var lowers, uppers := seq(|m.cols|, _ => false), seq(|m.cols|, _ => false);
    for j := 0 to |m.cols|
      invariant |lowers| == |uppers| == |m.cols|
      invariant forall k :: 0 <= k < j ==> lowers[k] == (d[k] < -threshold && IsFiniteBound(m.colLower[k]))
      invariant forall k :: 0 <= k < j ==> uppers[k] == (d[k] > threshold && IsFiniteBound(m.colUpper[k]))
      invariant forall k :: j <= k < |m.cols| ==> !lowers[k] && !uppers[k]
    {
      if d[j] < -threshold && IsFiniteBound(m.colLower[j]) { lowers := lowers[j := true]; }
      if d[j] > threshold && IsFiniteBound(m.colUpper[j]) { uppers := uppers[j := true]; }
    }
    f := Flags(rows, lowers, uppers);
  }

  /** The sub-model in which only the candidates are active. */
  method Restrict(m: Model, f: Flags, ghost s: set<Element>) returns (sub: Model)
    requires m.Valid() && Tracks(m, f, s)
    ensures sub == Relaxed(m, s)
  {
    sub := m;
    for i := 0 to m.numRows
      invariant sub == m.(rowLower := sub.rowLower, rowUpper := sub.rowUpper)
      invariant |sub.rowLower| == |sub.rowUpper| == m.numRows
      invariant forall k :: 0 <= k < i ==> sub.rowLower[k] == if Row(k) in s then m.rowLower[k] else NegInf
      invariant forall k :: 0 <= k < i ==> sub.rowUpper[k] == if Row(k) in s then m.rowUpper[k] else PosInf
      invariant forall k :: i <= k < m.numRows ==> sub.rowLower[k] == m.rowLower[k] && sub.rowUpper[k] == m.rowUpper[k]
    {
      if !f.rows[i] {
        sub := sub.(rowLower := sub.rowLower[i := NegInf], rowUpper := sub.rowUpper[i := PosInf]);
      }
    }
    ghost var withRows := sub;
    for j := 0 to |m.cols|
      invariant sub == withRows.(colLower := sub.colLower, colUpper := sub.colUpper)
      invariant |sub.colLower| == |sub.colUpper| == |m.cols|
      invariant forall k :: 0 <= k < j ==> sub.colLower[k] == if ColLower(k) in s then m.colLower[k] else NegInf
      invariant forall k :: 0 <= k < j ==> sub.colUpper[k] == if ColUpper(k) in s then m.colUpper[k] else PosInf
      invariant forall k :: j <= k < |m.cols| ==> sub.colLower[k] == m.colLower[k] && sub.colUpper[k] == m.colUpper[k]
    {
      if !f.lowers[j] { sub := sub.(colLower := sub.colLower[j := NegInf]); }
      if !f.uppers[j] { sub := sub.(colUpper := sub.colUpper[j := PosInf]); }
    }
    sub := sub.(colCost := Zeros(|m.cols|), offset := 0.0);
  }

  // ---- One trial ----------------------------------------------------------------------

  ghost predicate NoCommonPoint(m: Model, s: set<Element>)
    requires m.Valid()
  {
    forall x :: !SatisfiesAll(m, s, x)
  }

  /** A point that satisfies the working set without `e`. It stays one as the set shrinks. */
  ghost predicate Evidence(m: Model, s: set<Element>, e: Element, w: seq<real>)
    requires m.Valid()
  {
    SatisfiesAll(m, s - {e}, w)
  }

  lemma TrialVerdict(m: Model, s: set<Element>, t: Trial)
    requires m.Valid() && Truthful(Relaxed(m, s), t)
    ensures t.status.Infeasible? ==> NoCommonPoint(m, s)
    ensures t.status in {Optimal, Status.Feasible} ==> SatisfiesAll(m, s, t.colValue)
  {
    forall x ensures LpModel.Feasible(Relaxed(m, s), x) <==> SatisfiesAll(m, s, x) {
      RelaxedMeansSatisfies(m, s, x);
    }
  }

  lemma VerdictReached(m: Model, y: seq<real>, solve: Solver, k: nat, s: set<Element>)
    requires m.Valid() && |y| == m.numRows && s <= Candidates(m, y) && Decides(solve, m, y)
    ensures IsConclusive(solve(k, Relaxed(m, s)).status)
  {
    assert DecidesOn(solve(k, Relaxed(m, s)), m, s);
  }

  /** Freeing one more element of the working set in place. */
  lemma FreedRow(m: Model, s: set<Element>, i: nat)
    requires m.Valid() && i < m.numRows
    ensures var r := Relaxed(m, s);
      r.(rowLower := r.rowLower[i := NegInf], rowUpper := r.rowUpper[i := PosInf]) == Relaxed(m, s - {Row(i)})
  {
    assert Relaxed(m, s - {Row(i)}).rowLower == Relaxed(m, s).rowLower[i := NegInf];
    assert Relaxed(m, s - {Row(i)}).rowUpper == Relaxed(m, s).rowUpper[i := PosInf];
  }

  lemma FreedLower(m: Model, s: set<Element>, j: nat)
    requires m.Valid() && j < |m.cols|
    ensures var r := Relaxed(m, s); r.(colLower := r.colLower[j := NegInf]) == Relaxed(m, s - {ColLower(j)})
  {
    assert Relaxed(m, s - {ColLower(j)}).colLower == Relaxed(m, s).colLower[j := NegInf];
  }

  lemma FreedUpper(m: Model, s: set<Element>, j: nat)
    requires m.Valid() && j < |m.cols|
    ensures var r := Relaxed(m, s); r.(colUpper := r.colUpper[j := PosInf]) == Relaxed(m, s - {ColUpper(j)})
  {
    assert Relaxed(m, s - {ColUpper(j)}).colUpper == Relaxed(m, s).colUpper[j := PosInf];
  }

  // ---- The filter over elements --------------------------------------------------------

  /** How far a run has come: the working set, the solves made, whether one ended undecided. */
  datatype Run = Run(s: set<Element>, calls: nat, inconclusive: bool)

  /** The solve that asks whether `e` can be spared. */
  ghost function TrialOf(m: Model, solve: Solver, r: Run, e: Element): Trial
    requires m.Valid()
  {
    solve(r.calls, Relaxed(m, r.s - {e}))
  }

  /** One element: dropped on an infeasible verdict, kept on any other. */
  ghost function Step(m: Model, solve: Solver, r: Run, e: Element): Run
    requires m.Valid()
  {
    if e !in r.s then r
    else
      var t := TrialOf(m, solve, r, e);
      Run(if t.status.Infeasible? then r.s - {e} else r.s, r.calls + 1, r.inconclusive || !IsConclusive(t.status))
  }

  /** The elements of `order`, one after the other. */
  ghost function Sweep(m: Model, solve: Solver, r: Run, order: seq<Element>): Run
    requires m.Valid()
  {
    if order == [] then r
    else Step(m, solve, Sweep(m, solve, r, order[..|order| - 1]), order[|order| - 1])
  }

  lemma SweepStarts(m: Model, solve: Solver, r: Run, order: seq<Element>)
    requires m.Valid()
    ensures Sweep(m, solve, r, order[..0]) == r
  {
  }

  lemma SweepNext(m: Model, solve: Solver, r: Run, order: seq<Element>, k: nat)
    requires m.Valid() && k < |order|
    ensures var before := Sweep(m, solve, r, order[..k]);
      Sweep(m, solve, r, order[..k + 1]) == if order[k] in before.s then Step(m, solve, before, order[k]) else before
  {
    assert order[..k + 1][..k] == order[..k];
  }

  lemma {:induction false} SweepConcat(m: Model, solve: Solver, r: Run, a: seq<Element>, b: seq<Element>)
    requires m.Valid()
    ensures Sweep(m, solve, r, a + b) == Sweep(m, solve, Sweep(m, solve, r, a), b)
    decreases |b|
  {
    hide Step;
    if b == [] {
      assert a + b == a;
    } else {
      var c := b[..|b| - 1];
      assert (a + b)[..|a + b| - 1] == a + c;
      SweepConcat(m, solve, r, a, c);
    }
  }

  function Rows(m: Model): seq<Element> { seq(m.numRows, i requires 0 <= i < m.numRows => Row(i)) }

  function Lowers(m: Model): seq<Element> { seq(|m.cols|, j requires 0 <= j < |m.cols| => ColLower(j)) }

  function Uppers(m: Model): seq<Element> { seq(|m.cols|, j requires 0 <= j < |m.cols| => ColUpper(j)) }

  /** The order of the trials: rows, then lower bounds, then upper bounds. */
  function Order(m: Model): seq<Element> { Rows(m) + Lowers(m) + Uppers(m) }

  /** Every element of the model has its turn, once. */
  lemma OrderHasAllOnce(m: Model)
    ensures forall e :: Exists(m, e) <==> e in Order(m)
    ensures forall p, q :: 0 <= p < q < |Order(m)| ==> Order(m)[p] != Order(m)[q]
  {
    forall e | Exists(m, e) ensures e in Order(m) {
      match e
      case Row(i) => assert Rows(m)[i] == e;
      case ColLower(j) => assert Lowers(m)[j] == e;
      case ColUpper(j) => assert Uppers(m)[j] == e;
    }
  }

  // ---- What a sweep does to each element -----------------------------------------------

  lemma {:induction false} SweepShrinks(m: Model, solve: Solver, r: Run, order: seq<Element>, p: nat)
    requires m.Valid() && p <= |order|
    ensures Sweep(m, solve, r, order).s <= Sweep(m, solve, r, order[..p]).s <= r.s
    ensures r.inconclusive ==> Sweep(m, solve, r, order[..p]).inconclusive
    ensures Sweep(m, solve, r, order[..p]).inconclusive ==> Sweep(m, solve, r, order).inconclusive
    ensures forall e :: e in r.s && e !in order[..p] ==> e in Sweep(m, solve, r, order[..p]).s
    decreases |order|
  {
    if p < |order| {
      var shorter := order[..|order| - 1];
      SweepShrinks(m, solve, r, shorter, p);
      assert shorter[..p] == order[..p];
    } else if order != [] {
      assert order[..p] == order;
      var shorter := order[..|order| - 1];
      SweepShrinks(m, solve, r, shorter, |shorter|);
      assert shorter[..|shorter|] == shorter;
      assert order == shorter + [order[|order| - 1]];
    }
  }

  /** The element at p keeps its place exactly when its own trial is not infeasible. */
  lemma TrialDecides(m: Model, solve: Solver, r: Run, order: seq<Element>, p: nat)
    requires m.Valid() && p < |order| && order[p] in r.s
    requires forall k, l :: 0 <= k < l < |order| ==> order[k] != order[l]
    ensures var before := Sweep(m, solve, r, order[..p]);
      && Sweep(m, solve, r, order).s <= before.s <= r.s && order[p] in before.s
      && (order[p] in Sweep(m, solve, r, order).s <==> !TrialOf(m, solve, before, order[p]).status.Infeasible?)
      && (!IsConclusive(TrialOf(m, solve, before, order[p]).status) ==> Sweep(m, solve, r, order).inconclusive)
  {
    hide TrialOf, IsConclusive;
    var e, before := order[p], Sweep(m, solve, r, order[..p]);
    SweepShrinks(m, solve, r, order, p);
    SweepNext(m, solve, r, order, p);
    SweepShrinks(m, solve, r, order, p + 1);
    assert order == order[..p + 1] + order[p + 1..];
    SweepConcat(m, solve, r, order[..p + 1], order[p + 1..]);
    var after := Sweep(m, solve, r, order[..p + 1]);
    SweepShrinks(m, solve, after, order[p + 1..], |order[p + 1..]|);
    assert order[p + 1..][..|order[p + 1..]|] == order[p + 1..];
  }

  /** Dropping elements on true verdicts of infeasibility leaves an infeasible set. */
  lemma {:induction false} SweepStaysInfeasible(m: Model, solve: Solver, r: Run, order: seq<Element>)
    requires m.Valid() && TruthfulSolver(solve) && NoCommonPoint(m, r.s)
    ensures NoCommonPoint(m, Sweep(m, solve, r, order).s)
    decreases |order|
  {
    hide NoCommonPoint, Relaxed;
    if order != [] {
      var before, e := Sweep(m, solve, r, order[..|order| - 1]), order[|order| - 1];
      SweepStaysInfeasible(m, solve, r, order[..|order| - 1]);
      TrialVerdict(m, before.s - {e}, TrialOf(m, solve, before, e));
    }
  }

  lemma {:induction false} SweepIsDecided(m: Model, y: seq<real>, solve: Solver, r: Run, order: seq<Element>)
    requires m.Valid() && |y| == m.numRows && r.s <= Candidates(m, y) && !r.inconclusive && Decides(solve, m, y)
    ensures !Sweep(m, solve, r, order).inconclusive && Sweep(m, solve, r, order).s <= Candidates(m, y)
    decreases |order|
  {
    hide Candidates, Decides, Relaxed, IsConclusive;
    if order != [] {
      var before, e := Sweep(m, solve, r, order[..|order| - 1]), order[|order| - 1];
      SweepIsDecided(m, y, solve, r, order[..|order| - 1]);
      VerdictReached(m, y, solve, before.calls, before.s - {e});
    }
  }

  /** One trial of a truthful solver: a point it hands over is evidence from then on. */
  lemma StepVerdict(m: Model, solve: Solver, r: Run, e: Element)
    requires m.Valid() && TruthfulSolver(solve) && e in r.s
    ensures var t, after := TrialOf(m, solve, r, e), Step(m, solve, r, e);
      && after.s == (if t.status.Infeasible? then r.s - {e} else r.s)
      && after.calls == r.calls + 1 && after.inconclusive == (r.inconclusive || !IsConclusive(t.status))
      && (t.status in {Optimal, Status.Feasible} ==> Evidence(m, after.s, e, t.colValue))
    ensures forall o, w :: Evidence(m, r.s, o, w) ==> Evidence(m, Step(m, solve, r, e).s, o, w)
  {
    hide Relaxed, Satisfies;
    TrialVerdict(m, r.s - {e}, TrialOf(m, solve, r, e));
    forall o, w | Evidence(m, r.s, o, w) ensures Evidence(m, Step(m, solve, r, e).s, o, w) {
      EvidenceShrinks(m, r.s, Step(m, solve, r, e).s, o, w);
    }
  }

  // ---- The three loops ----------------------------------------------------------------

  /** The variables of the loops at a stage of the run. */
  ghost predicate At(m: Model, r: Run, f: Flags, sub: Model, calls: nat, inconclusive: bool)
    requires m.Valid()
  {
    Tracks(m, f, r.s) && sub == Relaxed(m, r.s) && calls == r.calls && inconclusive == r.inconclusive
  }

  method FilterRows(m: Model, f0: Flags, sub0: Model, calls0: nat, doubt0: bool, solve: Solver, ghost r0: Run)
    returns (f: Flags, sub: Model, calls: nat, inconclusive: bool, points: seq<seq<real>>, ghost r: Run)
    requires m.Valid() && At(m, r0, f0, sub0, calls0, doubt0) && TruthfulSolver(solve)
    ensures At(m, r, f, sub, calls, inconclusive) && r == Sweep(m, solve, r0, Rows(m))
    ensures |points| == m.numRows
    ensures !inconclusive ==> forall i :: 0 <= i < m.numRows && f.rows[i] ==>
      Evidence(m, r.s, Row(i), points[i])
  {
    hide TruthfulSolver, Relaxed, Evidence, Step, Sweep;
    f, sub, calls, inconclusive, r := f0, sub0, calls0, doubt0, r0;
    SweepStarts(m, solve, r0, Rows(m));
    points := seq(m.numRows, _ => []);
    for i := 0 to m.numRows
      invariant At(m, r, f, sub, calls, inconclusive) && r == Sweep(m, solve, r0, Rows(m)[..i])
      invariant |points| == m.numRows
      invariant !inconclusive ==> forall k :: 0 <= k < i && f.rows[k] ==> Evidence(m, r.s, Row(k), points[k])
    {
      SweepNext(m, solve, r0, Rows(m), i);
      if !f.rows[i] { continue; }
      ghost var before, e := sub, Row(i);
      var savedLower, savedUpper := sub.rowLower[i], sub.rowUpper[i];
      sub := sub.(rowLower := sub.rowLower[i := NegInf], rowUpper := sub.rowUpper[i := PosInf]);
      FreedRow(m, r.s, i);
      var trial := solve(calls, sub);
      assert trial == TrialOf(m, solve, r, e);
      StepVerdict(m, solve, r, e);
      r := Step(m, solve, r, e);
      calls := calls + 1;
      if !IsConclusive(trial.status) { inconclusive := true; }
      if trial.status.Infeasible? {
        f := f.(rows := f.rows[i := false]);
      } else {
        sub := sub.(rowLower := sub.rowLower[i := savedLower], rowUpper := sub.rowUpper[i := savedUpper]);
        assert sub == before;
        if ClaimsAPoint(trial.status) { points := points[i := trial.colValue]; }
      }
    }
    assert Rows(m)[..m.numRows] == Rows(m);
  }

  method FilterLowers(m: Model, f0: Flags, sub0: Model, calls0: nat, doubt0: bool, solve: Solver, ghost r0: Run)
    returns (f: Flags, sub: Model, calls: nat, inconclusive: bool, points: seq<seq<real>>, ghost r: Run)
    requires m.Valid() && At(m, r0, f0, sub0, calls0, doubt0) && TruthfulSolver(solve)
    ensures At(m, r, f, sub, calls, inconclusive) && r == Sweep(m, solve, r0, Lowers(m))
    ensures |points| == |m.cols|
    ensures !inconclusive ==> forall j :: 0 <= j < |m.cols| && f.lowers[j] ==>
      Evidence(m, r.s, ColLower(j), points[j])
  {
    hide TruthfulSolver, Relaxed, Evidence, Step, Sweep;
    f, sub, calls, inconclusive, r := f0, sub0, calls0, doubt0, r0;
    SweepStarts(m, solve, r0, Lowers(m));
    points := seq(|m.cols|, _ => []);
    for j := 0 to |m.cols|
      invariant At(m, r, f, sub, calls, inconclusive) && r == Sweep(m, solve, r0, Lowers(m)[..j])
      invariant |points| == |m.cols|
      invariant !inconclusive ==> forall k :: 0 <= k < j && f.lowers[k] ==> Evidence(m, r.s, ColLower(k), points[k])
    {
      SweepNext(m, solve, r0, Lowers(m), j);
      if !f.lowers[j] { continue; }
      ghost var before, e := sub, ColLower(j);
      var saved := sub.colLower[j];
      sub := sub.(colLower := sub.colLower[j := NegInf]);
      FreedLower(m, r.s, j);
      var trial := solve(calls, sub);
      assert trial == TrialOf(m, solve, r, e);
      StepVerdict(m, solve, r, e);
      r := Step(m, solve, r, e);
      calls := calls + 1;
      if !IsConclusive(trial.status) { inconclusive := true; }
      if trial.status.Infeasible? {
        f := f.(lowers := f.lowers[j := false]);
      } else {
        sub := sub.(colLower := sub.colLower[j := saved]);
        assert sub == before;
        if ClaimsAPoint(trial.status) { points := points[j := trial.colValue]; }
      }
    }
    assert Lowers(m)[..|m.cols|] == Lowers(m);
  }

  method FilterUppers(m: Model, f0: Flags, sub0: Model, calls0: nat, doubt0: bool, solve: Solver, ghost r0: Run)
    returns (f: Flags, sub: Model, calls: nat, inconclusive: bool, points: seq<seq<real>>, ghost r: Run)
    requires m.Valid() && At(m, r0, f0, sub0, calls0, doubt0) && TruthfulSolver(solve)
    ensures At(m, r, f, sub, calls, inconclusive) && r == Sweep(m, solve, r0, Uppers(m))
    ensures |points| == |m.cols|
    ensures !inconclusive ==> forall j :: 0 <= j < |m.cols| && f.uppers[j] ==>
      Evidence(m, r.s, ColUpper(j), points[j])
  {
    hide TruthfulSolver, Relaxed, Evidence, Step, Sweep;
    f, sub, calls, inconclusive, r := f0, sub0, calls0, doubt0, r0;
    SweepStarts(m, solve, r0, Uppers(m));
    points := seq(|m.cols|, _ => []);
    for j := 0 to |m.cols|
      invariant At(m, r, f, sub, calls, inconclusive) && r == Sweep(m, solve, r0, Uppers(m)[..j])
      invariant |points| == |m.cols|
      invariant !inconclusive ==> forall k :: 0 <= k < j && f.uppers[k] ==> Evidence(m, r.s, ColUpper(k), points[k])
    {
      SweepNext(m, solve, r0, Uppers(m), j);
      if !f.uppers[j] { continue; }
      ghost var before, e := sub, ColUpper(j);
      var saved := sub.colUpper[j];
      sub := sub.(colUpper := sub.colUpper[j := PosInf]);
      FreedUpper(m, r.s, j);
      var trial := solve(calls, sub);
      assert trial == TrialOf(m, solve, r, e);
      StepVerdict(m, solve, r, e);
      r := Step(m, solve, r, e);
      calls := calls + 1;
      if !IsConclusive(trial.status) { inconclusive := true; }
      if trial.status.Infeasible? {
        f := f.(uppers := f.uppers[j := false]);
      } else {
        sub := sub.(colUpper := sub.colUpper[j := saved]);
        assert sub == before;
        if ClaimsAPoint(trial.status) { points := points[j := trial.colValue]; }
      }
    }
    assert Uppers(m)[..|m.cols|] == Uppers(m);
  }

  // ---- The certificate of the final subsystem -----------------------------------------

  /** A certificate that proves the relaxed model infeasible stays inside the set and proves
      the original model too: the rows it uses and the bounds it leans on are the original's. */
  lemma CertificateTransfers(m: Model, s: set<Element>, y: seq<real>)
    requires m.Valid() && Proves(Relaxed(m, s), y)
    ensures Proves(m, y) && SupportInside(m, y, s, ZERO_DROP)
  {
    LeansOnlyInside(m, s, y, ZERO_DROP);
    SameAggregate(m, s, y, ZERO_DROP);
  }

  lemma CandidatesHoldTheSupport(m: Model, y: seq<real>)
    requires m.Valid() && |y| == m.numRows && NormalisedColumns(m)
    requires ColumnsBounded(m, TransposeTimes(m, y), ZeroLevel(m, y, ZERO_DROP))
    ensures SupportInside(m, y, Candidates(m, y), ZERO_DROP)
  {
    var d, zero, s := TransposeTimes(m, y), ZeroLevel(m, y, ZERO_DROP), Candidates(m, y);
    forall i | 0 <= i < m.numRows && y[i] != 0.0 ensures Row(i) in s {
      assert IsCandidate(m, y, Row(i));
    }
    forall j | 0 <= j < |m.cols| && d[j] > zero ensures ColUpper(j) in s {
      assert ColumnBounded(d[j], m.colLower[j], m.colUpper[j], zero);
      assert IsCandidate(m, y, ColUpper(j));
    }
    forall j | 0 <= j < |m.cols| && d[j] < -zero ensures ColLower(j) in s {
      assert ColumnBounded(d[j], m.colLower[j], m.colUpper[j], zero);
      assert IsCandidate(m, y, ColLower(j));
    }
  }

  /** They are the least set in which its support lies. */
  lemma CandidatesAreLeast(m: Model, y: seq<real>, s: set<Element>)
    requires m.Valid() && |y| == m.numRows && NormalisedColumns(m)
    requires ColumnsBounded(m, TransposeTimes(m, y), ZeroLevel(m, y, ZERO_DROP))
    ensures SupportInside(m, y, s, ZERO_DROP) <==> Candidates(m, y) <= s
  {
    hide TransposeTimes, ZeroLevel;
    CandidatesHoldTheSupport(m, y);
    if SupportInside(m, y, s, ZERO_DROP) {
      forall e | e in Candidates(m, y) ensures e in s { assert IsCandidate(m, y, e); }
    }
  }

  /** The candidates alone carry the caller's certificate. */
  lemma CandidatesCarryTheProof(m: Model, y: seq<real>)
    requires m.Valid() && NormalisedColumns(m) && Proves(m, y)
    ensures Proves(Relaxed(m, Candidates(m, y)), y)
  {
    CandidatesHoldTheSupport(m, y);
    SameAggregate(m, Candidates(m, y), y, ZERO_DROP);
  }

  /** So a solver that decides the sub-models always ends such a run conclusively: the
      candidates have no common point for the filter to trip over. */
  lemma CandidatesHaveNoCommonPoint(m: Model, y: seq<real>)
    requires m.Valid() && NormalisedColumns(m) && Proves(m, y) && NothingDropped(m, y, ZERO_DROP)
    ensures NoCommonPoint(m, Candidates(m, y))
  {
    var s := Candidates(m, y);
    var r := Relaxed(m, s);
    CandidatesCarryTheProof(m, y);
    ScaleSameColumns(m, r, y, |m.cols|, 0.0);
    AcceptedMeansInfeasible(r, y);
    forall x ensures !SatisfiesAll(m, s, x) { RelaxedMeansSatisfies(m, s, x); }
  }

  // ---- Solvers that decide -------------------------------------------------------------

  /** Every irreducible part of the candidates has a certificate that passes. */
  ghost predicate PartsProvable(m: Model, y: seq<real>)
    requires m.Valid() && |y| == m.numRows
  {
    forall s: set<Element> | s <= Candidates(m, y) && IsIis(m, s) :: exists z :: Proves(Relaxed(m, s), z)
  }

  /** The truthful verdict on a model, with a certificate where there is one. */
  ghost function BestTrial(sub: Model): (t: Trial)
    requires sub.Valid()
    ensures Truthful(sub, t) && IsConclusive(t.status)
    ensures t.status.Infeasible? <==> LpModel.Infeasible(sub)
    ensures LpModel.Infeasible(sub) && (exists z :: Proves(sub, z)) ==> Proves(sub, t.farkasDual)
  {
    if exists x :: LpModel.Feasible(sub, x) then (var x :| LpModel.Feasible(sub, x); Trial(Optimal, [], x))
    else if exists z :: Proves(sub, z) then (var z :| Proves(sub, z); Trial(Status.Infeasible, z, []))
    else Trial(Status.Infeasible, [], [])
  }

  /** A truthful solver that decides a run exists exactly when every irreducible part of the
      candidates has a certificate. */
  lemma SomeSolverDecides(m: Model, y: seq<real>)
    requires m.Valid() && |y| == m.numRows && y != []
    ensures (exists solve: Solver :: TruthfulSolver(solve) && Decides(solve, m, y)) <==> PartsProvable(m, y)
  {
    if PartsProvable(m, y) {
      var solve: Solver := (k: nat, sub: Model) => if sub.Valid() then BestTrial(sub) else Trial(Optimal, [], []);
      BestSolverDecides(m, y, solve);
    }
    if solve: Solver :| TruthfulSolver(solve) && Decides(solve, m, y) { DecidedPartsAreProvable(m, y, solve); }
  }

  lemma BestSolverDecides(m: Model, y: seq<real>, solve: Solver)
    requires m.Valid() && |y| == m.numRows && PartsProvable(m, y)
    requires forall k: nat, sub: Model :: sub.Valid() ==> solve(k, sub) == BestTrial(sub)
    ensures TruthfulSolver(solve) && Decides(solve, m, y)
  {
    hide Proves, LpModel.Infeasible, LpModel.Feasible, Candidates, IsIis, Truthful;
    forall k: nat, s: set<Element> | s <= Candidates(m, y) ensures DecidesOn(solve(k, Relaxed(m, s)), m, s) {
      assert solve(k, Relaxed(m, s)) == BestTrial(Relaxed(m, s));
      if IsIis(m, s) { ProofLength(m, s, BestTrial(Relaxed(m, s)).farkasDual); }
    }
  }

  lemma ProofLength(m: Model, s: set<Element>, z: seq<real>)
    requires m.Valid()
    ensures Proves(Relaxed(m, s), z) ==> |z| == m.numRows
  {
  }

  lemma DecidedPartsAreProvable(m: Model, y: seq<real>, solve: Solver)
    requires m.Valid() && |y| == m.numRows && y != [] && TruthfulSolver(solve) && Decides(solve, m, y)
    ensures PartsProvable(m, y)
  {
    hide Proves, Candidates, Satisfies;
    forall s: set<Element> | s <= Candidates(m, y) && IsIis(m, s) ensures exists z :: Proves(Relaxed(m, s), z) {
      var t := solve(0, Relaxed(m, s));
      assert DecidesOn(t, m, s);
      TrialVerdict(m, s, t);
      assert Proves(Relaxed(m, s), t.farkasDual);
    }
  }

  /** Candidates that are irreducible already have only themselves to prove. */
  lemma IrreducibleCandidatesAreProvable(m: Model, y: seq<real>)
    requires m.Valid() && NormalisedColumns(m) && |y| == m.numRows
    requires Proves(m, y) && IsIis(m, Candidates(m, y))
    ensures PartsProvable(m, y)
  {
    hide Proves, NormalisedColumns, Satisfies, Candidates;
    var c := Candidates(m, y);
    CandidatesCarryTheProof(m, y);
    forall s: set<Element> | s <= c && IsIis(m, s) ensures exists z :: Proves(Relaxed(m, s), z) {
      assert s == c;
    }
  }

  /** At least one more than nothing: x at most 0 as a bound and at least 1 as a row. */
  function Contradiction(): (m: Model)
    ensures m.Valid() && NormalisedColumns(m)
  {
    Model(1, [[Entry(0, 1.0)]], [0.0], 0.0, false, [NegInf], [Fin(0.0)], [Fin(1.0)], [PosInf], [])
  }

  /** Its certificate 1 prices the row and leans on the bound, and neither can be spared, so
      there is a truthful solver that decides the run and the run ends conclusively. */
  lemma ContradictionIsDecided() returns (solve: Solver)
    ensures TruthfulSolver(solve) && Decides(solve, Contradiction(), [1.0])
    ensures NoCommonPoint(Contradiction(), Candidates(Contradiction(), [1.0]))
  {
    var m, y := Contradiction(), [1.0];
    ContradictionAggregates();
    ContradictionCandidates();
    ContradictionIsIrreducible();
    IrreducibleCandidatesAreProvable(m, y);
    SomeSolverDecides(m, y);
    solve :| TruthfulSolver(solve) && Decides(solve, m, y);
  }

  lemma ContradictionAggregates()
    ensures var m := Contradiction();
      && TransposeTimes(m, [1.0]) == [1.0] && TermScale(m, [1.0]) == 1.0 && Proves(m, [1.0])
      && forall x: real :: Times(m, [x]) == [x]
  {
    var m, y := Contradiction(), [1.0];
    assert TransposeTimes(m, y) == [1.0];
    forall x: real ensures Times(m, [x]) == [x] { ContradictionTimes(x); }
  }

  lemma ContradictionTimes(x: real)
    ensures Times(Contradiction(), [x]) == [x]
  {
    var m, col := Contradiction(), [Entry(0, 1.0)];
    assert m.cols[0] == col && Mul(1.0, x) == x;
    assert TimesTo(m, [x], 1) == AddColumnTo(TimesTo(m, [x], 0), col, x, 1);
    assert TimesTo(m, [x], 0) == [0.0];
    assert AddColumnTo([0.0], col, x, 1) == AddEntry(AddColumnTo([0.0], col, x, 0), Entry(0, 1.0), x);
    assert AddColumnTo([0.0], col, x, 1) == [0.0][0 := 0.0 + x];
  }

  lemma ContradictionCandidates()
    ensures Candidates(Contradiction(), [1.0]) == {Row(0), ColUpper(0)}
  {
    ContradictionAggregates();
    var m, y := Contradiction(), [1.0];
    forall e ensures IsCandidate(m, y, e) <==> e in {Row(0), ColUpper(0)} {
    }
  }

  lemma ContradictionMeans(x: real)
    ensures Satisfies(Contradiction(), Row(0), [x]) <==> x >= 1.0
    ensures Satisfies(Contradiction(), ColUpper(0), [x]) <==> x <= 0.0
  {
    ContradictionAggregates();
  }

  lemma ContradictionIsIrreducible()
    ensures IsIis(Contradiction(), {Row(0), ColUpper(0)})
  {
    hide Satisfies;
    var m, s := Contradiction(), {Row(0), ColUpper(0)};
    forall x ensures !SatisfiesAll(m, s, x) {
      if |x| == 1 {
        ContradictionMeans(x[0]);
        assert x == [x[0]];
        assert Row(0) in s && ColUpper(0) in s;
      }
    }
    ContradictionMeans(0.0);
    ContradictionMeans(1.0);
    assert SatisfiesAll(m, s - {Row(0)}, [0.0]);
    assert SatisfiesAll(m, s - {ColUpper(0)}, [1.0]);
    WitnessedIsIis(m, s);
  }

  // ---- Collecting the result ----------------------------------------------------------

  /** The indices below k whose flag is set, ascending. */
  function IndicesTo(flags: seq<bool>, k: nat): (r: seq<nat>)
    requires k <= |flags|
    ensures forall i: nat :: i in r <==> i < k && flags[i]
    ensures forall a :: 0 <= a < |r| ==> r[a] < k
    ensures forall a, b :: 0 <= a < b < |r| ==> r[a] < r[b]
  {
    if k == 0 then [] else IndicesTo(flags, k - 1) + (if flags[k - 1] then [k - 1] else [])
  }

  function Indices(flags: seq<bool>): seq<nat> { IndicesTo(flags, |flags|) }

  /** The points stored for the given indices; complete when each has one of length n. */
  method Gather(indices: seq<nat>, points: seq<seq<real>>, n: nat) returns (taken: seq<seq<real>>, complete: bool)
    requires forall k :: 0 <= k < |indices| ==> indices[k] < |points|
    ensures |taken| == |indices|
    ensures forall k :: 0 <= k < |indices| ==> taken[k] == points[indices[k]]
    ensures complete <==> forall k :: 0 <= k < |indices| ==> |points[indices[k]]| == n
  {
    taken, complete := [], true;
    for k := 0 to |indices|
      invariant |taken| == k
      invariant forall l :: 0 <= l < k ==> taken[l] == points[indices[l]]
      invariant complete <==> forall l :: 0 <= l < k ==> |points[indices[l]]| == n
    {
      if |points[indices[k]]| != n { complete := false; }
      taken := taken + [points[indices[k]]];
    }
  }

  /** The elements in the order they are reported: rows, lower bounds, upper bounds. */
  function Reported(rows: seq<nat>, lowers: seq<nat>, uppers: seq<nat>): (es: seq<Element>)
    ensures |es| == |rows| + |lowers| + |uppers|
  {
    seq(|rows|, k requires 0 <= k < |rows| => Row(rows[k]))
    + seq(|lowers|, k requires 0 <= k < |lowers| => ColLower(lowers[k]))
    + seq(|uppers|, k requires 0 <= k < |uppers| => ColUpper(uppers[k]))
  }

  lemma InReported(rows: seq<nat>, lowers: seq<nat>, uppers: seq<nat>, e: Element)
    ensures e in Reported(rows, lowers, uppers) <==>
      match e case Row(i) => i in rows case ColLower(j) => j in lowers case ColUpper(j) => j in uppers
  {
    var a := seq(|rows|, k requires 0 <= k < |rows| => Row(rows[k]));
    var b := seq(|lowers|, k requires 0 <= k < |lowers| => ColLower(lowers[k]));
    var c := seq(|uppers|, k requires 0 <= k < |uppers| => ColUpper(uppers[k]));
    assert Reported(rows, lowers, uppers) == a + b + c;
    match e
    case Row(i) => if i in rows { var k :| 0 <= k < |rows| && rows[k] == i; assert a[k] == e; }
    case ColLower(j) => if j in lowers { var k :| 0 <= k < |lowers| && lowers[k] == j; assert b[k] == e; }
    case ColUpper(j) => if j in uppers { var k :| 0 <= k < |uppers| && uppers[k] == j; assert c[k] == e; }
  }

  lemma ReportedTracks(m: Model, f: Flags, s: set<Element>)
    requires m.Valid() && Tracks(m, f, s)
    ensures (set e | e in Reported(Indices(f.rows), Indices(f.lowers), Indices(f.uppers))) == s
  {
    forall e ensures e in Reported(Indices(f.rows), Indices(f.lowers), Indices(f.uppers)) <==> e in s {
      InReported(Indices(f.rows), Indices(f.lowers), Indices(f.uppers), e);
    }
  }

  /** Evidence for every element of a set without a common point makes it irreducible. */
  lemma EvidenceIsWitness(m: Model, s: set<Element>, es: seq<Element>, w: seq<seq<real>>)
    requires m.Valid() && NoCommonPoint(m, s) && |w| == |es|
    requires (set e | e in es) == s && forall e :: e in s ==> Exists(m, e)
    requires forall k :: 0 <= k < |es| ==> Evidence(m, s, es[k], w[k])
    ensures IsIis(m, s)
    ensures forall k :: 0 <= k < |es| ==> IsWitness(m, s, es[k], w[k])
  {
    forall k | 0 <= k < |es| ensures IsWitness(m, s, es[k], w[k]) {
      assert es[k] in s;
      assert !SatisfiesAll(m, s, w[k]);
      assert forall e :: e in s ==> e in s - {es[k]} || e == es[k];
    }
    forall e | e in s ensures exists p :: SatisfiesAll(m, s - {e}, p) {
      var k :| 0 <= k < |es| && es[k] == e;
      assert SatisfiesAll(m, s - {e}, w[k]);
    }
    WitnessedIsIis(m, s);
  }

  /** The gathered points, in reporting order, are evidence for the reported elements. */
  lemma GatheredEvidence(m: Model, s: set<Element>, rows: seq<nat>, lowers: seq<nat>, uppers: seq<nat>,
                         w1: seq<seq<real>>, w2: seq<seq<real>>, w3: seq<seq<real>>)
    requires m.Valid() && |w1| == |rows| && |w2| == |lowers| && |w3| == |uppers|
    requires forall k :: 0 <= k < |rows| ==> Evidence(m, s, Row(rows[k]), w1[k])
    requires forall k :: 0 <= k < |lowers| ==> Evidence(m, s, ColLower(lowers[k]), w2[k])
    requires forall k :: 0 <= k < |uppers| ==> Evidence(m, s, ColUpper(uppers[k]), w3[k])
    ensures forall k :: 0 <= k < |rows| + |lowers| + |uppers| ==>
      Evidence(m, s, Reported(rows, lowers, uppers)[k], (w1 + w2 + w3)[k])
  {
  }

  lemma EvidenceShrinks(m: Model, s: set<Element>, t: set<Element>, e: Element, w: seq<real>)
    requires m.Valid() && t <= s && Evidence(m, s, e, w)
    ensures Evidence(m, t, e, w)
  {
  }

  /** What is known of a finished filter: the surviving flags, the points of their trials. */
  ghost predicate Filtered(m: Model, f: Flags, s: set<Element>, rowPoints: seq<seq<real>>,
                           lowerPoints: seq<seq<real>>, upperPoints: seq<seq<real>>)
    requires m.Valid()
  {
    && Tracks(m, f, s)
    && |rowPoints| == m.numRows && |lowerPoints| == |upperPoints| == |m.cols|
    && (forall i :: 0 <= i < m.numRows && f.rows[i] ==> Evidence(m, s, Row(i), rowPoints[i]))
    && (forall j :: 0 <= j < |m.cols| && f.lowers[j] ==> Evidence(m, s, ColLower(j), lowerPoints[j]))
    && (forall j :: 0 <= j < |m.cols| && f.uppers[j] ==> Evidence(m, s, ColUpper(j), upperPoints[j]))
  }

  /** Where the filter starts and where it ends. */
  ghost function Final(m: Model, y: seq<real>, solve: Solver): Run
    requires m.Valid() && |y| == m.numRows
  {
    Sweep(m, solve, Run(Candidates(m, y), 0, false), Order(m))
  }

  method Filter(m: Model, y: seq<real>, solve: Solver)
    returns (f: Flags, sub: Model, calls: nat, inconclusive: bool, rowPoints: seq<seq<real>>,
             lowerPoints: seq<seq<real>>, upperPoints: seq<seq<real>>, ghost r: Run)
    requires m.Valid() && |y| == m.numRows && TruthfulSolver(solve)
    ensures At(m, r, f, sub, calls, inconclusive) && r == Final(m, y, solve)
    ensures |rowPoints| == m.numRows && |lowerPoints| == |upperPoints| == |m.cols|
    ensures !inconclusive ==> Filtered(m, f, r.s, rowPoints, lowerPoints, upperPoints)
  {
    hide Sweep, Candidates, Relaxed, Evidence;
    ghost var r0 := Run(Candidates(m, y), 0, false);
    var f0 := SelectCandidates(m, y);
    var sub0 := Restrict(m, f0, r0.s);
    var f1, sub1, calls1, doubt1, points1, r1 := FilterRows(m, f0, sub0, 0, false, solve, r0);
    var f2, sub2, calls2, doubt2, points2, r2 := FilterLowers(m, f1, sub1, calls1, doubt1, solve, r1);
    f, sub, calls, inconclusive, upperPoints, r := FilterUppers(m, f2, sub2, calls2, doubt2, solve, r2);
    rowPoints, lowerPoints := points1, points2;
    SweepConcat(m, solve, r0, Rows(m), Lowers(m));
    SweepConcat(m, solve, r0, Rows(m) + Lowers(m), Uppers(m));
    StageShrinks(m, solve, r1, Lowers(m));
    StageShrinks(m, solve, r2, Uppers(m));
    if !inconclusive {
      forall i | 0 <= i < m.numRows && f.rows[i] ensures Evidence(m, r.s, Row(i), rowPoints[i]) {
        EvidenceShrinks(m, r1.s, r.s, Row(i), rowPoints[i]);
      }
      forall j | 0 <= j < |m.cols| && f.lowers[j] ensures Evidence(m, r.s, ColLower(j), lowerPoints[j]) {
        EvidenceShrinks(m, r2.s, r.s, ColLower(j), lowerPoints[j]);
      }
    }
  }

  lemma StageShrinks(m: Model, solve: Solver, r: Run, order: seq<Element>)
    requires m.Valid()
    ensures var after := Sweep(m, solve, r, order); after.s <= r.s && (r.inconclusive ==> after.inconclusive)
  {
    SweepShrinks(m, solve, r, order, |order|);
    assert order[..|order|] == order;
  }

  /** The final solve hands over a certificate that proves the caller's model. */
  predicate Establishes(m: Model, t: Trial)
    requires m.Valid()
  {
    t.status.Infeasible? && |t.farkasDual| == m.numRows && Proves(m, t.farkasDual)
  }

  /** Re-solve the final subsystem and keep its certificate if it proves the caller's model. */
  method Certify(m: Model, sub: Model, calls: nat, solve: Solver, ghost s: set<Element>)
    returns (proven: bool, y: seq<real>)
    requires m.Valid() && sub == Relaxed(m, s) && TruthfulSolver(solve)
    ensures var t := solve(calls, Relaxed(m, s)); proven == Establishes(m, t) && y == t.farkasDual
    ensures proven ==> NoCommonPoint(m, s) && SupportInside(m, y, s, ZERO_DROP)
  {
    hide Proves, Relaxed, SupportInside, NoCommonPoint;
    var final := solve(calls, sub);
    TrialVerdict(m, s, final);
    proven, y := false, final.farkasDual;
    if final.status.Infeasible? && |final.farkasDual| == m.numRows {
      proven := FarkasProvesInfeasible(m, final.farkasDual);
      if proven { EstablishedIsInside(m, s, final); }
    }
  }

  lemma EstablishedIsInside(m: Model, s: set<Element>, t: Trial)
    requires m.Valid() && Truthful(Relaxed(m, s), t) && Establishes(m, t)
    ensures SupportInside(m, t.farkasDual, s, ZERO_DROP)
  {
    hide Proves, SupportInside, Relaxed;
    if t.farkasDual == [] { EmptyProvesNothing(m); } else { CertificateTransfers(m, s, t.farkasDual); }
  }

  lemma EmptyProvesNothing(m: Model)
    requires m.Valid()
    ensures !Proves(m, [])
  {
  }

  /** A solver that decides the run establishes the certificate of an irreducible subsystem. */
  lemma DecidedIsEstablished(m: Model, y: seq<real>, solve: Solver, k: nat, s: set<Element>)
    requires m.Valid() && |y| == m.numRows && y != [] && s <= Candidates(m, y)
    requires TruthfulSolver(solve) && Decides(solve, m, y) && IsIis(m, s)
    ensures Establishes(m, solve(k, Relaxed(m, s)))
  {
    hide Proves, Candidates, Relaxed, Satisfies;
    var t := solve(k, Relaxed(m, s));
    assert DecidesOn(t, m, s);
    TrialVerdict(m, s, t);
    CertificateTransfers(m, s, t.farkasDual);
  }

  /** The reported elements' points, in reporting order, are witnesses. */
  method CollectWitnesses(m: Model, f: Flags, rowPoints: seq<seq<real>>, lowerPoints: seq<seq<real>>,
                          upperPoints: seq<seq<real>>, ghost s: set<Element>)
    returns (witnesses: seq<seq<real>>, complete: bool)
    requires m.Valid() && Tracks(m, f, s)
    requires |rowPoints| == m.numRows && |lowerPoints| == |upperPoints| == |m.cols|
    ensures Filtered(m, f, s, rowPoints, lowerPoints, upperPoints) ==> complete
    ensures Filtered(m, f, s, rowPoints, lowerPoints, upperPoints) && NoCommonPoint(m, s) ==>
      && IsIis(m, s)
      && var es := Reported(Indices(f.rows), Indices(f.lowers), Indices(f.uppers));
         |witnesses| == |es| && forall k :: 0 <= k < |es| ==> IsWitness(m, s, es[k], witnesses[k])
  {
    var rows, lowers, uppers := Indices(f.rows), Indices(f.lowers), Indices(f.uppers);
    forall k | 0 <= k < |rows| ensures rows[k] < m.numRows && f.rows[rows[k]] { assert rows[k] in rows; }
    forall k | 0 <= k < |lowers| ensures lowers[k] < |m.cols| && f.lowers[lowers[k]] { assert lowers[k] in lowers; }
    forall k | 0 <= k < |uppers| ensures uppers[k] < |m.cols| && f.uppers[uppers[k]] { assert uppers[k] in uppers; }
    var w1, all1 := Gather(rows, rowPoints, |m.cols|);
    var w2, all2 := Gather(lowers, lowerPoints, |m.cols|);
    var w3, all3 := Gather(uppers, upperPoints, |m.cols|);
    witnesses, complete := w1 + w2 + w3, all1 && all2 && all3;
    if Filtered(m, f, s, rowPoints, lowerPoints, upperPoints) {
      GatheredEvidence(m, s, rows, lowers, uppers, w1, w2, w3);
      if NoCommonPoint(m, s) {
        ReportedTracks(m, f, s);
        EvidenceIsWitness(m, s, Reported(rows, lowers, uppers), witnesses);
      }
    }
  }

  /** The part of a solution that the filter rewrites. */
  datatype Outcome = Outcome(
    rows: seq<nat>, lowers: seq<nat>, uppers: seq<nat>,
    witnesses: seq<seq<real>>, farkasDual: seq<real>, inconclusive: bool)
  {
    function Elements(): seq<Element> { Reported(rows, lowers, uppers) }

    ghost function ElementSet(): set<Element> { set e | e in Elements() }
  }

  /** Everything a conclusive run claims: the set is an IIS, the k-th witness is a witness of
      the k-th element, and the certificate is a proof whose support lies inside the set. */
  ghost predicate Claims(m: Model, o: Outcome)
    requires m.Valid()
  {
    && IsIis(m, o.ElementSet())
    && |o.witnesses| == |o.Elements()|
    && (forall k :: 0 <= k < |o.witnesses| ==> IsWitness(m, o.ElementSet(), o.Elements()[k], o.witnesses[k]))
    && Proves(m, o.farkasDual)
    && SupportInside(m, o.farkasDual, o.ElementSet(), ZERO_DROP)
  }

  /** Reported at all: its own trial, on a set with every other reported element, was not infeasible. */
  ghost predicate KeptByTrial(m: Model, solve: Solver, c: set<Element>, s: set<Element>, e: Element)
    requires m.Valid()
  {
    exists k: nat, t: set<Element> :: s <= t <= c && !solve(k, Relaxed(m, t - {e})).status.Infeasible?
  }

  /** Left out: a set without it, with every reported element, was found infeasible. */
  ghost predicate LeftOutByTrial(m: Model, solve: Solver, c: set<Element>, s: set<Element>, e: Element)
    requires m.Valid()
  {
    exists k: nat, t: set<Element> :: s <= t - {e} && t <= c && solve(k, Relaxed(m, t - {e})).status.Infeasible?
  }

  predicate Ascending(a: seq<nat>) { forall k, l :: 0 <= k < l < |a| ==> a[k] < a[l] }

  /** What is reported of every run, conclusive or not. */
  ghost predicate ReportsTheRun(m: Model, y: seq<real>, solve: Solver, o: Outcome)
    requires m.Valid() && |y| == m.numRows
  {
    var c, s, last := Candidates(m, y), o.ElementSet(), solve(Final(m, y, solve).calls, Relaxed(m, o.ElementSet()));
    && s == Final(m, y, solve).s
    && Ascending(o.rows) && Ascending(o.lowers) && Ascending(o.uppers)
    && s <= c && (forall e :: e in s ==> KeptByTrial(m, solve, c, s, e))
    && (forall e :: e in c && e !in s ==> LeftOutByTrial(m, solve, c, s, e))
    && (NoCommonPoint(m, c) ==> NoCommonPoint(m, s))
    && o.farkasDual == (if Establishes(m, last) then last.farkasDual else y)
    && (o.inconclusive <==> Final(m, y, solve).inconclusive || !Establishes(m, last))
  }

  /** The result's relation to the certificate the filter started from. */
  ghost predicate FilterResult(m: Model, y: seq<real>, solve: Solver, o: Outcome)
    requires m.Valid() && |y| == m.numRows
  {
    && ReportsTheRun(m, y, solve, o)
    && o.ElementSet() <= Candidates(m, y)
    && (!o.inconclusive ==> Claims(m, o))
    && (o.inconclusive ==> o.witnesses == [])
    && (o.farkasDual == y || (Proves(m, o.farkasDual) && SupportInside(m, o.farkasDual, o.ElementSet(), ZERO_DROP)))
    && (Decides(solve, m, y) ==> (o.inconclusive <==> !NoCommonPoint(m, Candidates(m, y))))
  }

  /** Every candidate is kept or left out by a trial of its own. */
  lemma RunIsByTrials(m: Model, y: seq<real>, solve: Solver)
    requires m.Valid() && |y| == m.numRows && TruthfulSolver(solve)
    ensures var c, s := Candidates(m, y), Final(m, y, solve).s;
      && s <= c && (forall e :: e in s ==> KeptByTrial(m, solve, c, s, e))
      && (forall e :: e in c && e !in s ==> LeftOutByTrial(m, solve, c, s, e))
      && (NoCommonPoint(m, c) ==> NoCommonPoint(m, s))
  {
    hide Sweep, Candidates, Relaxed, NoCommonPoint, Order;
    var r0, order := Run(Candidates(m, y), 0, false), Order(m);
    OrderHasAllOnce(m);
    StageShrinks(m, solve, r0, order);
    if NoCommonPoint(m, r0.s) { SweepStaysInfeasible(m, solve, r0, order); }
    forall e | e in r0.s
      ensures if e in Final(m, y, solve).s then KeptByTrial(m, solve, r0.s, Final(m, y, solve).s, e)
              else LeftOutByTrial(m, solve, r0.s, Final(m, y, solve).s, e)
    {
      CandidateExists(m, y, e);
      var p :| 0 <= p < |order| && order[p] == e;
      TrialDecides(m, solve, r0, order, p);
      var before := Sweep(m, solve, r0, order[..p]);
      assert TrialOf(m, solve, before, e) == solve(before.calls, Relaxed(m, before.s - {e}));
    }
  }

  lemma CandidateExists(m: Model, y: seq<real>, e: Element)
    requires m.Valid() && |y| == m.numRows && e in Candidates(m, y)
    ensures Exists(m, e)
  {
    assert IsCandidate(m, y, e);
  }

  lemma LeftOutHasVerdict(m: Model, solve: Solver, c: set<Element>, s: set<Element>, e: Element)
    requires m.Valid() && LeftOutByTrial(m, solve, c, s, e)
    ensures exists k: nat, t: set<Element> :: t <= c && solve(k, Relaxed(m, t)).status.Infeasible?
  {
    hide Relaxed;
    var k: nat, t: set<Element> :| s <= t - {e} && t <= c && solve(k, Relaxed(m, t - {e})).status.Infeasible?;
    assert t - {e} <= c;
  }

  /** A run in which no solve ends infeasible reports all candidates and the caller's certificate,
      without a claim. */
  lemma UndecidedRunKeepsAll(m: Model, y: seq<real>, solve: Solver, o: Outcome)
    requires m.Valid() && |y| == m.numRows && FilterResult(m, y, solve, o)
    requires forall k: nat, t: set<Element> :: t <= Candidates(m, y) ==> !solve(k, Relaxed(m, t)).status.Infeasible?
    ensures o.ElementSet() == Candidates(m, y) && o.farkasDual == y && o.inconclusive && o.witnesses == []
  {
    hide Candidates, Claims, Decides, NoCommonPoint, Relaxed, Final, KeptByTrial, LeftOutByTrial, SupportInside, Proves;
    if e :| e in Candidates(m, y) && e !in o.ElementSet() {
      LeftOutHasVerdict(m, solve, Candidates(m, y), o.ElementSet(), e);
    }
  }

  lemma SupersetHasNoCommonPoint(m: Model, s: set<Element>, t: set<Element>)
    requires m.Valid() && t <= s && NoCommonPoint(m, t)
    ensures NoCommonPoint(m, s)
  {
    forall x ensures !SatisfiesAll(m, s, x) { assert !SatisfiesAll(m, t, x); }
  }

  method Compute(m: Model, y: seq<real>, solve: Solver) returns (o: Outcome)
    requires m.Valid() && |y| == m.numRows && y != [] && TruthfulSolver(solve)
    ensures FilterResult(m, y, solve, o)
  {
    hide Candidates, NoCommonPoint, Relaxed, Proves, SupportInside, IsIis, Final, Decides, Evidence, ReportsTheRun,
      Establishes, Filtered, IsWitness;
    var f, sub, calls, inconclusive, rowPoints, lowerPoints, upperPoints, r := Filter(m, y, solve);
    var proven, certificate := Certify(m, sub, calls, solve, r.s);
    var witnesses, complete := CollectWitnesses(m, f, rowPoints, lowerPoints, upperPoints, r.s);
    ReportedTracks(m, f, r.s);
    RunKeepsInfeasibility(m, y, solve);
    if Decides(solve, m, y) { DecidedRun(m, y, solve); }
    var doubt := inconclusive || !proven || !complete;
    o := Outcome(Indices(f.rows), Indices(f.lowers), Indices(f.uppers),
                 if doubt then [] else witnesses, if proven then certificate else y, doubt);
    RunIsReported(m, y, solve, f, o);
    if proven { EstablishedProves(m, solve(calls, Relaxed(m, r.s))); }
  }

  /** The surviving set has a common point exactly when the candidates have one. */
  lemma RunKeepsInfeasibility(m: Model, y: seq<real>, solve: Solver)
    requires m.Valid() && |y| == m.numRows && TruthfulSolver(solve)
    ensures var s := Final(m, y, solve).s;
      s <= Candidates(m, y) && (NoCommonPoint(m, Candidates(m, y)) <==> NoCommonPoint(m, s))
  {
    hide Candidates, NoCommonPoint, Final, KeptByTrial, LeftOutByTrial;
    var s := Final(m, y, solve).s;
    RunIsByTrials(m, y, solve);
    if NoCommonPoint(m, s) { SupersetHasNoCommonPoint(m, Candidates(m, y), s); }
  }

  lemma EstablishedProves(m: Model, t: Trial)
    requires m.Valid() && Establishes(m, t)
    ensures Proves(m, t.farkasDual) && |t.farkasDual| == m.numRows
  {
    hide Proves;
  }

  lemma RunIsReported(m: Model, y: seq<real>, solve: Solver, f: Flags, o: Outcome)
    requires m.Valid() && |y| == m.numRows && TruthfulSolver(solve)
    requires Tracks(m, f, Final(m, y, solve).s)
    requires o.rows == Indices(f.rows) && o.lowers == Indices(f.lowers) && o.uppers == Indices(f.uppers)
    requires var last := solve(Final(m, y, solve).calls, Relaxed(m, Final(m, y, solve).s));
      && o.farkasDual == (if Establishes(m, last) then last.farkasDual else y)
      && (o.inconclusive <==> Final(m, y, solve).inconclusive || !Establishes(m, last))
    ensures ReportsTheRun(m, y, solve, o)
    ensures o.ElementSet() == Final(m, y, solve).s <= Candidates(m, y)
  {
    hide Candidates, NoCommonPoint, Relaxed, Establishes, Final, KeptByTrial, LeftOutByTrial, Tracks;
    ReportedTracks(m, f, Final(m, y, solve).s);
    RunIsByTrials(m, y, solve);
    assert o.ElementSet() == Final(m, y, solve).s;
  }

  /** A solver that decides the run leaves no doubt, and establishes what is irreducible. */
  lemma DecidedRun(m: Model, y: seq<real>, solve: Solver)
    requires m.Valid() && |y| == m.numRows && y != [] && TruthfulSolver(solve) && Decides(solve, m, y)
    ensures var r := Final(m, y, solve);
      !r.inconclusive && (IsIis(m, r.s) ==> Establishes(m, solve(r.calls, Relaxed(m, r.s))))
  {
    hide Candidates, Sweep, IsIis, Decides, Relaxed, Establishes, Order;
    SweepIsDecided(m, y, solve, Run(Candidates(m, y), 0, false), Order(m));
    var r := Final(m, y, solve);
    if IsIis(m, r.s) { DecidedIsEstablished(m, y, solve, r.calls, r.s); }
  }

  function OutcomeOf(solution: Solution): Outcome
    reads solution
  {
    Outcome(solution.iisRows, solution.iisColLower, solution.iisColUpper,
            solution.iisWitnesses, solution.farkasDual, solution.iisInconclusive)
  }

  method ComputeIis(m: Model, solution: Solution, enabled: bool, solve: Solver)
    requires m.Valid() && TruthfulSolver(solve)
    requires solution.farkasDual != [] ==> |solution.farkasDual| == m.numRows
    requires solution.iisRows == solution.iisColLower == solution.iisColUpper == [] && solution.iisWitnesses == []
    modifies solution`farkasDual, solution`iisRows, solution`iisColLower, solution`iisColUpper
    modifies solution`iisWitnesses, solution`iisInconclusive
    ensures if old(solution.status).Infeasible? && old(solution.farkasDual) != [] && enabled
            then FilterResult(m, old(solution.farkasDual), solve, OutcomeOf(solution))
            else unchanged(solution)
  {
    hide Claims, Candidates, NoCommonPoint, Decides, TruthfulSolver;
    if !solution.status.Infeasible? || solution.farkasDual == [] || !enabled { return; }
    var o := Compute(m, solution.farkasDual, solve);
    solution.farkasDual := o.farkasDual;
    solution.iisRows, solution.iisColLower, solution.iisColUpper := o.rows, o.lowers, o.uppers;
    solution.iisWitnesses, solution.iisInconclusive := o.witnesses, o.inconclusive;
  }
}
