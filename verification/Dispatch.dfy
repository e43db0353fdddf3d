/** The exhaustive oracle for single-period unit commitment: a merit-order dispatch for each
    on/off pattern, and the cheapest pattern overall. */
module Dispatch {
  import opened Prelude
  import opened Vectors

  /** Marginal cost, minimum and maximum output, start-up cost. */
  datatype GenUnit = GenUnit(cost: real, pmin: real, pmax: real, start: real)

  /** The load, the capacity that must be committed, and the two float guards. */
  datatype Task = Task(units: seq<GenUnit>, demand: real, reserve: real, guard: real, stop: real)
  {
    predicate Valid() {
      guard >= 0.0 && stop >= 0.0 && forall g :: 0 <= g < |units| ==> 0.0 <= units[g].pmin <= units[g].pmax
    }
  }

  // ---- Sums over a list of units ------------------------------------------------------

  predicate Covers(v: map<nat, real>, ids: seq<nat>) { forall i :: 0 <= i < |ids| ==> ids[i] in v }

  function Total(ids: seq<nat>, v: map<nat, real>): real
    requires Covers(v, ids)
  {
    if ids == [] then 0.0 else Total(ids[..|ids| - 1], v) + v[ids[|ids| - 1]]
  }

  function Distinct(ids: seq<nat>): bool { forall i, j :: 0 <= i < j < |ids| ==> ids[i] != ids[j] }

  lemma {:induction false} TotalLe(ids: seq<nat>, v: map<nat, real>, w: map<nat, real>)
    requires Covers(v, ids) && Covers(w, ids) && forall i :: 0 <= i < |ids| ==> v[ids[i]] <= w[ids[i]]
    ensures Total(ids, v) <= Total(ids, w)
  {
    if ids != [] { TotalLe(ids[..|ids| - 1], v, w); }
  }

  lemma {:induction false} TotalDifference(ids: seq<nat>, u: map<nat, real>, v: map<nat, real>, w: map<nat, real>)
    requires Covers(u, ids) && Covers(v, ids) && Covers(w, ids)
    requires forall i :: 0 <= i < |ids| ==> w[ids[i]] == u[ids[i]] - v[ids[i]]
    ensures Total(ids, w) == Total(ids, u) - Total(ids, v)
  {
    if ids != [] { TotalDifference(ids[..|ids| - 1], u, v, w); }
  }

  /** w = u + price * v, unit by unit. */
  predicate IsPriced(ids: seq<nat>, u: map<nat, real>, v: map<nat, real>, w: map<nat, real>, price: real) {
    && Covers(u, ids) && Covers(v, ids) && Covers(w, ids)
    && forall i :: 0 <= i < |ids| ==> w[ids[i]] == u[ids[i]] + Mul(price, v[ids[i]])
  }

  lemma {:induction false} TotalPriced(ids: seq<nat>, u: map<nat, real>, v: map<nat, real>, w: map<nat, real>,
      price: real)
    requires IsPriced(ids, u, v, w, price)
    ensures Total(ids, w) == Total(ids, u) + Mul(price, Total(ids, v))
  {
    if ids != [] {
      var init, last := ids[..|ids| - 1], ids[|ids| - 1];
      TotalPriced(init, u, v, w, price);
      Distribute(price, Total(init, v), v[last]);
    }
  }

  lemma {:induction false} TotalSame(ids: seq<nat>, v: map<nat, real>, w: map<nat, real>)
    requires Covers(v, ids) && Covers(w, ids) && forall i :: 0 <= i < |ids| ==> v[ids[i]] == w[ids[i]]
    ensures Total(ids, v) == Total(ids, w)
  {
    if ids != [] { TotalSame(ids[..|ids| - 1], v, w); }
  }

  /** Changing one unit's value changes the total by as much. */
  lemma {:induction false} TotalUpdate(ids: seq<nat>, v: map<nat, real>, k: nat, t: real)
    requires Covers(v, ids) && Distinct(ids) && k < |ids|
    ensures Total(ids, v[ids[k] := v[ids[k]] + t]) == Total(ids, v) + t
  {
    var n := |ids| - 1;
    if k == n {
      TotalSame(ids[..n], v, v[ids[k] := v[ids[k]] + t]);
    } else {
      assert ids[..n][k] == ids[k];
      TotalUpdate(ids[..n], v, k, t);
    }
  }

  function Without(ids: seq<nat>, i: nat): (r: seq<nat>)
    requires i < |ids|
    ensures |r| == |ids| - 1
  {
    ids[..i] + ids[i + 1..]
  }

  lemma {:induction false} TotalWithout(ids: seq<nat>, v: map<nat, real>, i: nat)
    requires Covers(v, ids) && i < |ids|
    ensures Covers(v, Without(ids, i)) && Total(ids, v) == Total(Without(ids, i), v) + v[ids[i]]
  {
    var n := |ids| - 1;
    assert forall k :: 0 <= k < n ==> Without(ids, i)[k] == ids[if k < i then k else k + 1];
    if i == n {
      assert Without(ids, i) == ids[..n];
    } else {
      TotalWithout(ids[..n], v, i);
      assert Without(ids, i)[..n - 1] == Without(ids[..n], i);
      assert Without(ids, i)[n - 1] == ids[n];
    }
  }

  lemma MultisetWithout(ids: seq<nat>, i: nat)
    requires i < |ids|
    ensures multiset(Without(ids, i)) == multiset(ids) - multiset{ids[i]}
  {
    assert ids == ids[..i] + [ids[i]] + ids[i + 1..];
  }

  /** A total does not depend on the order. */
  lemma {:induction false} TotalPermuted(a: seq<nat>, b: seq<nat>, v: map<nat, real>)
    requires multiset(a) == multiset(b) && Covers(v, a) && Covers(v, b)
    ensures Total(a, v) == Total(b, v)
  {
    if a == [] {
      assert |multiset(b)| == 0;
    } else {
      var n := |a| - 1;
      var i := PlaceOf(b, a, n);
      MultisetWithout(a, n);
      MultisetWithout(b, i);
      assert Without(a, n) == a[..n];
      TotalWithout(b, v, i);
      hide Without;
      TotalPermuted(a[..n], Without(b, i), v);
    }
  }

  lemma PlaceOf(b: seq<nat>, a: seq<nat>, n: nat) returns (i: nat)
    requires n < |a| && multiset(a) == multiset(b)
    ensures i < |b| && b[i] == a[n]
  {
    assert a[n] in multiset(b);
    i :| 0 <= i < |b| && b[i] == a[n];
  }

  // ---- Merit order --------------------------------------------------------------------

  /** The units switched on by a pattern, in their listed order. */
  function On(pattern: seq<bool>, k: nat): (ids: seq<nat>)
    requires k <= |pattern|
    ensures forall g: nat :: g in ids <==> g < k && pattern[g]
    ensures forall i :: 0 <= i < |ids| ==> ids[i] < k && pattern[ids[i]]
    ensures Distinct(ids)
  {
    if k == 0 then [] else On(pattern, k - 1) + (if pattern[k - 1] then [k - 1] else [])
  }

  predicate ByCost(units: seq<GenUnit>, ids: seq<nat>) {
    && (forall i :: 0 <= i < |ids| ==> ids[i] < |units|)
    && (forall i, j :: 0 <= i < j < |ids| ==> units[ids[i]].cost <= units[ids[j]].cost)
  }

  /** Insert a unit behind every unit that costs no more: a stable insertion. */
  function Insert(units: seq<GenUnit>, ids: seq<nat>, g: nat): (r: seq<nat>)
    requires ByCost(units, ids) && g < |units|
    ensures ByCost(units, r) && multiset(r) == multiset(ids) + multiset{g}
  {
    if ids == [] then [g]
    else
      var last := ids[|ids| - 1];
      assert ids == ids[..|ids| - 1] + [last];
      if units[last].cost <= units[g].cost then ids + [g]
      else
        var r := Insert(units, ids[..|ids| - 1], g);
        InsertBelow(units, ids, g, r);
        r + [last]
  }

  lemma InsertBelow(units: seq<GenUnit>, ids: seq<nat>, g: nat, r: seq<nat>)
    requires ids != [] && ByCost(units, ids) && g < |units| && units[ids[|ids| - 1]].cost > units[g].cost
    requires multiset(r) == multiset(ids[..|ids| - 1]) + multiset{g}
    ensures forall i :: 0 <= i < |r| ==> r[i] < |units| && units[r[i]].cost <= units[ids[|ids| - 1]].cost
  {
    forall i | 0 <= i < |r| ensures r[i] < |units| && units[r[i]].cost <= units[ids[|ids| - 1]].cost {
      assert r[i] in multiset(r);
      if r[i] != g {
        assert r[i] in ids[..|ids| - 1];
      }
    }
  }

  /** The list sorted by marginal cost, ties in their listed order. */
  function Sorted(units: seq<GenUnit>, ids: seq<nat>): (r: seq<nat>)
    requires forall i :: 0 <= i < |ids| ==> ids[i] < |units|
    ensures ByCost(units, r) && multiset(r) == multiset(ids)
  {
    if ids == [] then []
    else
      assert ids == ids[..|ids| - 1] + [ids[|ids| - 1]];
      Insert(units, Sorted(units, ids[..|ids| - 1]), ids[|ids| - 1])
  }

  // ---- What a dispatch is -------------------------------------------------------------

  function Field(units: seq<GenUnit>, ids: seq<nat>, f: GenUnit -> real): (v: map<nat, real>)
    requires forall i :: 0 <= i < |ids| ==> ids[i] < |units|
    ensures Covers(v, ids) && forall i :: 0 <= i < |ids| ==> v[ids[i]] == f(units[ids[i]])
    ensures forall g: nat :: g in v ==> g in ids
  {
    map g: nat | g in ids :: f(units[g])
  }

  function Minima(units: seq<GenUnit>, ids: seq<nat>): (v: map<nat, real>)
    requires forall i :: 0 <= i < |ids| ==> ids[i] < |units|
    ensures Covers(v, ids) && forall i :: 0 <= i < |ids| ==> v[ids[i]] == units[ids[i]].pmin
    ensures forall g: nat :: g in v <==> g in ids
  {
    Field(units, ids, (u: GenUnit) => u.pmin)
  }

  function Maxima(units: seq<GenUnit>, ids: seq<nat>): (v: map<nat, real>)
    requires forall i :: 0 <= i < |ids| ==> ids[i] < |units|
    ensures Covers(v, ids) && forall i :: 0 <= i < |ids| ==> v[ids[i]] == units[ids[i]].pmax
  {
    Field(units, ids, (u: GenUnit) => u.pmax)
  }

  function Starts(units: seq<GenUnit>, ids: seq<nat>): (v: map<nat, real>)
    requires forall i :: 0 <= i < |ids| ==> ids[i] < |units|
    ensures Covers(v, ids) && forall i :: 0 <= i < |ids| ==> v[ids[i]] == units[ids[i]].start
  {
    Field(units, ids, (u: GenUnit) => u.start)
  }

  /** Fuel cost of each unit's output. */
  function Fuel(units: seq<GenUnit>, ids: seq<nat>, p: map<nat, real>): (v: map<nat, real>)
    requires Covers(p, ids) && forall i :: 0 <= i < |ids| ==> ids[i] < |units|
    ensures Covers(v, ids) && forall i :: 0 <= i < |ids| ==> v[ids[i]] == Mul(units[ids[i]].cost, p[ids[i]])
  {
    map g: nat | g in ids :: Mul(units[g].cost, p[g])
  }

  function CostOf(units: seq<GenUnit>, ids: seq<nat>, p: map<nat, real>): real
    requires Covers(p, ids) && forall i :: 0 <= i < |ids| ==> ids[i] < |units|
  {
    Total(ids, Fuel(units, ids, p)) + Total(ids, Starts(units, ids))
  }

  /** Every committed unit runs between its minimum and its maximum. */
  predicate InRange(units: seq<GenUnit>, ids: seq<nat>, p: map<nat, real>) {
    && (forall i :: 0 <= i < |ids| ==> ids[i] < |units|) && Covers(p, ids)
    && forall i :: 0 <= i < |ids| ==> units[ids[i]].pmin <= p[ids[i]] <= units[ids[i]].pmax
  }

  /** A dispatch of the committed units that meets the load, with enough capacity committed. */
  ghost predicate Serves(t: Task, ids: seq<nat>, p: map<nat, real>) {
    && InRange(t.units, ids, p)
    && Total(ids, p) == t.demand
    && Total(ids, Maxima(t.units, ids)) >= t.reserve
  }

  ghost predicate NoneServes(t: Task, ids: seq<nat>) { forall p :: !Serves(t, ids, p) }

  /** Cheaper units are full before dearer ones leave their minimum: for some unit of the list,
      all before it run at their maximum and all after it at their minimum. */
  ghost predicate InMeritOrder(units: seq<GenUnit>, ids: seq<nat>, p: map<nat, real>) {
    && InRange(units, ids, p)
    && exists k :: 0 <= k <= |ids| && SplitAt(units, ids, p, k)
  }

  ghost predicate SplitAt(units: seq<GenUnit>, ids: seq<nat>, p: map<nat, real>, k: nat)
    requires InRange(units, ids, p)
  {
    && (forall i :: 0 <= i < k && i < |ids| ==> p[ids[i]] == units[ids[i]].pmax)
    && (forall i :: k < i < |ids| ==> p[ids[i]] == units[ids[i]].pmin)
  }

  // ---- Merit order is cheapest --------------------------------------------------------

  /** Priced at the marginal unit's cost, no unit has anything to gain by moving. */
  lemma UnitGainsNothing(cost: real, price: real, p: real, q: real)
    requires (cost < price ==> q <= p) && (cost > price ==> p <= q)
    ensures Mul(cost, p) + Mul(price, q - p) <= Mul(cost, q)
  {
    if cost <= price {
      if cost < price { MulGe(q - p, cost, price); }
    } else {
      MulLe(q - p, price, cost);
    }
  }

  /** How far each unit moves, and what it would cost if every move were paid at one price. */
  function Moves(ids: seq<nat>, p: map<nat, real>, q: map<nat, real>): (v: map<nat, real>)
    requires Covers(p, ids) && Covers(q, ids)
    ensures Covers(v, ids) && forall i :: 0 <= i < |ids| ==> v[ids[i]] == q[ids[i]] - p[ids[i]]
  {
    map g: nat | g in ids :: q[g] - p[g]
  }

  function Repriced(units: seq<GenUnit>, ids: seq<nat>, p: map<nat, real>, q: map<nat, real>, price: real)
    : (v: map<nat, real>)
    requires Covers(p, ids) && Covers(q, ids) && forall i :: 0 <= i < |ids| ==> ids[i] < |units|
    ensures Covers(v, ids)
    ensures forall i :: 0 <= i < |ids| ==>
      v[ids[i]] == Mul(units[ids[i]].cost, p[ids[i]]) + Mul(price, q[ids[i]] - p[ids[i]])
  {
    map g: nat | g in ids :: Mul(units[g].cost, p[g]) + Mul(price, q[g] - p[g])
  }

  /** The price at the split: the cost of the unit that is neither full nor at its minimum. */
  function SplitPrice(units: seq<GenUnit>, ids: seq<nat>, k: nat): real
    requires ids != [] && forall i :: 0 <= i < |ids| ==> ids[i] < |units|
  {
    units[ids[if k < |ids| then k else |ids| - 1]].cost
  }

  /** A unit cheaper than the split price is full and cannot go up; a dearer one cannot go down. */
  lemma SplitSides(units: seq<GenUnit>, ids: seq<nat>, p: map<nat, real>, q: map<nat, real>, k: nat, i: nat)
    requires ByCost(units, ids) && InRange(units, ids, p) && InRange(units, ids, q)
    requires SplitAt(units, ids, p, k) && k <= |ids| && i < |ids|
    ensures units[ids[i]].cost < SplitPrice(units, ids, k) ==> q[ids[i]] <= p[ids[i]]
    ensures units[ids[i]].cost > SplitPrice(units, ids, k) ==> p[ids[i]] <= q[ids[i]]
  {
    var last := if k < |ids| then k else |ids| - 1;
    if i < last {
      assert units[ids[i]].cost <= units[ids[last]].cost;
      assert p[ids[i]] == units[ids[i]].pmax;
    } else if i > last {
      assert units[ids[last]].cost <= units[ids[i]].cost;
      assert p[ids[i]] == units[ids[i]].pmin;
    }
  }

  /** A dispatch in merit order has a price, the cost of one of its units, at which no other
      dispatch can buy or sell its difference in output and gain. */
  lemma MeritOrderHasPrice(units: seq<GenUnit>, ids: seq<nat>, p: map<nat, real>) returns (price: real)
    requires ids != [] && ByCost(units, ids) && InMeritOrder(units, ids, p)
    ensures exists g :: 0 <= g < |units| && units[g].cost == price
    ensures forall q :: InRange(units, ids, q) ==>
      CostOf(units, ids, p) + Mul(price, Total(ids, q) - Total(ids, p)) <= CostOf(units, ids, q)
  {
    hide Total, CostOf, InMeritOrder, SplitAt, ByCost, SplitPrice, Mul;
    var k := SplitOf(units, ids, p);
    price := SplitPrice(units, ids, k);
    forall q | InRange(units, ids, q)
      ensures CostOf(units, ids, p) + Mul(price, Total(ids, q) - Total(ids, p)) <= CostOf(units, ids, q)
    {
      NoTradeGains(units, ids, p, q, k);
    }
  }

  lemma SplitOf(units: seq<GenUnit>, ids: seq<nat>, p: map<nat, real>) returns (k: nat)
    requires ids != [] && InMeritOrder(units, ids, p)
    ensures InRange(units, ids, p) && k <= |ids| && SplitAt(units, ids, p, k)
    ensures exists g :: 0 <= g < |units| && units[g].cost == SplitPrice(units, ids, k)
  {
    k :| 0 <= k <= |ids| && SplitAt(units, ids, p, k);
    hide SplitAt;
    var g := ids[if k < |ids| then k else |ids| - 1];
    assert g < |units| && units[g].cost == SplitPrice(units, ids, k);
  }

  lemma NoTradeGains(units: seq<GenUnit>, ids: seq<nat>, p: map<nat, real>, q: map<nat, real>, k: nat)
    requires ids != [] && ByCost(units, ids) && InRange(units, ids, p) && InRange(units, ids, q)
    requires k <= |ids| && SplitAt(units, ids, p, k)
    ensures CostOf(units, ids, p) + Mul(SplitPrice(units, ids, k), Total(ids, q) - Total(ids, p))
            <= CostOf(units, ids, q)
  {
    hide Total, Fuel, Repriced, SplitAt, ByCost, SplitPrice, Mul;
    RepricedIsCheaper(units, ids, p, q, k);
    TotalRepriced(units, ids, p, q, SplitPrice(units, ids, k));
  }

  /** A dispatch in merit order is the cheapest of all dispatches with its total output. */
  lemma MeritOrderIsCheapest(units: seq<GenUnit>, ids: seq<nat>, p: map<nat, real>, q: map<nat, real>)
    requires ByCost(units, ids) && InMeritOrder(units, ids, p) && InRange(units, ids, q)
    requires Total(ids, p) == Total(ids, q)
    ensures CostOf(units, ids, p) <= CostOf(units, ids, q)
  {
    if ids != [] {
      hide Total, CostOf, InMeritOrder, ByCost;
      var price := MeritOrderHasPrice(units, ids, p);
      TimesZero(price, Total(ids, q) - Total(ids, p));
    }
  }

  lemma RepricedIsCheaper(units: seq<GenUnit>, ids: seq<nat>, p: map<nat, real>, q: map<nat, real>, k: nat)
    requires ids != [] && ByCost(units, ids) && InRange(units, ids, p) && InRange(units, ids, q)
    requires SplitAt(units, ids, p, k) && k <= |ids|
    ensures Total(ids, Repriced(units, ids, p, q, SplitPrice(units, ids, k))) <= Total(ids, Fuel(units, ids, q))
  {
    hide Total, Fuel, Repriced, SplitAt, ByCost, SplitPrice, Mul;
    var price := SplitPrice(units, ids, k);
    var bound, fuel := Repriced(units, ids, p, q, price), Fuel(units, ids, q);
    forall i | 0 <= i < |ids| ensures bound[ids[i]] <= fuel[ids[i]] {
      SplitSides(units, ids, p, q, k, i);
      UnitGainsNothing(units[ids[i]].cost, price, p[ids[i]], q[ids[i]]);
    }
    TotalLe(ids, bound, fuel);
  }

  lemma TotalMoves(ids: seq<nat>, p: map<nat, real>, q: map<nat, real>)
    requires Covers(p, ids) && Covers(q, ids)
    ensures Total(ids, Moves(ids, p, q)) == Total(ids, q) - Total(ids, p)
  {
    hide Total;
    TotalDifference(ids, q, p, Moves(ids, p, q));
  }

  lemma TimesZero(a: real, b: real)
    requires b == 0.0
    ensures Mul(a, b) == 0.0
  {
  }

  /** At a single price, the moves cost the price of the output they add. */
  lemma TotalRepriced(units: seq<GenUnit>, ids: seq<nat>, p: map<nat, real>, q: map<nat, real>, price: real)
    requires Covers(p, ids) && Covers(q, ids) && forall i :: 0 <= i < |ids| ==> ids[i] < |units|
    ensures Total(ids, Repriced(units, ids, p, q, price))
            == Total(ids, Fuel(units, ids, p)) + Mul(price, Total(ids, q) - Total(ids, p))
  {
    hide Mul, Total, Moves, Fuel, Repriced, IsPriced;
    TotalMoves(ids, p, q);
    RepricedIsPriced(units, ids, p, q, price);
    TotalPriced(ids, Fuel(units, ids, p), Moves(ids, p, q), Repriced(units, ids, p, q, price), price);
  }

  lemma RepricedIsPriced(units: seq<GenUnit>, ids: seq<nat>, p: map<nat, real>, q: map<nat, real>, price: real)
    requires Covers(p, ids) && Covers(q, ids) && forall i :: 0 <= i < |ids| ==> ids[i] < |units|
    ensures IsPriced(ids, Fuel(units, ids, p), Moves(ids, p, q), Repriced(units, ids, p, q, price), price)
  {
    hide Mul, Fuel, Repriced, Moves;
    forall i | 0 <= i < |ids|
      ensures Repriced(units, ids, p, q, price)[ids[i]]
              == Fuel(units, ids, p)[ids[i]] + Mul(price, Moves(ids, p, q)[ids[i]]) {
    }
  }

  // ---- One pattern --------------------------------------------------------------------

  lemma SameMembers(a: seq<nat>, b: seq<nat>)
    requires multiset(a) == multiset(b)
    ensures forall g: nat :: g in a <==> g in b
  {
    forall g: nat ensures g in a <==> g in b {
      assert g in a <==> g in multiset(a);
      assert g in b <==> g in multiset(b);
    }
  }

  lemma CostPermuted(units: seq<GenUnit>, a: seq<nat>, b: seq<nat>, p: map<nat, real>)
    requires multiset(a) == multiset(b) && InRange(units, a, p)
    ensures InRange(units, b, p) && Total(a, p) == Total(b, p) && CostOf(units, a, p) == CostOf(units, b, p)
    ensures Total(a, Maxima(units, a)) == Total(b, Maxima(units, b))
  {
    hide Total;
    SameMembers(a, b);
    forall i | 0 <= i < |b| ensures b[i] in a { assert b[i] in b; }
    TotalPermuted(a, b, p);
    assert Fuel(units, a, p) == Fuel(units, b, p);
    TotalPermuted(a, b, Fuel(units, a, p));
    assert Starts(units, a) == Starts(units, b);
    TotalPermuted(a, b, Starts(units, a));
    assert Maxima(units, a) == Maxima(units, b);
    TotalPermuted(a, b, Maxima(units, a));
  }

  /** A sum over a list of units. */
  method SumOf(ids: seq<nat>, v: map<nat, real>) returns (sum: real)
    requires Covers(v, ids)
    ensures sum == Total(ids, v)
  {
    sum := 0.0;
    for i := 0 to |ids|
      invariant sum == Total(ids[..i], v)
    {
      assert ids[..i + 1][..i] == ids[..i];
      sum := sum + v[ids[i]];
    }
    assert ids[..|ids|] == ids;
  }

  /** The state of the merit-order loop after i units. */
  ghost predicate Filling(t: Task, order: seq<nat>, output: map<nat, real>, shortfall: real, i: nat, split: nat) {
    && InRange(t.units, order, output) && i <= |order| && split <= |order|
    && SplitAt(t.units, order, output, split)
    && (forall l :: i <= l < |order| ==> output[order[l]] == t.units[order[l]].pmin)
    && (shortfall > 0.0 ==> split == i)
    && Total(order, output) == t.demand - shortfall
    && shortfall >= -t.guard
  }

  lemma FillingStep(t: Task, order: seq<nat>, output: map<nat, real>, shortfall: real, i: nat, split: nat)
    requires t.Valid() && Filling(t, order, output, shortfall, i, split) && Distinct(order) && i < |order|
      && shortfall > 0.0
    ensures var u := t.units[order[i]]; var take := Min(shortfall, u.pmax - u.pmin);
      Filling(t, order, output[order[i] := output[order[i]] + take], shortfall - take, i + 1,
              if take == u.pmax - u.pmin then i + 1 else i)
  {
    var u := t.units[order[i]];
    var take := Min(shortfall, u.pmax - u.pmin);
    TotalUpdate(order, output, i, take);
  }

  /** Buy the shortfall from the cheapest unit with headroom left, then the next. */
  method FillInMeritOrder(t: Task, order: seq<nat>, output0: map<nat, real>, shortfall0: real)
    returns (output: map<nat, real>, shortfall: real)
    requires t.Valid() && Distinct(order) && Filling(t, order, output0, shortfall0, 0, 0)
    ensures (forall g: nat :: g in output <==> g in output0) && InMeritOrder(t.units, order, output)
    ensures Total(order, output) == t.demand - shortfall && shortfall >= -t.guard
    ensures shortfall0 >= 0.0 ==> shortfall >= 0.0
    ensures shortfall > t.stop ==> forall l :: 0 <= l < |order| ==> output[order[l]] == t.units[order[l]].pmax
  {
    hide Total;
    output, shortfall := output0, shortfall0;
    var i := 0;
    ghost var split := 0;
    while i < |order|
      invariant Filling(t, order, output, shortfall, i, split) && output.Keys == output0.Keys
      invariant shortfall0 >= 0.0 ==> shortfall >= 0.0
      decreases |order| - i
    {
      if shortfall <= t.stop { break; }
      var g := order[i];
      var take := Min(shortfall, t.units[g].pmax - t.units[g].pmin);
      FillingStep(t, order, output, shortfall, i, split);
      split := if take == t.units[g].pmax - t.units[g].pmin then i + 1 else i;
      output := output[g := output[g] + take];
      shortfall := shortfall - take;
      i := i + 1;
    }
  }

  /** What the result for a pattern promises. */
  ghost predicate IsDispatch(t: Task, on: seq<nat>, cost: real, p: map<nat, real>) {
    && InRange(t.units, on, p) && (forall g: nat :: g in p <==> g in on)
    && cost == CostOf(t.units, on, p)
    && -Max(t.guard, t.stop) <= Total(on, p) - t.demand <= Max(t.guard, t.stop)
    && Total(on, Maxima(t.units, on)) >= t.reserve - t.guard
    && (forall q :: InRange(t.units, on, q) && Total(on, q) == Total(on, p) ==> cost <= CostOf(t.units, on, q))
    && forall q :: Serves(t, on, q) ==> NearlyServes(t, on, cost, p, q)
  }

  /** Against a dispatch that serves the load: the output is short of it by at most the stop
      guard, and costs no more but for what that shortage could have earned. */
  ghost predicate NearlyServes(t: Task, on: seq<nat>, cost: real, p: map<nat, real>, q: map<nat, real>)
    requires Covers(p, on) && Serves(t, on, q)
  {
    t.demand - t.stop <= Total(on, p) <= t.demand && cost <= CostOf(t.units, on, q) + Slack(t)
  }

  /** The largest amount a unit is paid per unit of output, zero when no cost is negative. */
  function Subsidy(units: seq<GenUnit>): real {
    var paid := seq(|units|, g requires 0 <= g < |units| => -units[g].cost);
    MaxTo(paid, |units|)
  }

  /** What stopping the greedy loop within the guard can cost. */
  function Slack(t: Task): real { Mul(t.stop, Subsidy(t.units)) }

  lemma SubsidyBounds(units: seq<GenUnit>)
    ensures Subsidy(units) >= 0.0 && forall g :: 0 <= g < |units| ==> -units[g].cost <= Subsidy(units)
    ensures (forall g :: 0 <= g < |units| ==> units[g].cost >= 0.0) ==> Subsidy(units) == 0.0
  {
    var paid := seq(|units|, g requires 0 <= g < |units| => -units[g].cost);
    MaxToBound(paid, |units|, 0.0);
    MaxToBound(paid, |units|, Subsidy(units));
    forall g | 0 <= g < |units| ensures -units[g].cost <= Subsidy(units) { assert paid[g] <= Subsidy(units); }
  }

  /** With exact guards, or when no unit is paid to run, stopping early costs nothing. */
  lemma NoSlack(t: Task)
    requires t.stop == 0.0 || forall g :: 0 <= g < |t.units| ==> t.units[g].cost >= 0.0
    ensures Slack(t) == 0.0
  {
    SubsidyBounds(t.units);
  }

  lemma ServedMeansRoom(t: Task, on: seq<nat>, q: map<nat, real>)
    requires Serves(t, on, q)
    ensures Total(on, Minima(t.units, on)) <= t.demand <= Total(on, Maxima(t.units, on))
  {
    TotalLe(on, Minima(t.units, on), q);
    TotalLe(on, q, Maxima(t.units, on));
  }

  /** The three guarded tests: too little capacity for the load, too much minimum output, too
      little capacity for the reserve. */
  predicate Refused(t: Task, on: seq<nat>)
    requires forall i :: 0 <= i < |on| ==> on[i] < |t.units|
  {
    || Total(on, Maxima(t.units, on)) < t.demand - t.guard
    || Total(on, Minima(t.units, on)) > t.demand + t.guard
    || Total(on, Maxima(t.units, on)) < t.reserve - t.guard
  }

  /** A share of the way from every minimum to every maximum. */
  function Between(units: seq<GenUnit>, ids: seq<nat>, share: real): (q: map<nat, real>)
    requires (forall i :: 0 <= i < |ids| ==> ids[i] < |units|)
    ensures Covers(q, ids)
    ensures forall i :: 0 <= i < |ids| ==>
      q[ids[i]] == units[ids[i]].pmin + Mul(share, units[ids[i]].pmax - units[ids[i]].pmin)
  {
    map g: nat | g in ids :: units[g].pmin + Mul(share, units[g].pmax - units[g].pmin)
  }

  lemma ShareInRange(lo: real, hi: real, share: real)
    requires lo <= hi && 0.0 <= share <= 1.0
    ensures lo <= lo + Mul(share, hi - lo) <= hi
  {
    var width := hi - lo;
    MulLe(share, 0.0, width);
    MulLe(width, share, 1.0);
    assert Mul(share, width) == share * width == width * share;
    hide Mul;
  }

  lemma BetweenTotal(t: Task, on: seq<nat>, share: real)
    requires t.Valid() && (forall i :: 0 <= i < |on| ==> on[i] < |t.units|) && 0.0 <= share <= 1.0
    ensures InRange(t.units, on, Between(t.units, on, share))
    ensures var least, most := Total(on, Minima(t.units, on)), Total(on, Maxima(t.units, on));
      Total(on, Between(t.units, on, share)) == least + Mul(share, most - least)
  {
    hide Total, Mul;
    var lo, hi, q := Minima(t.units, on), Maxima(t.units, on), Between(t.units, on, share);
    forall i | 0 <= i < |on| ensures t.units[on[i]].pmin <= q[on[i]] <= t.units[on[i]].pmax {
      ShareInRange(t.units[on[i]].pmin, t.units[on[i]].pmax, share);
    }
    TotalMoves(on, lo, hi);
    TotalPriced(on, lo, Moves(on, lo, hi), q, share);
  }

  /** Every total between the least and the most is the total of some output in range. */
  lemma TotalIsReached(t: Task, on: seq<nat>, total: real) returns (q: map<nat, real>)
    requires t.Valid() && forall i :: 0 <= i < |on| ==> on[i] < |t.units|
    requires Total(on, Minima(t.units, on)) <= total <= Total(on, Maxima(t.units, on))
    ensures InRange(t.units, on, q) && Total(on, q) == total
  {
    hide Total, InRange;
    var least, most := Total(on, Minima(t.units, on)), Total(on, Maxima(t.units, on));
    var share := if most == least then 0.0 else (total - least) / (most - least);
    ShareOf(total, least, most, share);
    BetweenTotal(t, on, share);
    q := Between(t.units, on, share);
  }

  lemma ShareOf(total: real, least: real, most: real, share: real)
    requires least <= total <= most && share == if most == least then 0.0 else (total - least) / (most - least)
    ensures 0.0 <= share <= 1.0 && least + Mul(share, most - least) == total
  {
    if most != least {
      var width := most - least;
      assert share * width == width * share == total - least;
      MulLt(width, share, 0.0);
      MulLt(width, 1.0, share);
    } else {
      MulZero(most - least);
    }
  }

  lemma RangeOfTotals(t: Task, on: seq<nat>, q: map<nat, real>)
    requires (forall i :: 0 <= i < |on| ==> on[i] < |t.units|) && InRange(t.units, on, q)
    ensures Total(on, Minima(t.units, on)) <= Total(on, q) <= Total(on, Maxima(t.units, on))
  {
    TotalLe(on, Minima(t.units, on), q);
    TotalLe(on, q, Maxima(t.units, on));
  }

  /** The output reaches the load to within the guard. */
  ghost predicate NearlyMeets(t: Task, on: seq<nat>, q: map<nat, real>) {
    InRange(t.units, on, q) && t.demand - t.guard <= Total(on, q) <= t.demand + t.guard
  }

  /** The tests refuse exactly the patterns of which no output reaches the load to within the guard, or all
      outputs stay below the reserve by more than it. */
  lemma RefusedMeans(t: Task, on: seq<nat>)
    requires t.Valid() && forall i :: 0 <= i < |on| ==> on[i] < |t.units|
    ensures Refused(t, on) <==>
      || (forall q :: !NearlyMeets(t, on, q))
      || (forall q :: InRange(t.units, on, q) ==> Total(on, q) < t.reserve - t.guard)
  {
    var least, most := Total(on, Minima(t.units, on)), Total(on, Maxima(t.units, on));
    MinimaBelowMaxima(t, on);
    hide Total, InRange;
    if Refused(t, on) {
      forall q | InRange(t.units, on, q) ensures least <= Total(on, q) <= most { RangeOfTotals(t, on, q); }
    } else {
      var q := TotalIsReached(t, on, Max(least, Min(t.demand, most)));
      assert NearlyMeets(t, on, q);
      var p := TotalIsReached(t, on, most);
      assert InRange(t.units, on, p) && !(Total(on, p) < t.reserve - t.guard);
    }
  }

  lemma MinimaBelowMaxima(t: Task, on: seq<nat>)
    requires t.Valid() && forall i :: 0 <= i < |on| ==> on[i] < |t.units|
    ensures Total(on, Minima(t.units, on)) <= Total(on, Maxima(t.units, on))
  {
    TotalLe(on, Minima(t.units, on), Maxima(t.units, on));
  }

  /** The cheapest dispatch for one commitment pattern, or none if it cannot serve the load. */
  method DispatchPattern(t: Task, pattern: seq<bool>) returns (r: Option<(real, map<nat, real>)>)
    requires t.Valid() && |pattern| == |t.units|
    ensures var on := On(pattern, |pattern|);
      && (r.None? <==> Refused(t, on)) && (r.None? ==> NoneServes(t, on))
      && (r.Some? ==> IsDispatch(t, on, r.value.0, r.value.1))
  {
    hide Total, IsDispatch;
    var on := On(pattern, |pattern|);
    var capacity := SumOf(on, Maxima(t.units, on));
    var least := SumOf(on, Minima(t.units, on));
    if capacity < t.demand - t.guard || least > t.demand + t.guard || capacity < t.reserve - t.guard {
      forall q ensures !Serves(t, on, q) {
        if Serves(t, on, q) { ServedMeansRoom(t, on, q); }
      }
      return None;
    }
    var cost, output := DispatchInMeritOrder(t, on, capacity, least);
    return Some((cost, output));
  }

  method DispatchInMeritOrder(t: Task, on: seq<nat>, capacity: real, least: real)
    returns (cost: real, output: map<nat, real>)
    requires t.Valid() && Distinct(on) && forall i :: 0 <= i < |on| ==> on[i] < |t.units|
    requires capacity == Total(on, Maxima(t.units, on)) && least == Total(on, Minima(t.units, on))
    requires capacity >= t.demand - t.guard && least <= t.demand + t.guard && capacity >= t.reserve - t.guard
    ensures IsDispatch(t, on, cost, output)
  {
    hide Total, Fuel, Starts, ByCost, CostOf, SplitAt, Sorted, Maxima, Minima, InMeritOrder, NearlyServes;
    output := Minima(t.units, on);
    assert InRange(t.units, on, output);
    var order := Sorted(t.units, on);
    CostPermuted(t.units, on, order, output);
    SortedIsDistinct(on, order);
    var shortfall := t.demand - least;
    StartFilling(t, order, output, shortfall);
    output, shortfall := FillInMeritOrder(t, order, output, shortfall);
    RangeOfMeritOrder(t.units, order, output);
    CostPermuted(t.units, order, on, output);
    FilledWithin(t, order, output, shortfall, capacity);
    cost := MeasureCost(t.units, on, output);
    CheapestOfItsTotal(t.units, on, order, output);
    forall q | Serves(t, on, q) ensures NearlyServes(t, on, cost, output, q) {
      ServedMeansRoom(t, on, q);
      NearlyCheapest(t, on, order, output, q, shortfall);
    }
  }

  lemma RangeOfMeritOrder(units: seq<GenUnit>, ids: seq<nat>, p: map<nat, real>)
    requires InMeritOrder(units, ids, p)
    ensures InRange(units, ids, p)
  {
  }

  /** The greedy output against a dispatch that serves the load. */
  lemma NearlyCheapest(t: Task, on: seq<nat>, order: seq<nat>, p: map<nat, real>, q: map<nat, real>, shortfall: real)
    requires t.Valid() && multiset(on) == multiset(order) && ByCost(t.units, order) && InMeritOrder(t.units, order, p)
    requires InRange(t.units, on, p) && Serves(t, on, q)
    requires Total(order, p) == t.demand - shortfall && shortfall >= 0.0
    requires shortfall > t.stop ==> forall l :: 0 <= l < |order| ==> p[order[l]] == t.units[order[l]].pmax
    ensures NearlyServes(t, on, CostOf(t.units, on, p), p, q)
  {
    hide Total, CostOf, ByCost, InMeritOrder, Maxima, Slack;
    CostPermuted(t.units, on, order, q);
    CostPermuted(t.units, on, order, p);
    ServedMeansRoom(t, on, q);
    if shortfall > t.stop { TotalSame(order, p, Maxima(t.units, order)); }
    if order == [] {
      EmptyCosts(t.units, order, p, q);
      ShortageEarns(t, 0.0, shortfall);
    } else {
      var price := MeritOrderHasPrice(t.units, order, p);
      ShortageEarns(t, price, shortfall);
    }
  }

  lemma EmptyCosts(units: seq<GenUnit>, ids: seq<nat>, p: map<nat, real>, q: map<nat, real>)
    requires ids == [] && Covers(p, ids) && Covers(q, ids)
    ensures CostOf(units, ids, p) == CostOf(units, ids, q)
  {
  }

  /** A shortage within the guard, sold at the cost of a unit, earns at most the slack. */
  lemma ShortageEarns(t: Task, price: real, shortfall: real)
    requires 0.0 <= shortfall <= t.stop
    requires price == 0.0 || exists g :: 0 <= g < |t.units| && t.units[g].cost == price
    ensures -Mul(price, shortfall) <= Slack(t)
  {
    SubsidyBounds(t.units);
    var subsidy := Subsidy(t.units);
    NegatedProduct(price, shortfall);
    ProductBelow(-price, shortfall, subsidy, t.stop);
  }

  lemma ProductBelow(a: real, b: real, c: real, d: real)
    requires a <= c && 0.0 <= b <= d && c >= 0.0
    ensures Mul(a, b) <= Mul(d, c)
  {
    MulLe(b, a, c);
    MulLe(c, b, d);
  }

  lemma CheapestOfItsTotal(units: seq<GenUnit>, on: seq<nat>, order: seq<nat>, p: map<nat, real>)
    requires multiset(on) == multiset(order) && ByCost(units, order) && InMeritOrder(units, order, p)
      && InRange(units, on, p)
    ensures forall q :: InRange(units, on, q) && Total(on, q) == Total(on, p) ==>
      CostOf(units, on, p) <= CostOf(units, on, q)
  {
    forall q | InRange(units, on, q) && Total(on, q) == Total(on, p)
      ensures CostOf(units, on, p) <= CostOf(units, on, q)
    {
      CheapestOfTotal(units, on, order, p, q);
    }
  }

  lemma CheapestOfTotal(units: seq<GenUnit>, on: seq<nat>, order: seq<nat>, p: map<nat, real>, q: map<nat, real>)
    requires multiset(on) == multiset(order) && ByCost(units, order) && InMeritOrder(units, order, p)
    requires InRange(units, on, p) && InRange(units, on, q) && Total(on, q) == Total(on, p)
    ensures CostOf(units, on, p) <= CostOf(units, on, q)
  {
    hide Total, CostOf, SplitAt, ByCost, Maxima;
    CostPermuted(units, on, order, q);
    CostPermuted(units, order, on, p);
    MeritOrderIsCheapest(units, order, p, q);
  }

  method MeasureCost(units: seq<GenUnit>, on: seq<nat>, p: map<nat, real>) returns (cost: real)
    requires Covers(p, on) && forall i :: 0 <= i < |on| ==> on[i] < |units|
    ensures cost == CostOf(units, on, p)
  {
    var fuel := SumOf(on, Fuel(units, on, p));
    var start := SumOf(on, Starts(units, on));
    cost := fuel + start;
  }

  lemma StartFilling(t: Task, order: seq<nat>, output: map<nat, real>, shortfall: real)
    requires t.Valid() && InRange(t.units, order, output) && Total(order, output) == t.demand - shortfall
    requires forall i :: 0 <= i < |order| ==> output[order[i]] == t.units[order[i]].pmin
    requires shortfall >= -t.guard
    ensures Filling(t, order, output, shortfall, 0, 0)
  {
  }

  lemma SortedIsDistinct(on: seq<nat>, order: seq<nat>)
    requires Distinct(on) && multiset(on) == multiset(order)
    ensures Distinct(order)
  {
    forall i, j | 0 <= i < j < |order| ensures order[i] != order[j] {
      if order[i] == order[j] {
        MultiplicityTwo(order, i, j);
        MultiplicityOne(on, order[i]);
        assert false;
      }
    }
  }

  lemma MultiplicityTwo(ids: seq<nat>, i: nat, j: nat)
    requires i < j < |ids| && ids[i] == ids[j]
    ensures multiset(ids)[ids[i]] >= 2
  {
    assert ids == ids[..i] + [ids[i]] + ids[i + 1..j] + [ids[j]] + ids[j + 1..];
  }

  lemma {:induction false} MultiplicityOne(ids: seq<nat>, g: nat)
    requires Distinct(ids)
    ensures multiset(ids)[g] <= 1
  {
    if ids != [] {
      var n := |ids| - 1;
      MultiplicityOne(ids[..n], g);
      assert ids == ids[..n] + [ids[n]];
      if g == ids[n] { assert g !in ids[..n]; assert g !in multiset(ids[..n]); }
    }
  }

  /** Whatever is left when the loop ends is within the guards. */
  lemma FilledWithin(t: Task, order: seq<nat>, output: map<nat, real>, shortfall: real, capacity: real)
    requires t.Valid() && InRange(t.units, order, output) && Total(order, output) == t.demand - shortfall
    requires capacity == Total(order, Maxima(t.units, order)) >= t.demand - t.guard && shortfall >= -t.guard
    requires shortfall > t.stop ==> forall l :: 0 <= l < |order| ==> output[order[l]] == t.units[order[l]].pmax
    ensures -Max(t.guard, t.stop) <= Total(order, output) - t.demand <= Max(t.guard, t.stop)
  {
    if shortfall > t.stop { TotalSame(order, output, Maxima(t.units, order)); }
  }

  /** With the float guards at zero, the result is a cheapest dispatch that serves the load, and
      there is none exactly when no dispatch serves it. */
  lemma ExactDispatch(t: Task, on: seq<nat>, cost: real, p: map<nat, real>)
    requires t.Valid() && t.guard == 0.0 && t.stop == 0.0 && IsDispatch(t, on, cost, p)
    ensures Serves(t, on, p) && cost == CostOf(t.units, on, p)
    ensures forall q :: Serves(t, on, q) ==> cost <= CostOf(t.units, on, q)
  {
  }

  // ---- Every pattern ------------------------------------------------------------------

  /** All on/off patterns of n units, in counting order. */
  function Patterns(n: nat): (ps: seq<seq<bool>>)
    ensures forall i :: 0 <= i < |ps| ==> |ps[i]| == n
  {
    if n == 0 then [[]] else
      var rest := Patterns(n - 1);
      Prefixed(false, rest) + Prefixed(true, rest)
  }

  function Prefixed(b: bool, ps: seq<seq<bool>>): (r: seq<seq<bool>>)
    ensures |r| == |ps| && forall i :: 0 <= i < |ps| ==> r[i] == [b] + ps[i]
  {
    seq(|ps|, i requires 0 <= i < |ps| => [b] + ps[i])
  }

  lemma PrefixedHas(b: bool, ps: seq<seq<bool>>, p: seq<bool>)
    requires p in ps
    ensures [b] + p in Prefixed(b, ps)
  {
    var i :| 0 <= i < |ps| && ps[i] == p;
    assert Prefixed(b, ps)[i] == [b] + p;
  }

  /** Every pattern is listed, and there are 2^n of them. */
  lemma {:induction false} PatternsAreAll(pattern: seq<bool>)
    ensures pattern in Patterns(|pattern|)
    ensures |Patterns(|pattern|)| == Power2(|pattern|)
  {
    hide Prefixed;
    if pattern == [] {
      assert Patterns(0) == [[]];
    } else {
      PatternsAreAll(pattern[1..]);
      PrefixedHas(pattern[0], Patterns(|pattern| - 1), pattern[1..]);
      assert pattern == [pattern[0]] + pattern[1..];
    }
  }

  function Power2(n: nat): nat { if n == 0 then 1 else 2 * Power2(n - 1) }

  const IMPROVEMENT: real := 0.000000001

  datatype Best = Best(cost: real, pattern: seq<bool>, output: map<nat, real>)

  predicate Exact(t: Task) { t.guard == 0.0 && t.stop == 0.0 }

  /** The running best covers a pattern: it exists when the pattern can serve the load, and costs
      at most 1e-9, and the slack of the stop guard, more than any way of doing so. */
  ghost predicate CoversPattern(t: Task, best: Option<Best>, on: seq<nat>) {
    forall q :: Serves(t, on, q) ==>
      best.Some? && best.value.cost <= CostOf(t.units, on, q) + Slack(t) + IMPROVEMENT
  }

  ghost predicate IsCandidate(t: Task, best: Best) {
    |best.pattern| == |t.units| && IsDispatch(t, On(best.pattern, |t.units|), best.cost, best.output)
  }

  /** The search: the running best is replaced only by a pattern cheaper by more than 1e-9. */
  method Search(t: Task) returns (best: Option<Best>)
    requires t.Valid()
    ensures best.Some? ==> IsCandidate(t, best.value)
    ensures forall pattern: seq<bool> :: |pattern| == |t.units| ==> CoversPattern(t, best, On(pattern, |t.units|))
  {
    hide IsDispatch, On, CostOf;
    best := None;
    var patterns := Patterns(|t.units|);
    for i := 0 to |patterns|
      invariant best.Some? ==> IsCandidate(t, best.value)
      invariant forall j :: 0 <= j < i ==> CoversPattern(t, best, On(patterns[j], |t.units|))
    {
      var r := DispatchPattern(t, patterns[i]);
      assert |patterns[i]| == |t.units|;
      ghost var before := best;
      if r.Some? {
        var (cost, output) := r.value;
        if best.None? || cost < best.value.cost - IMPROVEMENT {
          best := Some(Best(cost, patterns[i], output));
        }
        DispatchCovers(t, best, On(patterns[i], |t.units|), cost, output);
      } else {
        NothingToCover(t, best, On(patterns[i], |t.units|));
      }
      forall j | 0 <= j < i ensures CoversPattern(t, best, On(patterns[j], |t.units|)) {
        StillCovers(t, before, best, On(patterns[j], |t.units|));
      }
    }
    forall pattern: seq<bool> | |pattern| == |t.units| ensures CoversPattern(t, best, On(pattern, |t.units|)) {
      PatternsAreAll(pattern);
      var i :| 0 <= i < |patterns| && patterns[i] == pattern;
    }
  }

  lemma DispatchCovers(t: Task, best: Option<Best>, on: seq<nat>, cost: real, p: map<nat, real>)
    requires t.Valid() && IsDispatch(t, on, cost, p) && best.Some? && best.value.cost <= cost + IMPROVEMENT
    ensures CoversPattern(t, best, on)
  {
    hide Slack, CostOf;
    forall q | Serves(t, on, q) ensures best.value.cost <= CostOf(t.units, on, q) + Slack(t) + IMPROVEMENT {
      assert NearlyServes(t, on, cost, p, q);
    }
  }

  lemma NothingToCover(t: Task, best: Option<Best>, on: seq<nat>)
    ensures NoneServes(t, on) ==> CoversPattern(t, best, on)
  {
  }

  lemma StillCovers(t: Task, before: Option<Best>, after: Option<Best>, on: seq<nat>)
    requires CoversPattern(t, before, on) && (before.Some? ==> after.Some? && after.value.cost <= before.value.cost)
    ensures CoversPattern(t, after, on)
  {
  }

  // ---- The unit-commitment model ------------------------------------------------------

  /** The rows and bounds of the unit-commitment MILP: output p and on/off u per unit. */
  ghost predicate MilpFeasible(t: Task, u: seq<bool>, p: seq<real>) {
    && |u| == |p| == |t.units|
    && Sum(p) == t.demand
    && Sum(Capacity(t.units, u)) >= t.reserve
    && forall g :: 0 <= g < |p| ==>
         && 0.0 <= p[g] <= t.units[g].pmax
         && p[g] - (if u[g] then t.units[g].pmax else 0.0) <= 0.0
         && p[g] - (if u[g] then t.units[g].pmin else 0.0) >= 0.0
  }

  function Capacity(units: seq<GenUnit>, u: seq<bool>): (r: seq<real>)
    requires |u| == |units|
    ensures |r| == |u|
    ensures forall g :: 0 <= g < |u| ==> r[g] == if u[g] then units[g].pmax else 0.0
  {
    seq(|u|, g requires 0 <= g < |u| => if u[g] then units[g].pmax else 0.0)
  }

  /** cost * output plus start-up, per unit. */
  function MilpCosts(units: seq<GenUnit>, u: seq<bool>, p: seq<real>): (r: seq<real>)
    requires |u| == |p| == |units|
    ensures |r| == |u|
    ensures forall g :: 0 <= g < |u| ==> r[g] == Mul(units[g].cost, p[g]) + (if u[g] then units[g].start else 0.0)
  {
    seq(|u|, g requires 0 <= g < |u| => Mul(units[g].cost, p[g]) + (if u[g] then units[g].start else 0.0))
  }

  function MilpCost(t: Task, u: seq<bool>, p: seq<real>): real
    requires |u| == |p| == |t.units|
  {
    Sum(MilpCosts(t.units, u, p))
  }

  /** The committed units' outputs as a dictionary, and a dictionary as a full vector. */
  function Chosen(u: seq<bool>, p: seq<real>): (v: map<nat, real>)
    requires |u| == |p|
    ensures forall g: nat :: g in v <==> g < |u| && u[g]
    ensures forall g: nat :: g in v ==> v[g] == p[g]
  {
    map g: nat | g < |u| && u[g] :: p[g]
  }

  function Everywhere(u: seq<bool>, v: map<nat, real>): (p: seq<real>)
    ensures |p| == |u|
    ensures forall g :: 0 <= g < |u| ==> p[g] == if u[g] && g in v then v[g] else 0.0
  {
    seq(|u|, g requires 0 <= g < |u| => if u[g] && g in v then v[g] else 0.0)
  }

  lemma TotalAppend(ids: seq<nat>, g: nat, v: map<nat, real>)
    requires Covers(v, ids) && g in v
    ensures Covers(v, ids + [g]) && Total(ids + [g], v) == Total(ids, v) + v[g]
  {
    assert (ids + [g])[..|ids|] == ids;
  }

  lemma EmptyTotal(v: map<nat, real>)
    ensures Covers(v, []) && Total([], v) == 0.0
  {
  }

  lemma OnCovered(u: seq<bool>, v: map<nat, real>, k: nat)
    requires k <= |u| && forall g: nat :: g < |u| && u[g] ==> g in v
    ensures Covers(v, On(u, k))
  {
    hide On;
  }

  /** A sum over all units whose off units contribute nothing is the total over the units on. */
  lemma {:induction false} SumIsTotal(u: seq<bool>, s: seq<real>, v: map<nat, real>, k: nat)
    requires k <= |u| == |s| && forall g: nat :: g < |u| && u[g] ==> g in v
    requires forall g: nat :: g < |u| && u[g] ==> s[g] == v[g]
    requires forall g: nat :: g < |u| && !u[g] ==> s[g] == 0.0
    ensures Covers(v, On(u, k)) && SumTo(s, k) == Total(On(u, k), v)
  {
    hide Total;
    OnCovered(u, v, k);
    if k == 0 {
      EmptyTotal(v);
    } else {
      SumIsTotal(u, s, v, k - 1);
      if u[k - 1] { TotalAppend(On(u, k - 1), k - 1, v); }
      OnStep(u, k);
    }
  }

  lemma OnStep(u: seq<bool>, k: nat)
    requires 0 < k <= |u|
    ensures On(u, k) == if u[k - 1] then On(u, k - 1) + [k - 1] else On(u, k - 1)
  {
  }

  /** A point of the MILP is a dispatch of its committed units, at the same cost. */
  lemma MilpIsServed(t: Task, u: seq<bool>, p: seq<real>)
    requires t.Valid() && MilpFeasible(t, u, p)
    ensures var on := On(u, |u|); Serves(t, on, Chosen(u, p)) && CostOf(t.units, on, Chosen(u, p)) == MilpCost(t, u, p)
  {
    hide Total, On, SumTo, Capacity, CostOf, MilpCost, Chosen, Maxima;
    var on, v := On(u, |u|), Chosen(u, p);
    SumIsTotal(u, p, v, |u|);
    CapacityIsMaxima(t.units, u);
    forall i | 0 <= i < |on| ensures t.units[on[i]].pmin <= v[on[i]] <= t.units[on[i]].pmax {
      assert on[i] in on;
    }
    CostsAgree(t, u, p, v);
  }

  lemma CapacityIsMaxima(units: seq<GenUnit>, u: seq<bool>)
    requires |u| == |units|
    ensures Sum(Capacity(units, u)) == Total(On(u, |u|), Maxima(units, On(u, |u|)))
  {
    hide Total, On, SumTo;
    var on := On(u, |u|);
    InDomain(u, Maxima(units, on));
    forall g: nat | g < |u| && u[g] ensures Maxima(units, on)[g] == units[g].pmax { IndexOf(on, g); }
    SumIsTotal(u, Capacity(units, u), Maxima(units, on), |u|);
  }

  lemma InDomain(u: seq<bool>, v: map<nat, real>)
    requires Covers(v, On(u, |u|))
    ensures forall g: nat :: g < |u| && u[g] ==> g in v
  {
    hide On;
    forall g: nat | g < |u| && u[g] ensures g in v { IndexOf(On(u, |u|), g); }
  }

  lemma IndexOf(ids: seq<nat>, g: nat)
    requires g in ids
    ensures exists i :: 0 <= i < |ids| && ids[i] == g
  {
  }

  lemma CostsAgree(t: Task, u: seq<bool>, p: seq<real>, v: map<nat, real>)
    requires |u| == |p| == |t.units| && Covers(v, On(u, |u|))
    requires forall g: nat :: g < |u| && u[g] ==> g in v && p[g] == v[g]
    requires forall g: nat :: g < |u| && !u[g] ==> p[g] == 0.0
    ensures CostOf(t.units, On(u, |u|), v) == MilpCost(t, u, p)
  {
    hide Total, On, SumTo, Mul;
    var on := On(u, |u|);
    var fuel, start := Fuel(t.units, on, v), Starts(t.units, on);
    InDomain(u, fuel);
    InDomain(u, start);
    var fuelTerms := seq(|u|, g requires 0 <= g < |u| => if u[g] then Mul(t.units[g].cost, p[g]) else 0.0);
    var startTerms := seq(|u|, g requires 0 <= g < |u| => if u[g] then t.units[g].start else 0.0);
    forall g: nat | g < |u| && u[g] ensures fuelTerms[g] == fuel[g] && startTerms[g] == start[g] { IndexOf(on, g); }
    SumIsTotal(u, fuelTerms, fuel, |u|);
    SumIsTotal(u, startTerms, start, |u|);
    var costs := MilpCosts(t.units, u, p);
    forall g | 0 <= g < |u| ensures costs[g] == fuelTerms[g] + startTerms[g] {
      if !u[g] { TimesZero(t.units[g].cost, p[g]); }
    }
    SumToAdd(fuelTerms, startTerms, costs, |u|);
  }

  lemma {:induction false} SumToAdd(a: seq<real>, b: seq<real>, c: seq<real>, k: nat)
    requires k <= |a| && k <= |b| && k <= |c| && forall i :: 0 <= i < k ==> c[i] == a[i] + b[i]
    ensures SumTo(c, k) == SumTo(a, k) + SumTo(b, k)
  {
    if k > 0 { SumToAdd(a, b, c, k - 1); }
  }

  /** A dispatch of a pattern is a point of the MILP, at the same cost. */
  lemma ServedIsMilp(t: Task, u: seq<bool>, v: map<nat, real>)
    requires t.Valid() && |u| == |t.units| && Serves(t, On(u, |u|), v)
    ensures MilpFeasible(t, u, Everywhere(u, v)) && CostOf(t.units, On(u, |u|), v) == MilpCost(t, u, Everywhere(u, v))
  {
    hide Total, On, SumTo;
    var on, p := On(u, |u|), Everywhere(u, v);
    InDomain(u, v);
    SumIsTotal(u, p, v, |u|);
    CapacityIsMaxima(t.units, u);
    forall g: nat | g < |u| && u[g] ensures t.units[g].pmin <= p[g] <= t.units[g].pmax { IndexOf(on, g); }
    CostsAgree(t, u, p, v);
  }

  /** The oracle against the model it is an oracle for, at any guards. No point of the MILP is
      cheaper than the best by more than 1e-9 and the slack, and there is none when nothing is
      found. With exact guards the best pattern and output are a point of the MILP at their
      stated cost. */
  lemma SearchIsOptimal(t: Task, best: Option<Best>)
    requires t.Valid() && (best.Some? ==> IsCandidate(t, best.value))
    requires forall pattern: seq<bool> :: |pattern| == |t.units| ==> CoversPattern(t, best, On(pattern, |t.units|))
    ensures Exact(t) && best.Some? ==>
      var u, p := best.value.pattern, Everywhere(best.value.pattern, best.value.output);
      MilpFeasible(t, u, p) && best.value.cost == MilpCost(t, u, p)
    ensures forall u, p :: MilpFeasible(t, u, p) ==>
      best.Some? && best.value.cost <= MilpCost(t, u, p) + Slack(t) + 0.000000001
    ensures Exact(t) || (forall g :: 0 <= g < |t.units| ==> t.units[g].cost >= 0.0) ==> Slack(t) == 0.0
  {
    assert IMPROVEMENT == 0.000000001;
    hide On, Total, CostOf, MilpCost, IMPROVEMENT, Slack;
    if Exact(t) && best.Some? {
      var b := best.value;
      ExactDispatch(t, On(b.pattern, |t.units|), b.cost, b.output);
      ServedIsMilp(t, b.pattern, b.output);
    }
    forall u, p | MilpFeasible(t, u, p)
      ensures best.Some? && best.value.cost <= MilpCost(t, u, p) + Slack(t) + IMPROVEMENT
    {
      MilpIsServed(t, u, p);
      assert CoversPattern(t, best, On(u, |t.units|));
    }
    if Exact(t) || (forall g :: 0 <= g < |t.units| ==> t.units[g].cost >= 0.0) { NoSlack(t); }
  }
}
