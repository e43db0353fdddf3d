/** The operating plan of the refinery generator: throughputs, purchases, stocks, production and
    sales, feasible for every balance by construction, on the decimal grid the file needs. */
module RefineryPlan {
  import opened Vectors
  import opened Grids

  const PLAN_RANGE: nat := 40
  const STOCK_SLACK: nat := 5

  type PlanStep = v: nat | v <= PLAN_RANGE
  type Purchase = v: nat | v <= PLAN_RANGE / 4
  type Tenths = v: nat | v <= 10
  type TankSlack = v: nat | v <= STOCK_SLACK

  datatype Size = Size(periods: nat, crudes: nat, products: nat) {
    predicate Valid() { periods >= 1 && crudes >= 2 && products >= 2 }

    /** The distillation capacity, in whole barrels. */
    function Capacity(): (c: real)
      ensures Whole(c) && (crudes >= 1 ==> c >= 1.0)
    {
      var barrels := PLAN_RANGE * crudes / 2;
      WholeOf(barrels);
      barrels as real
    }
  }

  /** recovery[j][k] (the yields) and loads[u][k] in hundredths, qualities[s][k] in thousandths; the product each
      specification is about and the products with a commitment. */
  datatype Data = Data(
    recovery: seq<seq<real>>, loads: seq<seq<real>>, qualities: seq<seq<real>>,
    specProduct: seq<nat>, commitProducts: seq<nat>)
  {
    predicate Valid(s: Size) {
      && |recovery| == s.products && |specProduct| == |qualities|
      && (forall j :: 0 <= j < |recovery| ==>
          |recovery[j]| == s.crudes && AllParts(recovery[j], 100.0) && AllNonneg(recovery[j]))
      && (forall u :: 0 <= u < |loads| ==> |loads[u]| == s.crudes && AllParts(loads[u], 100.0))
      && (forall i :: 0 <= i < |qualities| ==> |qualities[i]| == s.crudes && AllParts(qualities[i], 1000.0))
      && (forall i :: 0 <= i < |specProduct| ==> specProduct[i] < s.products)
      && (forall i :: 0 <= i < |commitProducts| ==> commitProducts[i] < s.products)
    }
  }

  predicate AllNonneg(v: seq<real>) {
    forall i :: 0 <= i < |v| ==> v[i] >= 0.0
  }

  // ---- Yields ---------------------------------------------------------------------------

  /** A sorted sample of cut points from 1..99 and a last one after them, at most 100. */
  predicate ValidCut(cut: seq<nat>, last: nat, products: nat) {
    && |cut| + 1 == products && |cut| >= 1
    && 1 <= cut[0] && cut[|cut| - 1] < last <= 100
    && forall i :: 0 < i < |cut| ==> cut[i - 1] < cut[i]
  }

  /** The j-th part between consecutive cut points. */
  function PartOf(cut: seq<nat>, last: nat, j: nat): int {
    (if j < |cut| then cut[j] else last) - (if 0 < j <= |cut| then cut[j - 1] else 0)
  }

  function PartsTo(cut: seq<nat>, last: nat, j: nat): int
    requires j <= |cut| + 1
  {
    if j == 0 then 0 else PartsTo(cut, last, j - 1) + PartOf(cut, last, j - 1)
  }

  /** The parts telescope: together a crude's yields are the last cut point, at most all of it. */
  lemma {:induction false} PartsTelescope(cut: seq<nat>, last: nat, j: nat)
    requires 1 <= j <= |cut| + 1
    ensures PartsTo(cut, last, j) == if j <= |cut| then cut[j - 1] else last
  {
    if j > 1 { PartsTelescope(cut, last, j - 1); }
  }

  lemma YieldsSumToAtMostOne(cut: seq<nat>, last: nat, products: nat)
    requires ValidCut(cut, last, products)
    ensures PartsTo(cut, last, products) == last <= 100
    ensures forall j :: 0 <= j < products ==> PartOf(cut, last, j) >= 1
  {
    PartsTelescope(cut, last, products);
  }

  lemma HundredthOf(n: int)
    ensures Parts(n as real / 100.0, 100.0)
  {
    WholeOf(n);
    assert 100.0 * (n as real / 100.0) == n as real;
  }

  method ChooseYields(s: Size, cut: nat -> seq<nat>, last: nat -> nat) returns (recovery: seq<seq<real>>)
    requires s.Valid() && forall k :: 0 <= k < s.crudes ==> ValidCut(cut(k), last(k), s.products)
    ensures |recovery| == s.products
    ensures forall j :: 0 <= j < s.products ==>
      |recovery[j]| == s.crudes && AllParts(recovery[j], 100.0) && AllNonneg(recovery[j])
    ensures forall j, k :: 0 <= j < s.products && 0 <= k < s.crudes ==>
      recovery[j][k] == PartOf(cut(k), last(k), j) as real / 100.0
  {
    recovery := seq(s.products, _ => Zeros(s.crudes));
    for k := 0 to s.crudes
      invariant |recovery| == s.products && forall j :: 0 <= j < s.products ==> |recovery[j]| == s.crudes
      invariant forall j, q :: 0 <= j < s.products && 0 <= q < k ==>
        recovery[j][q] == PartOf(cut(q), last(q), j) as real / 100.0
    {
      for j := 0 to s.products
        invariant |recovery| == s.products && forall i :: 0 <= i < s.products ==> |recovery[i]| == s.crudes
        invariant forall i, q :: 0 <= i < s.products && 0 <= q < k ==>
          recovery[i][q] == PartOf(cut(q), last(q), i) as real / 100.0
        invariant forall i :: 0 <= i < j ==> recovery[i][k] == PartOf(cut(k), last(k), i) as real / 100.0
      {
        recovery := recovery[j := recovery[j][k := PartOf(cut(k), last(k), j) as real / 100.0]];
      }
    }
    forall j, k | 0 <= j < s.products && 0 <= k < s.crudes
        ensures Parts(recovery[j][k], 100.0) && recovery[j][k] >= 0.0 {
      HundredthOf(PartOf(cut(k), last(k), j));
      YieldsSumToAtMostOne(cut(k), last(k), s.products);
    }
  }

  // ---- Throughput -----------------------------------------------------------------------

  method Total(v: seq<real>) returns (sum: real)
    ensures sum == Sum(v)
  {
    sum := 0.0;
    for k := 0 to |v|
      invariant sum == SumTo(v, k)
    {
      sum := sum + v[k];
    }
  }

  /** Each draw scaled and rounded down. */
  function Floors(draw: seq<real>, scale: real): (r: seq<real>)
    ensures |r| == |draw| && forall k :: 0 <= k < |r| ==> r[k] == Mul(draw[k], scale).Floor as real
  {
    seq(|draw|, k requires 0 <= k < |draw| => Mul(draw[k], scale).Floor as real)
  }

  lemma FloorFacts(d: real, scale: real)
    requires d >= 0.0 && scale >= 0.0
    ensures 0.0 <= Mul(d, scale).Floor as real <= scale * d && Whole(Mul(d, scale).Floor as real)
  {
    WholeOf(Mul(d, scale).Floor);
    MulLe(scale, 0.0, d);
    var f := Mul(d, scale);
    assert f >= 0.0 && f.Floor as real <= f < f.Floor as real + 1.0;
    assert f.Floor > -1;
  }

  /** Rounding down only lowers the total. */
  lemma FloorsFit(draw: seq<real>, scale: real)
    requires AllNonneg(draw) && scale >= 0.0
    ensures AllNonneg(Floors(draw, scale)) && AllParts(Floors(draw, scale), 1.0)
    ensures Sum(Floors(draw, scale)) <= scale * Sum(draw)
  {
    var r := Floors(draw, scale);
    var zero := Zeros(|draw|);
    forall k | 0 <= k < |draw| ensures 0.0 <= r[k] <= zero[k] + scale * draw[k] && Parts(r[k], 1.0) {
      FloorFacts(draw[k], scale);
    }
    SumToBound(r, zero, draw, scale, |draw|);
    SumToZero(zero, |draw|);
  }

  lemma {:induction false} SumUpdate(v: seq<real>, i: nat, t: real, k: nat)
    requires i < |v| && k <= |v|
    ensures SumTo(v[i := v[i] + t], k) == SumTo(v, k) + if i < k then t else 0.0
  {
    if k > 0 { SumUpdate(v, i, t, k - 1); }
  }

  lemma ScaleUndoes(a: real, total: real)
    requires total > 0.0
    ensures a / total * total == a
    ensures a >= 0.0 ==> a / total >= 0.0
  {
  }

  /** The first crude takes whatever is missing to capacity, whether it runs or not. */
  function WithRemainder(draw: seq<real>, capacity: real): (run: seq<real>)
    requires |draw| >= 1
    ensures |run| == |draw|
  {
    draw[0 := draw[0] + (capacity - Sum(draw))]
  }

  /** A tight period with anything drawn runs its scaled-down parts and the remainder, which is
      capacity exactly; a loose one runs the draw, or its scaled-down parts strictly below capacity. */
  predicate Throughput(draw: seq<real>, tight: bool, capacity: real, run: seq<real>)
    requires |draw| >= 1
  {
    if tight && Sum(draw) > 0.0
    then run == WithRemainder(Floors(draw, capacity / Sum(draw)), capacity) && Sum(run) == capacity
    else if Sum(draw) > Max(0.0, capacity) then run == Floors(draw, (capacity - 1.0) / Sum(draw))
    else run == draw
  }

  /** The period's throughputs: at capacity exactly when the period is tight and anything was
      drawn, within it otherwise, and always whole barrels. */
  method ChooseThroughput(draw: seq<real>, tight: bool, capacity: real) returns (run: seq<real>)
    requires |draw| >= 1 && AllParts(draw, 1.0) && AllNonneg(draw) && Whole(capacity) && capacity >= 1.0
    ensures |run| == |draw| && AllParts(run, 1.0) && AllNonneg(run) && Sum(run) <= capacity
    ensures Throughput(draw, tight, capacity, run)
  {
    hide Floors, AllParts, AllNonneg;
    run := draw;
    var total := Total(draw);
    if tight && total > 0.0 {
      ScaleUndoes(capacity, total);
      FloorsFit(draw, capacity / total);
      run := Floors(draw, capacity / total);
      run := GiveRemainder(run, capacity);
    } else if total > capacity {
      ScaleUndoes(capacity - 1.0, total);
      FloorsFit(draw, (capacity - 1.0) / total);
      run := Floors(draw, (capacity - 1.0) / total);
    }
  }

  /** Adds what is short of capacity to the first throughput that can take it. */
  method GiveRemainder(draw: seq<real>, capacity: real) returns (run: seq<real>)
    requires |draw| >= 1 && AllParts(draw, 1.0) && AllNonneg(draw) && Sum(draw) <= capacity
    requires Whole(capacity) && capacity >= 1.0
    ensures run == WithRemainder(draw, capacity)
    ensures |run| == |draw| && AllParts(run, 1.0) && AllNonneg(run) && Sum(run) == capacity
  {
    run := draw;
    var sum := Total(draw);
    var short := capacity - sum;
    PartsSumTo(draw, 1.0, |draw|);
    WholeSum(capacity, sum);
    for k := 0 to |run|
      invariant run == draw && (k > 0 ==> short <= 0.0) && forall q :: 0 <= q < k ==> draw[q] == 0.0
    {
      if run[k] > 0.0 || short > 0.0 {
        SumUpdate(run, k, short, |run|);
        WholeSum(run[k], short);
        run := run[k := run[k] + short];
        return;
      }
    }
    SumToZero(draw, |draw|);
  }

  /** Crude k is the first with a positive scaled-down part. */
  predicate FirstRunning(parts: seq<real>, k: nat) {
    k < |parts| && parts[k] > 0.0 && forall q :: 0 <= q < k ==> parts[q] <= 0.0
  }

  /** The remainder lands on the first crude that runs exactly when there is none, or when the
      first of all crudes keeps at least one barrel after scaling. */
  lemma RemainderGoesToFirstRunningIff(draw: seq<real>, capacity: real, k: nat)
    requires AllNonneg(draw) && Sum(draw) > 0.0 && capacity >= 1.0
    requires FirstRunning(Floors(draw, capacity / Sum(draw)), k)
    ensures var parts := Floors(draw, capacity / Sum(draw));
      var remainder := capacity - Sum(parts);
      WithRemainder(parts, capacity) == parts[k := parts[k] + remainder]
      <==> remainder == 0.0 || draw[0] * capacity >= Sum(draw)
  {
    var scale := capacity / Sum(draw);
    var parts := Floors(draw, scale);
    var remainder := capacity - Sum(parts);
    FirstPartRuns(draw[0], capacity, Sum(draw));
    if k > 0 && remainder != 0.0 {
      assert parts[k := parts[k] + remainder][0] == parts[0] != WithRemainder(parts, capacity)[0];
    }
  }

  /** A scaled draw keeps a whole barrel when draw * capacity reaches the total. */
  lemma FirstPartRuns(d: real, capacity: real, total: real)
    requires total > 0.0
    ensures Mul(d, capacity / total).Floor as real > 0.0 <==> d * capacity >= total
  {
    var scaled := Mul(d, capacity / total);
    assert scaled * total == d * capacity by { ScaledTimesTotal(d, capacity, total); }
    if scaled >= 1.0 { MulLe(total, 1.0, scaled); }
    if d * capacity >= total && scaled < 1.0 { MulLe(total, scaled, 1.0); }
  }

  lemma ScaledTimesTotal(d: real, capacity: real, total: real)
    requires total > 0.0
    ensures Mul(d, capacity / total) * total == d * capacity
  {
    var scale := capacity / total;
    assert scale * total == capacity;
    assert (d * scale) * total == d * (scale * total);
  }

  /** Three crudes, draws 0, 7 and 4, capacity 60: the scaled parts are 0, 38 and 21, and the
      barrel that is left over goes to the first crude, which does not run. */
  lemma RemainderCanGoToAnIdleCrude()
    ensures var draw := [0.0, 7.0, 4.0];
      var parts := Floors(draw, 60.0 / 11.0);
      Sum(draw) == 11.0 && parts == [0.0, 38.0, 21.0] && WithRemainder(parts, 60.0) == [1.0, 38.0, 21.0]
  {
    var draw := [0.0, 7.0, 4.0];
    SumOfThree(draw);
    var scale := 60.0 / 11.0;
    assert scale * 11.0 == 60.0;
    assert Mul(0.0, scale).Floor == 0;
    assert Mul(7.0, scale).Floor == 38;
    assert Mul(4.0, scale).Floor == 21;
    var parts := Floors(draw, scale);
    assert parts == [0.0, 38.0, 21.0];
    SumOfThree(parts);
  }

  lemma SumOfThree(v: seq<real>)
    requires |v| == 3
    ensures Sum(v) == v[0] + v[1] + v[2]
  {
    assert SumTo(v, 3) == SumTo(v, 2) + v[2] && SumTo(v, 2) == SumTo(v, 1) + v[1] && SumTo(v, 1) == SumTo(v, 0) + v[0];
  }

  // ---- Crudes ---------------------------------------------------------------------------

  /** The stock a period opens with. */
  function Opening(start: seq<real>, stock: seq<seq<real>>, t: nat): seq<real>
    requires t <= |stock|
  {
    if t == 0 then start else stock[t - 1]
  }

  /** One period's crudes: whole barrels, nothing negative, and stock = opening + bought - run. */
  predicate CrudePeriod(n: nat, capacity: real, opening: seq<real>, run: seq<real>, buy: seq<real>, stock: seq<real>) {
    && |opening| == |run| == |buy| == |stock| == n
    && Sum(run) <= capacity && AllNonneg(run) && AllNonneg(buy) && AllNonneg(stock)
    && AllParts(run, 1.0) && AllParts(buy, 1.0) && AllParts(stock, 1.0)
    && forall k :: 0 <= k < n ==> stock[k] == opening[k] + buy[k] - run[k]
  }

  /** Every period so far, each opening with the stock the last one closed with. */
  predicate CrudeRun(n: nat, capacity: real, start: seq<real>, run: seq<seq<real>>, buy: seq<seq<real>>,
      stock: seq<seq<real>>) {
    && |run| == |buy| == |stock|
    && forall t :: 0 <= t < |run| ==> CrudePeriod(n, capacity, Opening(start, stock, t), run[t], buy[t], stock[t])
  }

  /** The draws behind one period: the throughput rule, and purchases that cover the shortage
      plus the drawn extra. */
  predicate DrawnPeriod(draws: PlanDraws, t: nat, capacity: real, opening: seq<real>, run: seq<real>, buy: seq<real>) {
    && |opening| == |run| == |buy| && run != []
    && Throughput(DrawnThroughput(draws, t, |run|), draws.tight(t), capacity, run)
    && forall k :: 0 <= k < |run| ==> buy[k] == Max(0.0, run[k] - opening[k]) + draws.extra(t, k) as real
  }

  function DrawnThroughput(draws: PlanDraws, t: nat, n: nat): (v: seq<real>)
    ensures |v| == n && forall k :: 0 <= k < n ==> v[k] == draws.throughput(t, k) as real
  {
    seq(n, k requires 0 <= k < n => draws.throughput(t, k) as real)
  }

  predicate DrawnRun(draws: PlanDraws, capacity: real, start: seq<real>, run: seq<seq<real>>, buy: seq<seq<real>>,
      stock: seq<seq<real>>) {
    && |run| == |buy| == |stock|
    && forall t :: 0 <= t < |run| ==> DrawnPeriod(draws, t, capacity, Opening(start, stock, t), run[t], buy[t])
  }

  lemma NextDrawn(draws: PlanDraws, capacity: real, start: seq<real>, run: seq<seq<real>>, buy: seq<seq<real>>,
      stock: seq<seq<real>>,
                  now: seq<real>, bought: seq<real>, kept: seq<real>)
    requires DrawnRun(draws, capacity, start, run, buy, stock)
    requires DrawnPeriod(draws, |run|, capacity, Opening(start, stock, |run|), now, bought)
    ensures DrawnRun(draws, capacity, start, run + [now], buy + [bought], stock + [kept])
  {
    OpeningAppend(start, stock, kept);
    hide DrawnPeriod, Opening;
    var run', buy', stock' := run + [now], buy + [bought], stock + [kept];
    forall t | 0 <= t <= |run| ensures DrawnPeriod(draws, t, capacity, Opening(start, stock', t), run'[t], buy'[t]) {
      assert Opening(start, stock', t) == Opening(start, stock, t);
    }
  }

  lemma OpeningAppend(start: seq<real>, stock: seq<seq<real>>, kept: seq<real>)
    ensures forall t :: 0 <= t <= |stock| ==> Opening(start, stock + [kept], t) == Opening(start, stock, t)
  {
  }

  lemma NextPeriod(n: nat, capacity: real, start: seq<real>, run: seq<seq<real>>, buy: seq<seq<real>>,
      stock: seq<seq<real>>,
                   now: seq<real>, bought: seq<real>, kept: seq<real>)
    requires CrudeRun(n, capacity, start, run, buy, stock)
    requires CrudePeriod(n, capacity, Opening(start, stock, |run|), now, bought, kept)
    ensures CrudeRun(n, capacity, start, run + [now], buy + [bought], stock + [kept])
  {
    OpeningAppend(start, stock, kept);
    hide CrudePeriod, Opening;
    var run', buy', stock' := run + [now], buy + [bought], stock + [kept];
    forall t | 0 <= t <= |run|
        ensures CrudePeriod(n, capacity, Opening(start, stock', t), run'[t], buy'[t], stock'[t]) {
      assert Opening(start, stock', t) == Opening(start, stock, t);
    }
  }

  /** Buys what the tank is short of plus a drawn extra, so the stock never goes negative. */
  method StockCrudes(run: seq<real>, opening: seq<real>, extra: nat -> Purchase, capacity: real)
    returns (buy: seq<real>, stock: seq<real>)
    requires |opening| == |run| && AllParts(opening, 1.0) && AllParts(run, 1.0) && AllNonneg(run)
      && Sum(run) <= capacity
    ensures CrudePeriod(|run|, capacity, opening, run, buy, stock)
    ensures forall k :: 0 <= k < |run| ==> buy[k] == Max(0.0, run[k] - opening[k]) + extra(k) as real
  {
    hide Parts, Sum;
    buy, stock := [], [];
    for k := 0 to |run|
      invariant |buy| == |stock| == k && AllNonneg(buy) && AllNonneg(stock)
      invariant AllParts(buy, 1.0) && AllParts(stock, 1.0)
      invariant forall q :: 0 <= q < k ==>
        stock[q] == opening[q] + buy[q] - run[q] && buy[q] == Max(0.0, run[q] - opening[q]) + extra(q) as real
    {
      var need := Max(0.0, run[k] - opening[k]);
      var bought := need + extra(k) as real;
      WholePurchase(run[k], opening[k], extra(k));
      buy := buy + [bought];
      stock := stock + [opening[k] + bought - run[k]];
      assert stock[k] >= 0.0;
    }
  }

  lemma WholePurchase(run: real, opening: real, extra: nat)
    requires Parts(run, 1.0) && Parts(opening, 1.0)
    ensures var bought := Max(0.0, run - opening) + extra as real;
      Parts(bought, 1.0) && Parts(opening + bought - run, 1.0)
  {
    hide Parts;
    PartsOfWhole(extra);
    PartsZero(1.0);
    PartsSum(run, opening, 1.0);
    PartsSum(Max(0.0, run - opening), extra as real, 1.0);
    var bought := Max(0.0, run - opening) + extra as real;
    PartsSum(opening, bought, 1.0);
    PartsSum(opening + bought, run, 1.0);
  }

  lemma PartsOfWhole(n: nat)
    ensures Parts(n as real, 1.0)
  {
    WholeOf(n);
  }

  // ---- Products ---------------------------------------------------------------------------

  function Before(start: real, stock: seq<real>, t: nat): real
    requires t <= |stock|
  {
    if t == 0 then start else stock[t - 1]
  }

  /** One product over the periods: hundredths, nothing negative, stock = before + made - sold. */
  predicate ProductRun(start: real, made: seq<real>, sold: seq<real>, stock: seq<real>) {
    && |made| == |sold| == |stock| && AllNonneg(sold) && AllNonneg(stock)
    && AllParts(made, 100.0) && AllParts(sold, 100.0) && AllParts(stock, 100.0)
    && forall t :: 0 <= t < |made| ==> stock[t] == Before(start, stock, t) + made[t] - sold[t]
  }

  /** v rounded down to a hundredth. */
  function RoundDown(v: real): real {
    (v * 100.0).Floor as real / 100.0
  }

  lemma RoundDownFacts(v: real)
    requires v >= 0.0
    ensures 0.0 <= RoundDown(v) <= v < RoundDown(v) + 0.01 && Parts(RoundDown(v), 100.0)
  {
    var f := (v * 100.0).Floor;
    assert f >= 0;
    HundredthOf(f);
  }

  /** A share in tenths of what is available, rounded down to a hundredth. */
  function Sale(available: real, tenths: nat): real {
    RoundDown(Mul(available, tenths as real / 10.0))
  }

  /** The rounding keeps sales on the hundredth grid, and loses less than a hundredth. */
  lemma SaleIsRoundedShare(available: real, tenths: Tenths)
    requires available >= 0.0
    ensures 0.0 <= Sale(available, tenths) <= available && Parts(Sale(available, tenths), 100.0)
    ensures Sale(available, tenths) <= Mul(available, tenths as real / 10.0) < Sale(available, tenths) + 0.01
  {
    hide RoundDown, Parts;
    var share := tenths as real / 10.0;
    ShareWithin(available, share);
    RoundDownFacts(Mul(available, share));
  }

  lemma ShareWithin(available: real, share: real)
    requires available >= 0.0 && 0.0 <= share <= 1.0
    ensures 0.0 <= Mul(available, share) <= available
  {
    MulLe(available, 0.0, share);
    MulLe(available, share, 1.0);
  }

  /** Every sale is its period's rounded share of what was available. */
  predicate SoldShares(start: real, made: seq<real>, sold: seq<real>, stock: seq<real>, share: nat -> Tenths) {
    |made| == |sold| == |stock| && forall t :: 0 <= t < |made| ==>
        sold[t] == Sale(Before(start, stock, t) + made[t], share(t))
  }

  lemma NextProductRun(start: real, made: seq<real>, sold: seq<real>, stock: seq<real>, output: real, sale: real,
      kept: real)
    requires ProductRun(start, made, sold, stock)
    requires Parts(output, 100.0) && Parts(sale, 100.0) && Parts(kept, 100.0) && sale >= 0.0 && kept >= 0.0
    requires kept == Before(start, stock, |made|) + output - sale
    ensures ProductRun(start, made + [output], sold + [sale], stock + [kept])
  {
    BeforeAppend(start, stock, kept);
    hide Parts, Before;
  }

  lemma NextShare(start: real, made: seq<real>, sold: seq<real>, stock: seq<real>, share: nat -> Tenths, output: real,
      kept: real)
    requires SoldShares(start, made, sold, stock, share)
    ensures SoldShares(start, made + [output], sold + [Sale(Before(start, stock, |made|) + output, share(|made|))],
      stock + [kept], share)
  {
    BeforeAppend(start, stock, kept);
    hide Sale, Before;
  }

  /** What one sale leaves: nothing negative, nothing off the grid. */
  lemma SaleFits(previous: real, output: real, tenths: Tenths)
    requires previous >= 0.0 && Parts(previous, 100.0) && output >= 0.0 && Parts(output, 100.0)
    ensures var sale := Sale(previous + output, tenths);
      Parts(sale, 100.0) && sale >= 0.0 && Parts(previous + output - sale, 100.0) && previous + output - sale >= 0.0
  {
    hide Parts, Sale;
    SaleIsRoundedShare(previous + output, tenths);
    PartsSum(previous, output, 100.0);
    PartsSum(previous + output, Sale(previous + output, tenths), 100.0);
  }

  lemma BeforeAppend(start: real, stock: seq<real>, kept: real)
    ensures forall t :: 0 <= t <= |stock| ==> Before(start, stock + [kept], t) == Before(start, stock, t)
  {
  }

  /** Sells a share of what is available each period and keeps the rest. */
  method SellProduct(start: real, made: seq<real>, share: nat -> Tenths) returns (sold: seq<real>, stock: seq<real>)
    requires start >= 0.0 && Parts(start, 100.0) && AllNonneg(made) && AllParts(made, 100.0)
    ensures ProductRun(start, made, sold, stock) && SoldShares(start, made, sold, stock, share)
  {
    hide Parts, Sale, ProductRun, SoldShares;
    sold, stock := [], [];
    EmptyRun(start, share);
    for t := 0 to |made|
      invariant |stock| == t && ProductRun(start, made[..t], sold, stock)
        && SoldShares(start, made[..t], sold, stock, share)
    {
      var previous := if t == 0 then start else stock[t - 1];
      var available := previous + made[t];
      var sale := Sale(available, share(t));
      BeforeFits(start, made[..t], sold, stock);
      SaleFits(previous, made[t], share(t));
      NextProductRun(start, made[..t], sold, stock, made[t], sale, available - sale);
      NextShare(start, made[..t], sold, stock, share, made[t], available - sale);
      assert made[..t] + [made[t]] == made[..t + 1];
      sold := sold + [sale];
      stock := stock + [available - sale];
    }
    assert made[..|made|] == made;
  }

  lemma BeforeFits(start: real, made: seq<real>, sold: seq<real>, stock: seq<real>)
    requires start >= 0.0 && Parts(start, 100.0) && ProductRun(start, made, sold, stock)
    ensures Before(start, stock, |made|) >= 0.0 && Parts(Before(start, stock, |made|), 100.0)
    ensures |sold| == |stock| == |made|
  {
  }

  lemma EmptyRun(start: real, share: nat -> Tenths)
    ensures ProductRun(start, [], [], []) && SoldShares(start, [], [], [], share)
  {
  }

  // ---- The whole plan -----------------------------------------------------------------------

  /** One product's plan: the yields make its output of the throughputs, and its balance holds. */
  predicate ProductPlan(recovery: seq<real>, run: seq<seq<real>>, start: real, made: seq<real>, sold: seq<real>,
      stock: seq<real>) {
    && |made| == |run| && AllNonneg(made) && ProductRun(start, made, sold, stock)
    && forall t :: 0 <= t < |run| ==> |run[t]| == |recovery| && made[t] == Dot(recovery, run[t])
  }

  /** Crude quantities by period and crude; product quantities by product and period. */
  datatype Plan = Plan(
    crudeStart: seq<real>, run: seq<seq<real>>, buy: seq<seq<real>>, crude: seq<seq<real>>,
    productStart: seq<real>, made: seq<seq<real>>, sold: seq<seq<real>>, stock: seq<seq<real>>)
  {
    ghost predicate Crudes(s: Size) {
      && |run| == |buy| == |crude| == s.periods
      && |crudeStart| == s.crudes && AllParts(crudeStart, 1.0)
      && CrudeRun(s.crudes, s.Capacity(), crudeStart, run, buy, crude)
    }

    /** The plan is the one the draws determine. */
    ghost predicate Drawn(s: Size, draws: PlanDraws) {
      && |crudeStart| == s.crudes && (forall k :: 0 <= k < s.crudes ==> crudeStart[k] == draws.crudeStart(k) as real)
      && DrawnRun(draws, s.Capacity(), crudeStart, run, buy, crude)
      && |productStart| == |made| == |sold| == |stock| == s.products
      && (forall j :: 0 <= j < s.products ==> productStart[j] == draws.productStart(j) as real)
      && (forall j :: 0 <= j < s.products ==> SoldShares(productStart[j], made[j], sold[j], stock[j], Shares(draws, j)))
    }

    ghost predicate Products(s: Size, data: Data)
      requires data.Valid(s) && Crudes(s)
    {
      && |productStart| == |made| == |sold| == |stock| == s.products && AllParts(productStart, 100.0)
      && forall j :: 0 <= j < s.products ==>
          ProductPlan(data.recovery[j], run, productStart[j], made[j], sold[j], stock[j])
    }
  }

  /** The drawn shares of product j. */
  function Shares(draws: PlanDraws, j: nat): nat -> Tenths { t => draws.share(j, t) }

  datatype PlanDraws = PlanDraws(
    crudeStart: nat -> PlanStep, productStart: nat -> PlanStep,
    tight: nat -> bool, throughput: (nat, nat) -> PlanStep, extra: (nat, nat) -> Purchase,
    share: (nat, nat) -> Tenths)

  method DrawWhole(n: nat, draw: nat -> PlanStep) returns (v: seq<real>)
    ensures |v| == n && AllParts(v, 1.0) && AllNonneg(v) && forall k :: 0 <= k < n ==> v[k] == draw(k) as real
  {
    hide Parts;
    v := [];
    for k := 0 to n
      invariant |v| == k && AllParts(v, 1.0) && AllNonneg(v) && forall q :: 0 <= q < k ==> v[q] == draw(q) as real
    {
      PartsOfWhole(draw(k));
      v := v + [draw(k) as real];
    }
  }

  method PlanCrudes(s: Size, draws: PlanDraws)
    returns (start: seq<real>, run: seq<seq<real>>, buy: seq<seq<real>>, stock: seq<seq<real>>)
    requires s.Valid()
    ensures |run| == |buy| == |stock| == s.periods && |start| == s.crudes && AllParts(start, 1.0)
    ensures forall k :: 0 <= k < s.crudes ==> start[k] == draws.crudeStart(k) as real
    ensures CrudeRun(s.crudes, s.Capacity(), start, run, buy, stock)
      && DrawnRun(draws, s.Capacity(), start, run, buy, stock)
  {
    hide Size.Capacity, Whole, CrudeRun, DrawnRun, Throughput, Parts, Sum;
    start := DrawWhole(s.crudes, draws.crudeStart);
    run, buy, stock := [], [], [];
    var opening := start;
    NoPeriods(s.crudes, draws, s.Capacity(), start);
    for t := 0 to s.periods
      invariant |run| == |buy| == |stock| == t && opening == Opening(start, stock, t)
      invariant |opening| == s.crudes && AllParts(opening, 1.0)
      invariant CrudeRun(s.crudes, s.Capacity(), start, run, buy, stock)
        && DrawnRun(draws, s.Capacity(), start, run, buy, stock)
    {
      var draw := DrawWhole(s.crudes, k => draws.throughput(t, k));
      assert draw == DrawnThroughput(draws, t, s.crudes);
      var now := ChooseThroughput(draw, draws.tight(t), s.Capacity());
      var bought, kept := StockCrudes(now, opening, k => draws.extra(t, k), s.Capacity());
      NextPeriod(s.crudes, s.Capacity(), start, run, buy, stock, now, bought, kept);
      NextDrawn(draws, s.Capacity(), start, run, buy, stock, now, bought, kept);
      run, buy, stock := run + [now], buy + [bought], stock + [kept];
      opening := kept;
    }
  }

  lemma NoPeriods(n: nat, draws: PlanDraws, capacity: real, start: seq<real>)
    ensures CrudeRun(n, capacity, start, [], [], []) && DrawnRun(draws, capacity, start, [], [], [])
  {
  }

  lemma PeriodFacts(s: Size, start: seq<real>, run: seq<seq<real>>, buy: seq<seq<real>>, stock: seq<seq<real>>)
    requires CrudeRun(s.crudes, s.Capacity(), start, run, buy, stock)
    ensures forall t :: 0 <= t < |run| ==> |run[t]| == s.crudes && AllNonneg(run[t]) && AllParts(run[t], 1.0)
  {
    forall t | 0 <= t < |run| ensures |run[t]| == s.crudes && AllNonneg(run[t]) && AllParts(run[t], 1.0) {
      assert CrudePeriod(s.crudes, s.Capacity(), Opening(start, stock, t), run[t], buy[t], stock[t]);
    }
  }

  method Make(s: Size, recovery: seq<real>, run: seq<seq<real>>) returns (made: seq<real>)
    requires AllNonneg(recovery) && AllParts(recovery, 100.0)
    requires forall t :: 0 <= t < |run| ==> |run[t]| == |recovery| && AllNonneg(run[t]) && AllParts(run[t], 1.0)
    ensures |made| == |run| && AllNonneg(made) && AllParts(made, 100.0)
    ensures forall t :: 0 <= t < |run| ==> made[t] == Dot(recovery, run[t])
  {
    hide Parts, Dot;
    made := [];
    for t := 0 to |run|
      invariant |made| == t && AllNonneg(made) && AllParts(made, 100.0)
      invariant forall q :: 0 <= q < t ==> made[q] == Dot(recovery, run[q])
    {
      var output := Evaluate(recovery, run[t]);
      DotNonneg(recovery, run[t], |recovery|);
      PartsOfDot(recovery, run[t]);
      made := made + [output];
    }
  }

  lemma PartsOfDot(recovery: seq<real>, run: seq<real>)
    requires |recovery| == |run| && AllParts(recovery, 100.0) && AllParts(run, 1.0)
    ensures Parts(Dot(recovery, run), 100.0)
  {
    PartsDot(recovery, 100.0, run, 1.0, 100.0, |recovery|);
  }

  lemma {:induction false} DotNonneg(a: seq<real>, b: seq<real>, k: nat)
    requires |a| == |b| && k <= |a| && AllNonneg(a) && AllNonneg(b)
    ensures DotTo(a, b, k) >= 0.0
    ensures k == |a| ==> Dot(a, b) >= 0.0
  {
    if k > 0 {
      DotNonneg(a, b, k - 1);
      MulLe(a[k - 1], 0.0, b[k - 1]);
    }
  }

  /** Production and sales, one product after the other. */
  method PlanProducts(s: Size, recovery: seq<seq<real>>, draws: PlanDraws, run: seq<seq<real>>, start: seq<real>)
    returns (made: seq<seq<real>>, sold: seq<seq<real>>, stock: seq<seq<real>>)
    requires |recovery| == |start| && AllNonneg(start) && AllParts(start, 100.0)
    requires forall t :: 0 <= t < |run| ==> |run[t]| == s.crudes && AllNonneg(run[t]) && AllParts(run[t], 1.0)
    requires forall j :: 0 <= j < |recovery| ==>
      |recovery[j]| == s.crudes && AllParts(recovery[j], 100.0) && AllNonneg(recovery[j])
    ensures |made| == |sold| == |stock| == |start|
    ensures forall j :: 0 <= j < |start| ==> ProductPlan(recovery[j], run, start[j], made[j], sold[j], stock[j])
    ensures forall j :: 0 <= j < |start| ==> SoldShares(start[j], made[j], sold[j], stock[j], Shares(draws, j))
  {
    hide Dot, Parts, ProductRun, SoldShares, Shares;
    made, sold, stock := [], [], [];
    for j := 0 to |start|
      invariant |made| == |sold| == |stock| == j
      invariant forall i :: 0 <= i < j ==> ProductPlan(recovery[i], run, start[i], made[i], sold[i], stock[i])
      invariant forall i :: 0 <= i < j ==> SoldShares(start[i], made[i], sold[i], stock[i], Shares(draws, i))
    {
      var output := Make(s, recovery[j], run);
      var sale, kept := SellProduct(start[j], output, Shares(draws, j));
      assert ProductPlan(recovery[j], run, start[j], output, sale, kept);
      hide ProductPlan;
      made, sold, stock := made + [output], sold + [sale], stock + [kept];
    }
  }

  lemma AllHundredths(v: seq<real>)
    requires AllParts(v, 1.0)
    ensures AllParts(v, 100.0)
  {
    hide Parts;
    forall j | 0 <= j < |v| ensures Parts(v[j], 100.0) { HundredthsOfWhole(v[j]); }
  }

  /** The generator's plan, whatever is drawn: no stock is ever negative and every balance holds. */
  method MakePlan(s: Size, data: Data, draws: PlanDraws) returns (plan: Plan)
    requires s.Valid() && data.Valid(s)
    ensures plan.Crudes(s) && plan.Products(s, data) && plan.Drawn(s, draws)
  {
    hide DrawnRun, CrudeRun, AllParts, AllNonneg, ProductPlan, SoldShares, Shares, Size.Capacity;
    var start, run, buy, crude := PlanCrudes(s, draws);
    var productStart := DrawWhole(s.products, draws.productStart);
    AllHundredths(productStart);
    PeriodFacts(s, start, run, buy, crude);
    var made, sold, stock := PlanProducts(s, data.recovery, draws, run, productStart);
    plan := Plan(start, run, buy, crude, productStart, made, sold, stock);
  }

  lemma HundredthsOfWhole(v: real)
    requires Parts(v, 1.0)
    ensures Parts(v, 100.0)
  {
    WholeOf(100);
    PartsFiner(v, 1.0, 100.0, 100.0);
  }
}
