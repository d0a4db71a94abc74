/**
 The two quote engines of the database market maker. The historical engine rounds each
 trade on its own; the later one takes differences of one integer potential. A log that
 used the first and then the second stays solvent at every point.
 */
module Quotes {
  import opened Wrappers
  import Fees
  import opened Orders
  import opened Curve

  const MAX_SAFE_INTEGER := 9_007_199_254_740_991
  const MAX_SHARES := 10_000_000

  /** What floating point makes of the curve. */
  datatype Numerics = Numerics(change: (Inventory, Outcome, int) -> real, cost: Inventory -> real)

  /** The amount both engines add before rounding; the numeric error it is meant to absorb. */
  const RESERVE := 0.25

  predicate Within(x: real, exact: real, error: real) {
    exact - error <= x <= exact + error
  }

  /** The inventories either engine prices: probabilities are defined only up to the share limit. */
  predicate InShares(q: Inventory) {
    q.yes <= MAX_SHARES && q.no <= MAX_SHARES
  }

  /** On every inventory within the share limit, both evaluations are off by at most `error`. */
  ghost predicate AccurateTo(n: Numerics, g: Tail, m: Pricing, error: real)
    requires m.Valid()
  {
    && (forall q, o, d :: InShares(q) && 0 <= q.Of(o) + d <= MAX_SHARES ==>
          n.change(q, o, d) >= 0.0 && Within(n.change(q, o, d), AbsReal(ExactChange(g, m, q, o, d)), error))
    && (forall q :: InShares(q) ==> n.cost(q) >= 0.0 && Within(n.cost(q), Potential(g, m, q), error))
  }

  /** All that the rounding reserve asks for. */
  ghost predicate Accurate(n: Numerics, g: Tail, m: Pricing)
    requires m.Valid()
  {
    AccurateTo(n, g, m, RESERVE)
  }

  function Ceil(x: real): int {
    -((-x).Floor)
  }

  datatype Refusal = BadQuantity | Unavailable | OutOfRange | MovedOpposite | RoundsToZero | FeeTakesAll

  datatype Quote = Quote(outcome: Outcome, action: Action, quantity: nat, gross: nat, fee: nat, after: Inventory) {
    /** What the trader's wallet gains. */
    function Cash(): int {
      if action.Buy? then -((gross + fee) as int) else gross - fee
    }

    /** What the pool's collateral gains. */
    function Collected(): int {
      if action.Buy? then gross else -(gross as int)
    }
  }

  function Signed(action: Action, quantity: nat): int {
    if action.Buy? then quantity else -(quantity as int)
  }

  function Moved(q: Inventory, outcome: Outcome, action: Action, quantity: nat): Inventory
    requires action.Sell? ==> quantity <= q.Of(outcome)
  {
    q.With(outcome, q.Of(outcome) + Signed(action, quantity))
  }

  /** The checks after rounding are the same for both engines. */
  function Priced(m: Pricing, outcome: Outcome, action: Action, quantity: nat, gross: int,
                  after: Inventory): Result<Quote, Refusal> {
    if gross <= 0 then Err(RoundsToZero) else
    var fee := Fees.Fee(gross, m.feeBps);
    if action.Sell? && gross <= fee then Err(FeeTakesAll) else
    Ok(Quote(outcome, action, quantity, gross, fee, after))
  }

  function HistoricalGross(raw: real, action: Action): int {
    if action.Buy? then Ceil(raw + RESERVE) else if (raw - RESERVE).Floor > 0 then (raw - RESERVE).Floor else 0
  }

  function HistoricalQuote(n: Numerics, m: Pricing, q: Inventory, outcome: Outcome, action: Action,
                           quantity: nat): Result<Quote, Refusal> {
    if quantity < 1 then Err(BadQuantity)
    else if action.Sell? && quantity > q.Of(outcome) then Err(Unavailable)
    else
      var raw := n.change(q, outcome, Signed(action, quantity));
      if raw < 0.0 || raw > (MAX_SAFE_INTEGER - 1) as real then Err(OutOfRange) else
      var quote :- Priced(m, outcome, action, quantity, HistoricalGross(raw, action),
        Moved(q, outcome, action, quantity));
      // The probabilities quoted beside the price are refused beyond the share limit.
      if InShares(q) && InShares(quote.after) then Ok(quote) else Err(OutOfRange)
  }

  /** The integer potential of the later engine. */
  function Cost(n: Numerics, q: Inventory): int {
    Ceil(n.cost(q) + RESERVE)
  }

  predicate InBounds(n: Numerics, q: Inventory) {
    InShares(q) && 0.0 <= n.cost(q) <= (MAX_SAFE_INTEGER - 1) as real
  }

  function PotentialQuote(n: Numerics, m: Pricing, q: Inventory, outcome: Outcome, action: Action,
                          quantity: nat): Result<Quote, Refusal> {
    if quantity < 1 || quantity > MAX_SHARES then Err(BadQuantity)
    else if action.Sell? && quantity > q.Of(outcome) then Err(Unavailable)
    else
      var after := Moved(q, outcome, action, quantity);
      if !InBounds(n, q) || !InBounds(n, after) then Err(OutOfRange) else
      var gross := if action.Buy? then Cost(n, after) - Cost(n, q) else Cost(n, q) - Cost(n, after);
      if gross < 0 then Err(MovedOpposite) else
      Priced(m, outcome, action, quantity, gross, after)
  }

  function QuoteBy(discretized: bool, n: Numerics, m: Pricing, q: Inventory, outcome: Outcome, action: Action,
                   quantity: nat)
    : Result<Quote, Refusal>
  {
    if discretized then PotentialQuote(n, m, q, outcome, action, quantity)
    else HistoricalQuote(n, m, q, outcome, action, quantity)
  }

  /** What a quote says about the market, whatever it costs. */
  lemma QuoteMoves(discretized: bool, n: Numerics, m: Pricing, q: Inventory, outcome: Outcome, action: Action,
                   quantity: nat)
    ensures var r := QuoteBy(discretized, n, m, q, outcome, action, quantity);
            && (r.Ok? ==>
                  && quantity >= 1 && (action.Sell? ==> quantity <= q.Of(outcome))
                  && r.value.outcome == outcome && r.value.action == action && r.value.quantity == quantity
                  && r.value.after == Moved(q, outcome, action, quantity)
                  && InShares(q) && InShares(r.value.after)
                  && r.value.gross > 0 && (action.Sell? ==> r.value.fee < r.value.gross))
            && (r == Err(Unavailable) ==> action.Sell? && quantity > q.Of(outcome))
  {
  }

  // ---------- What a quote is ----------

  /** The least whole amount that covers the rate. */
  predicate LeastFee(fee: nat, gross: nat, feeBps: nat) {
    (fee - 1) * 10_000 < gross * feeBps <= fee * 10_000
  }

  lemma FeeIsLeast(gross: nat, feeBps: nat)
    ensures LeastFee(Fees.Fee(gross, feeBps), gross, feeBps)
  {
    Fees.FeeIsCeiling(gross, feeBps);
  }

  /** Both engines charge the least fee that covers the rate, and refuse a sale it would take all of. */
  lemma PricedCharges(m: Pricing, outcome: Outcome, action: Action, quantity: nat, gross: int, after: Inventory)
    ensures match Priced(m, outcome, action, quantity, gross, after)
            case Ok(quote) =>
              0 < gross == quote.gross && LeastFee(quote.fee, gross, m.feeBps)
              && (action.Sell? ==> quote.fee < gross)
            case Err(RoundsToZero) => gross <= 0
            case Err(FeeTakesAll) => action.Sell? && exists fee: nat :: LeastFee(fee, gross, m.feeBps) && gross <= fee
            case Err(_) => false
  {
    if gross > 0 {
      FeeIsLeast(gross, m.feeBps);
    }
  }

  /** The least whole number that is not below `x`. */
  predicate RoundedUp(c: int, x: real) {
    (c - 1) as real < x <= c as real
  }

  lemma CeilRoundsUp(x: real)
    ensures RoundedUp(Ceil(x), x) && forall c :: RoundedUp(c, x) ==> c == Ceil(x)
  {
  }

  /** A quote is for the trade asked for, charges the least fee that covers the rate, and leaves a seller something. */
  predicate ChargesRightly(m: Pricing, q: Inventory, outcome: Outcome, action: Action, quantity: nat, quote: Quote) {
    && quote.outcome == outcome && quote.action == action && quote.quantity == quantity >= 1
    && 0 < quote.gross && LeastFee(quote.fee, quote.gross, m.feeBps)
    && (action.Sell? ==> quantity <= q.Of(outcome) && quote.fee < quote.gross)
    && quote.after.Of(outcome) == (if action.Buy? then q.Of(outcome) + quantity else q.Of(outcome) - quantity)
    && quote.after.Of(Other(outcome)) == q.Of(Other(outcome))
    && q.yes <= 10_000_000 && q.no <= 10_000_000
    && quote.after.yes <= 10_000_000 && quote.after.no <= 10_000_000
  }

  /** The former engine rounds the trade itself, a quarter to the pool's advantage. */
  predicate RoundsTrade(n: Numerics, q: Inventory, quote: Quote) {
    var signed: int := if quote.action.Buy? then quote.quantity as int else -(quote.quantity as int);
    var raw := n.change(q, quote.outcome, signed);
    && 0.0 <= raw <= 9_007_199_254_740_990.0
    && if quote.action.Buy? then RoundedUp(quote.gross, raw + 0.25)
       else quote.gross as real <= raw - 0.25 < quote.gross as real + 1.0
  }

  /** The later engine takes the difference of two costs, each rounded up with a quarter added. */
  predicate RoundsCosts(n: Numerics, q: Inventory, quote: Quote) {
    && 0.0 <= n.cost(q) <= 9_007_199_254_740_990.0 && 0.0 <= n.cost(quote.after) <= 9_007_199_254_740_990.0
    && RoundedUp(Cost(n, q), n.cost(q) + 0.25) && RoundedUp(Cost(n, quote.after), n.cost(quote.after) + 0.25)
    && if quote.action.Buy? then Cost(n, quote.after) == Cost(n, q) + quote.gross
       else Cost(n, q) == Cost(n, quote.after) + quote.gross
  }

  /** What a quote of either engine is. */
  lemma QuotesRightly(discretized: bool, n: Numerics, m: Pricing, q: Inventory, outcome: Outcome, action: Action,
                      quantity: nat)
    requires QuoteBy(discretized, n, m, q, outcome, action, quantity).Ok?
    ensures var quote := QuoteBy(discretized, n, m, q, outcome, action, quantity).value;
            && ChargesRightly(m, q, outcome, action, quantity, quote)
            && (if discretized then RoundsCosts(n, q, quote) && quantity <= 10_000_000 else RoundsTrade(n, q, quote))
  {
    var quote := QuoteBy(discretized, n, m, q, outcome, action, quantity).value;
    FeeIsLeast(quote.gross, m.feeBps);
    QuoteMoves(discretized, n, m, q, outcome, action, quantity);
    if discretized {
      CeilRoundsUp(n.cost(q) + 0.25);
      CeilRoundsUp(n.cost(quote.after) + 0.25);
    } else {
      CeilRoundsUp(n.change(q, outcome, Signed(action, quantity)) + 0.25);
    }
  }

  /** The inventories whose cost the later engine can tell. */
  predicate Supported(n: Numerics, q: Inventory) {
    q.yes <= 10_000_000 && q.no <= 10_000_000 && 0.0 <= n.cost(q) <= 9_007_199_254_740_990.0
  }

  /** And why there may be none: a quantity that cannot be quoted at all, first of all. */
  lemma RefusesRightly(discretized: bool, n: Numerics, m: Pricing, q: Inventory, outcome: Outcome, action: Action,
                       quantity: nat)
    requires QuoteBy(discretized, n, m, q, outcome, action, quantity).Err?
    ensures quantity == 0 || (discretized && quantity > 10_000_000) ==>
              QuoteBy(discretized, n, m, q, outcome, action, quantity) == Err(BadQuantity)
    ensures match QuoteBy(discretized, n, m, q, outcome, action, quantity).error
            case BadQuantity => quantity == 0 || (discretized && quantity > 10_000_000)
            case Unavailable => action.Sell? && q.Of(outcome) < quantity
            case MovedOpposite =>
              discretized && (action.Sell? ==> quantity <= q.Of(outcome))
              && var after := Moved(q, outcome, action, quantity);
                 if action.Buy? then Cost(n, after) < Cost(n, q) else Cost(n, q) < Cost(n, after)
            case FeeTakesAll => action.Sell? && 0 < quantity <= q.Of(outcome) && m.feeBps > 0
            case OutOfRange =>
              quantity >= 1 && (action.Sell? ==> quantity <= q.Of(outcome))
              && (if discretized then !Supported(n, q) || !Supported(n, Moved(q, outcome, action, quantity))
                  else var raw := n.change(q, outcome, Signed(action, quantity));
                       raw < 0.0 || raw > 9_007_199_254_740_990.0
                       || !InShares(q) || !InShares(Moved(q, outcome, action, quantity)))
            case RoundsToZero =>
              quantity >= 1 && (action.Sell? ==> quantity <= q.Of(outcome))
              && (if discretized then Cost(n, Moved(q, outcome, action, quantity)) == Cost(n, q)
                  else action.Sell? && n.change(q, outcome, Signed(action, quantity)) < 1.25)
  {
    if !discretized {
      CeilRoundsUp(n.change(q, outcome, Signed(action, quantity)) + 0.25);
    }
  }

  // ---------- Every rounding favours the pool ----------

  lemma CeilBounds(x: real)
    ensures x <= Ceil(x) as real < x + 1.0
  {
  }

  /**
   A historical trade collects at least the change of the potential and what is left of the reserve, and
   little more.
   */
  lemma HistoricalFavoursPool(
      n: Numerics, g: Tail, m: Pricing, error: real, q: Inventory, outcome: Outcome, action: Action, quantity: nat)
    requires m.Valid() && CurveOk(g) && AccurateTo(n, g, m, error)
    requires HistoricalQuote(n, m, q, outcome, action, quantity).Ok?
    ensures var quote := HistoricalQuote(n, m, q, outcome, action, quantity).value;
            var change := Potential(g, m, quote.after) - Potential(g, m, q);
            change + RESERVE - error <= quote.Collected() as real < change + 1.0 + RESERVE + error
  {
    var delta := Signed(action, quantity);
    var raw := n.change(q, outcome, delta);
    ChangeIsPotential(g, m, q, outcome, delta);
    ChangeHasSign(g, m, q, outcome, delta);
    CeilBounds(raw + RESERVE);
    HistoricalRounds(raw, AbsReal(ExactChange(g, m, q, outcome, delta)), error, action);
  }

  lemma HistoricalRounds(raw: real, exact: real, error: real, action: Action)
    requires Within(raw, exact, error) && raw >= 0.0 && HistoricalGross(raw, action) > 0
    ensures action.Buy? ==>
              exact + RESERVE - error <= HistoricalGross(raw, action) as real < exact + 1.0 + RESERVE + error
    ensures action.Sell? ==>
              exact - 1.0 - RESERVE - error < HistoricalGross(raw, action) as real <= exact - RESERVE + error
  {
  }

  /** The integer potential stays just above the exact one. */
  lemma CostBounds(n: Numerics, g: Tail, m: Pricing, error: real, q: Inventory)
    requires m.Valid() && AccurateTo(n, g, m, error) && InShares(q)
    ensures Potential(g, m, q) + RESERVE - error <= Cost(n, q) as real < Potential(g, m, q) + 1.0 + RESERVE + error
  {
    assert Within(n.cost(q), Potential(g, m, q), error);
    CeilBounds(n.cost(q) + RESERVE);
  }

  lemma PotentialStep(n: Numerics, m: Pricing, q: Inventory, outcome: Outcome, action: Action, quantity: nat)
    requires PotentialQuote(n, m, q, outcome, action, quantity).Ok?
    ensures var quote := PotentialQuote(n, m, q, outcome, action, quantity).value;
            quote.Collected() == Cost(n, quote.after) - Cost(n, q)
  {
  }

  // ---------- Whole logs ----------

  datatype Deal = Deal(outcome: Outcome, action: Action, quantity: nat, discretized: bool)

  datatype Pool = Pool(inventory: Inventory, collateral: int)

  function Trade(n: Numerics, m: Pricing, p: Pool, d: Deal): Result<Pool, Refusal> {
    var quote :- QuoteBy(d.discretized, n, m, p.inventory, d.outcome, d.action, d.quantity);
    Ok(Pool(quote.after, p.collateral + quote.Collected()))
  }

  function TradeAll(n: Numerics, m: Pricing, p: Pool, log: seq<Deal>): Result<Pool, Refusal>
    decreases |log|
  {
    if log == [] then Ok(p) else
    var next :- Trade(n, m, p, log[0]);
    TradeAll(n, m, next, log[1..])
  }

  /** The historical engine is never used again once the later one has been. */
  predicate LegacyFirst(log: seq<Deal>) {
    forall i, j :: 0 <= i < j < |log| ==> (log[i].discretized ==> log[j].discretized)
  }

  /** The pool covers the exact potential, or, once integer costs are used, is at most one below the integer one. */
  ghost predicate Backed(n: Numerics, g: Tail, m: Pricing, p: Pool, switched: bool)
    requires m.Valid()
  {
    InShares(p.inventory) &&
    if switched then p.collateral >= Cost(n, p.inventory) - 1 else p.collateral as real >= Potential(g, m, p.inventory)
  }

  /** Either way it covers every payout: the integer cost exceeds any whole payout by at least one. */
  lemma BackedIsSolvent(n: Numerics, g: Tail, m: Pricing, p: Pool, switched: bool)
    requires m.Valid() && CurveOk(g) && Accurate(n, g, m) && Backed(n, g, m, p, switched)
    ensures p.collateral >= Required(m, p.inventory)
  {
    PotentialCovers(g, m, p.inventory);
    CostBounds(n, g, m, RESERVE, p.inventory);
  }

  lemma SwitchKeepsBacked(n: Numerics, g: Tail, m: Pricing, p: Pool, switched: bool)
    requires m.Valid() && Accurate(n, g, m) && Backed(n, g, m, p, switched)
    ensures Backed(n, g, m, p, true)
  {
    CostBounds(n, g, m, RESERVE, p.inventory);
  }

  lemma TradeKeepsBacked(n: Numerics, g: Tail, m: Pricing, p: Pool, d: Deal, switched: bool)
    requires m.Valid() && CurveOk(g) && Accurate(n, g, m) && Backed(n, g, m, p, switched)
    requires switched ==> d.discretized
    requires Trade(n, m, p, d).Ok?
    ensures Backed(n, g, m, Trade(n, m, p, d).value, d.discretized)
  {
    if d.discretized {
      SwitchKeepsBacked(n, g, m, p, switched);
      PotentialStep(n, m, p.inventory, d.outcome, d.action, d.quantity);
    } else {
      HistoricalFavoursPool(n, g, m, RESERVE, p.inventory, d.outcome, d.action, d.quantity);
    }
  }

  /**
   Solvency: a pool that starts with the cost of an empty inventory can always pay whichever
   outcome wins, after any log that switches engines at most once, however the trades fall.
   */
  lemma {:induction false} AlwaysSolvent(n: Numerics, g: Tail, m: Pricing, p: Pool, switched: bool, log: seq<Deal>)
    requires m.Valid() && CurveOk(g) && Accurate(n, g, m) && Backed(n, g, m, p, switched)
    requires LegacyFirst(log) && (switched ==> forall d <- log :: d.discretized)
    requires TradeAll(n, m, p, log).Ok?
    ensures TradeAll(n, m, p, log).value.collateral >= Required(m, TradeAll(n, m, p, log).value.inventory)
    decreases |log|
  {
    if log == [] {
      BackedIsSolvent(n, g, m, p, switched);
    } else {
      TradeKeepsBacked(n, g, m, p, log[0], switched);
      AlwaysSolvent(n, g, m, Trade(n, m, p, log[0]).value, log[0].discretized, log[1..]);
    }
  }

  /** The collateral a market is opened with. */
  lemma SubsidyBacks(n: Numerics, g: Tail, m: Pricing, subsidy: int)
    requires m.Valid() && subsidy as real >= Potential(g, m, Inventory(0, 0))
    ensures Backed(n, g, m, Pool(Inventory(0, 0), subsidy), false)
  {
  }

  // ---------- Round trips ----------

  predicate AllBy(log: seq<Deal>, discretized: bool) {
    forall d <- log :: d.discretized == discretized
  }

  /** `x` for each of `n` trades. */
  function Times(x: real, n: nat): real {
    if n == 0 then 0.0 else x + Times(x, n - 1)
  }

  lemma {:induction false} TimesBetween(x: real, low: int, high: int, parts: nat, n: nat)
    requires parts > 0 && low as real <= x * parts as real <= high as real
    ensures (low * n) as real <= Times(x, n) * parts as real <= (high * n) as real
  {
    if n > 0 {
      TimesBetween(x, low, high, parts, n - 1);
      OneTimeMore(x, parts as real, n);
      MultipleNext(low, n);
      MultipleNext(high, n);
    }
  }

  lemma OneTimeMore(x: real, parts: real, n: nat)
    requires n > 0
    ensures Times(x, n) * parts == x * parts + Times(x, n - 1) * parts
  {
    assert Times(x, n) == x + Times(x, n - 1);
  }

  lemma MultipleNext(k: int, n: nat)
    requires n > 0
    ensures (k * n) as real == k as real + (k * (n - 1)) as real
  {
    assert k * n == k + k * (n - 1);
  }

  /** Under the historical engine each trade gains on the potential by what the error leaves of the reserve. */
  lemma {:induction false} HistoricalGains(n: Numerics, g: Tail, m: Pricing, error: real, p: Pool, log: seq<Deal>)
    requires m.Valid() && CurveOk(g) && AccurateTo(n, g, m, error) && AllBy(log, false)
    requires TradeAll(n, m, p, log).Ok?
    ensures var end := TradeAll(n, m, p, log).value;
            var change := Potential(g, m, end.inventory) - Potential(g, m, p.inventory);
            var gain := (end.collateral - p.collateral) as real - change;
            Times(RESERVE - error, |log|) <= gain <= Times(1.0 + RESERVE + error, |log|)
    decreases |log|
  {
    if log != [] {
      var d := log[0];
      HistoricalFavoursPool(n, g, m, error, p.inventory, d.outcome, d.action, d.quantity);
      HistoricalGains(n, g, m, error, Trade(n, m, p, d).value, log[1..]);
    }
  }

  /** Under the later engine collateral is a function of the inventory. */
  lemma {:induction false} PotentialTelescopes(n: Numerics, m: Pricing, p: Pool, log: seq<Deal>)
    requires AllBy(log, true) && TradeAll(n, m, p, log).Ok?
    ensures var end := TradeAll(n, m, p, log).value;
            end.collateral - p.collateral == Cost(n, end.inventory) - Cost(n, p.inventory)
    decreases |log|
  {
    if log != [] {
      var d := log[0];
      PotentialStep(n, m, p.inventory, d.outcome, d.action, d.quantity);
      PotentialTelescopes(n, m, Trade(n, m, p, d).value, log[1..]);
    }
  }

  /**
   A closed round trip under one engine leaves the market a surplus between nothing and two
   milli-feathers a trade; under the later engine exactly nothing.
   */
  lemma RoundTripSurplus(n: Numerics, g: Tail, m: Pricing, p: Pool, log: seq<Deal>, discretized: bool)
    requires m.Valid() && CurveOk(g) && Accurate(n, g, m) && AllBy(log, discretized)
    requires TradeAll(n, m, p, log).Ok? && TradeAll(n, m, p, log).value.inventory == p.inventory
    ensures 0 <= TradeAll(n, m, p, log).value.collateral - p.collateral <= 2 * |log|
    ensures discretized ==> TradeAll(n, m, p, log).value.collateral == p.collateral
  {
    if discretized {
      PotentialTelescopes(n, m, p, log);
    } else {
      HistoricalSurplus(n, g, m, p, log);
    }
  }

  lemma HistoricalGain(n: Numerics, g: Tail, m: Pricing, p: Pool, log: seq<Deal>) returns (change: real)
    requires m.Valid() && CurveOk(g) && Accurate(n, g, m) && AllBy(log, false) && TradeAll(n, m, p, log).Ok?
    ensures TradeAll(n, m, p, log).value.inventory == p.inventory ==> change == 0.0
    ensures Times(RESERVE - RESERVE, |log|)
            <= (TradeAll(n, m, p, log).value.collateral - p.collateral) as real - change
            <= Times(1.0 + RESERVE + RESERVE, |log|)
  {
    HistoricalGains(n, g, m, RESERVE, p, log);
    change := Potential(g, m, TradeAll(n, m, p, log).value.inventory) - Potential(g, m, p.inventory);
  }

  lemma HistoricalSurplus(n: Numerics, g: Tail, m: Pricing, p: Pool, log: seq<Deal>)
    requires m.Valid() && CurveOk(g) && Accurate(n, g, m) && AllBy(log, false)
    requires TradeAll(n, m, p, log).Ok? && TradeAll(n, m, p, log).value.inventory == p.inventory
    ensures 0 <= TradeAll(n, m, p, log).value.collateral - p.collateral <= 2 * |log|
  {
    var change := HistoricalGain(n, g, m, p, log);
    SurplusIsWhole(TradeAll(n, m, p, log).value.collateral - p.collateral, |log|);
  }

  /** Between nothing and one and a half a trade. */
  lemma SurplusIsWhole(surplus: int, k: nat)
    requires Times(RESERVE - RESERVE, k) <= surplus as real <= Times(1.0 + RESERVE + RESERVE, k)
    ensures 0 <= surplus <= 2 * k
  {
    TimesBetween(RESERVE - RESERVE, 0, 0, 1, k);
    TimesBetween(1.0 + RESERVE + RESERVE, 3, 3, 2, k);
  }

  lemma {:induction false} TradeAllConcat(n: Numerics, m: Pricing, p: Pool, first: seq<Deal>, second: seq<Deal>)
    ensures TradeAll(n, m, p, first + second) ==
            match TradeAll(n, m, p, first) case Err(e) => Err(e) case Ok(middle) => TradeAll(n, m, middle, second)
    decreases |first|
  {
    if first == [] {
      assert first + second == second;
    } else {
      assert (first + second)[1..] == first[1..] + second;
      if Trade(n, m, p, first[0]).Ok? {
        TradeAllConcat(n, m, Trade(n, m, p, first[0]).value, first[1..], second);
      }
    }
  }

  /** A log that changes engines once is a historical part and a later part. */
  lemma {:induction false} SplitAtChange(log: seq<Deal>) returns (k: nat)
    requires LegacyFirst(log)
    ensures k <= |log| && AllBy(log[..k], false) && AllBy(log[k..], true)
    decreases |log|
  {
    if log == [] || log[0].discretized {
      k := 0;
    } else {
      var rest := SplitAtChange(log[1..]);
      k := rest + 1;
      assert log[..k] == [log[0]] + log[1..][..rest];
      assert log[k..] == log[1..][rest..];
    }
  }

  lemma {:induction false} EndsInShares(n: Numerics, m: Pricing, p: Pool, log: seq<Deal>)
    requires TradeAll(n, m, p, log).Ok? && log != []
    ensures InShares(p.inventory) && InShares(TradeAll(n, m, p, log).value.inventory)
    decreases |log|
  {
    QuoteMoves(log[0].discretized, n, m, p.inventory, log[0].outcome, log[0].action, log[0].quantity);
    if |log| > 1 {
      EndsInShares(n, m, Trade(n, m, p, log[0]).value, log[1..]);
    }
  }

  /** What a closed trip across the change of engines leaves, by how far evaluation may err. */
  lemma ChangeSurplus(n: Numerics, g: Tail, m: Pricing, error: real, p: Pool, legacy: seq<Deal>, later: seq<Deal>)
    requires m.Valid() && CurveOk(g) && AccurateTo(n, g, m, error) && AllBy(legacy, false) && AllBy(later, true)
    requires TradeAll(n, m, p, legacy + later).Ok? && TradeAll(n, m, p, legacy + later).value.inventory == p.inventory
    requires legacy != []
    ensures var surplus := (TradeAll(n, m, p, legacy + later).value.collateral - p.collateral) as real;
            var least, most := Times(RESERVE - error, |legacy|), Times(1.0 + RESERVE + error, |legacy|);
            && (later == [] ==> least <= surplus <= most)
            && least - 1.0 - 2.0 * error < surplus < most + 1.0 + 2.0 * error
  {
    TradeAllConcat(n, m, p, legacy, later);
    var atChange := TradeAll(n, m, p, legacy).value;
    EndsInShares(n, m, p, legacy);
    HistoricalGains(n, g, m, error, p, legacy);
    PotentialTelescopes(n, m, atChange, later);
    CostBounds(n, g, m, error, p.inventory);
    CostBounds(n, g, m, error, atChange.inventory);
  }

  lemma TwelfthCloses(surplus: int, error: real, k: nat, total: nat)
    requires 0.0 <= error <= 1.0 / 12.0 && 1 <= k <= total
    requires Times(RESERVE - error, k) - 1.0 - 2.0 * error < surplus as real
    requires surplus as real < Times(1.0 + RESERVE + error, k) + 1.0 + 2.0 * error
    requires k == total ==> surplus as real <= Times(1.0 + RESERVE + error, k)
    ensures 0 <= surplus <= 2 * total
  {
    TimesBetween(RESERVE - error, 1, 2, 6, k);
    TimesBetween(1.0 + RESERVE + error, 3, 4, 3, k);
  }

  /**
   With numeric error of at most a twelfth of a milli-feather, a closed round trip leaves the
   market a surplus between nothing and two milli-feathers a trade even if the engine changes
   on the way.
   */
  lemma MixedRoundTrip(n: Numerics, g: Tail, m: Pricing, error: real, p: Pool, log: seq<Deal>)
    requires m.Valid() && CurveOk(g) && AccurateTo(n, g, m, error) && 0.0 <= error <= 1.0 / 12.0
    requires LegacyFirst(log) && TradeAll(n, m, p, log).Ok? && TradeAll(n, m, p, log).value.inventory == p.inventory
    ensures 0 <= TradeAll(n, m, p, log).value.collateral - p.collateral <= 2 * |log|
  {
    var k := SplitAtChange(log);
    var legacy, later := log[..k], log[k..];
    assert log == legacy + later;
    if k == 0 {
      PotentialTelescopes(n, m, p, log);
    } else {
      ChangeSurplus(n, g, m, error, p, legacy, later);
      TwelfthCloses(TradeAll(n, m, p, log).value.collateral - p.collateral, error, k, |log|);
    }
  }

  lemma QuarterNearlyCloses(surplus: int, k: nat, total: nat)
    requires 1 <= k <= total
    requires Times(RESERVE - RESERVE, k) - 1.0 - 2.0 * RESERVE < surplus as real
    requires surplus as real < Times(1.0 + RESERVE + RESERVE, k) + 1.0 + 2.0 * RESERVE
    requires k == total ==> surplus as real <= Times(1.0 + RESERVE + RESERVE, k)
    ensures -1 <= surplus <= 2 * total
  {
    TimesBetween(RESERVE - RESERVE, 0, 0, 1, k);
    TimesBetween(1.0 + RESERVE + RESERVE, 3, 3, 2, k);
  }

  /**
   At the full quarter that the reserve allows for, the surplus can fall short by one milli-feather, never
   by more.
   */
  lemma MixedRoundTripBound(n: Numerics, g: Tail, m: Pricing, p: Pool, log: seq<Deal>)
    requires m.Valid() && CurveOk(g) && Accurate(n, g, m)
    requires LegacyFirst(log) && TradeAll(n, m, p, log).Ok? && TradeAll(n, m, p, log).value.inventory == p.inventory
    ensures -1 <= TradeAll(n, m, p, log).value.collateral - p.collateral <= 2 * |log|
  {
    var k := SplitAtChange(log);
    var legacy, later := log[..k], log[k..];
    assert log == legacy + later;
    if k == 0 {
      PotentialTelescopes(n, m, p, log);
    } else {
      ChangeSurplus(n, g, m, RESERVE, p, legacy, later);
      QuarterNearlyCloses(TradeAll(n, m, p, log).value.collateral - p.collateral, k, |log|);
    }
  }

  // ---------- A twelfth is the most the change of engines can bear ----------

  function UnitPricing(): Pricing {
    Pricing(1, 1, 0)
  }

  function Capped(x: real): real {
    if x <= 1.0 then x else 1.0
  }

  /** A tail that falls steadily to `1/2 + 2 * error` over one unit of lead, and stays there. */
  function TiltedTail(error: real): Tail {
    x => 0.75 + error - (0.25 - error) * Capped(x)
  }

  lemma TiltedCurve(error: real)
    requires 0.0 <= error <= 0.25
    ensures CurveOk(TiltedTail(error))
  {
    forall x ensures TiltedTail(error)(x) > 0.0 {
      TiltedAbove(error, x);
    }
    forall v, w | v <= w ensures Softplus(TiltedTail(error), v) <= Softplus(TiltedTail(error), w) {
      TiltedRises(error, v, w);
    }
  }

  /** The tail never goes below its floor. */
  lemma TiltedAbove(error: real, x: real)
    requires 0.0 <= error <= 0.25
    ensures TiltedTail(error)(x) >= 0.5 + 2.0 * error
  {
    ProductSign(0.25 - error, 1.0 - Capped(x));
    assert (0.25 - error) * (1.0 - Capped(x)) == 0.25 - error - (0.25 - error) * Capped(x);
  }

  /** The tail falls, but by less than its argument rises. */
  lemma TiltedFalls(error: real, x: real, y: real)
    requires 0.0 <= error <= 0.25 && x <= y
    ensures TiltedTail(error)(x) - (y - x) <= TiltedTail(error)(y) <= TiltedTail(error)(x)
  {
    var slope, gap := 0.25 - error, Capped(y) - Capped(x);
    ProductSign(slope, gap);
    ProductSign(1.0 - slope, gap);
    assert slope * gap == slope * Capped(y) - slope * Capped(x);
    assert (1.0 - slope) * gap == gap - slope * gap;
  }

  lemma TiltedRises(error: real, v: real, w: real)
    requires 0.0 <= error <= 0.25 && v <= w
    ensures Softplus(TiltedTail(error), v) <= Softplus(TiltedTail(error), w)
  {
    var x, y := AbsReal(v), AbsReal(w);
    if x <= y {
      TiltedFalls(error, x, y);
    } else {
      TiltedFalls(error, y, x);
    }
  }

  /** Evaluations that err by the full `error`, each in the direction that costs the pool most. */
  function SkewedChange(error: real): (Inventory, Outcome, int) -> real {
    (q: Inventory, o: Outcome, d: int) =>
      var exact := AbsReal(ExactChange(TiltedTail(error), UnitPricing(), q, o, d));
      if exact >= error then exact - error else exact
  }

  function SkewedCost(error: real): Inventory -> real {
    (q: Inventory) => Potential(TiltedTail(error), UnitPricing(), q) + if q.yes > q.no then error else -error
  }

  /** With unit pricing the potential is a whole number of shares and the softplus of the lead. */
  lemma UnitPotential(g: Tail, q: Inventory)
    ensures Potential(g, UnitPricing(), q) == q.no as real + Softplus(g, (q.yes - q.no) as real)
  {
    assert (q.yes - q.no) as real / 1.0 == (q.yes - q.no) as real;
  }

  lemma SkewedIsAccurate(error: real)
    requires 0.0 <= error <= 0.25
    ensures AccurateTo(Numerics(SkewedChange(error), SkewedCost(error)), TiltedTail(error), UnitPricing(), error)
  {
    forall q ensures Potential(TiltedTail(error), UnitPricing(), q) >= error {
      UnitPotential(TiltedTail(error), q);
      TiltedAbove(error, AbsReal((q.yes - q.no) as real));
    }
  }

  lemma TiltedPotentials(error: real)
    requires 0.0 <= error <= 0.25
    ensures Potential(TiltedTail(error), UnitPricing(), Inventory(0, 0)) == 0.75 + error
    ensures Potential(TiltedTail(error), UnitPricing(), Inventory(1, 0)) == 1.5 + 2.0 * error
    ensures ExactChange(TiltedTail(error), UnitPricing(), Inventory(0, 0), Yes, 1) == 0.75 + error
  {
    var g, start, held := TiltedTail(error), Inventory(0, 0), Inventory(1, 0);
    UnitPotential(g, start);
    UnitPotential(g, held);
    assert g(0.0) == 0.75 + error && g(1.0) == 0.5 + 2.0 * error;
    ChangeIsPotential(g, UnitPricing(), start, Yes, 1);
  }

  /** The buy is charged one milli-feather, as cheaply as its evaluation allows. */
  lemma SkewedBuy(n: Numerics)
    requires n.change(Inventory(0, 0), Yes, 1) == 0.75
    ensures HistoricalQuote(n, UnitPricing(), Inventory(0, 0), Yes, Buy, 1) ==
            Ok(Quote(Yes, Buy, 1, 1, 0, Inventory(1, 0)))
  {
  }

  /** The sale is credited two, because the integer cost has just passed a whole milli-feather. */
  lemma SkewedSell(n: Numerics)
    requires n.cost(Inventory(0, 0)) == 0.75 && 1.75 < n.cost(Inventory(1, 0)) <= 2.75
    ensures PotentialQuote(n, UnitPricing(), Inventory(1, 0), Yes, Sell, 1) ==
            Ok(Quote(Yes, Sell, 1, 2, 0, Inventory(0, 0)))
  {
    CeilBounds(n.cost(Inventory(1, 0)) + RESERVE);
    CeilBounds(n.cost(Inventory(0, 0)) + RESERVE);
  }

  lemma BuyThenSell(n: Numerics)
    requires HistoricalQuote(n, UnitPricing(), Inventory(0, 0), Yes, Buy, 1) ==
             Ok(Quote(Yes, Buy, 1, 1, 0, Inventory(1, 0)))
    requires PotentialQuote(n, UnitPricing(), Inventory(1, 0), Yes, Sell, 1) ==
             Ok(Quote(Yes, Sell, 1, 2, 0, Inventory(0, 0)))
    ensures TradeAll(n, UnitPricing(), Pool(Inventory(0, 0), 1), [Deal(Yes, Buy, 1, false), Deal(Yes, Sell, 1, true)])
            == Ok(Pool(Inventory(0, 0), 0))
  {
    var buy, sell := Deal(Yes, Buy, 1, false), Deal(Yes, Sell, 1, true);
    var start, held := Inventory(0, 0), Inventory(1, 0);
    assert Trade(n, UnitPricing(), Pool(start, 1), buy) == Ok(Pool(held, 2));
    assert Trade(n, UnitPricing(), Pool(held, 2), sell) == Ok(Pool(start, 0));
    assert [buy, sell][1..] == [sell] && [sell][1..] == [];
  }

  /**
   Tightness: for every error above a twelfth that the reserve still allows, there are a legal
   curve and evaluations that accurate on which one share bought before the change of engines
   and sold after it costs the pool a milli-feather.
   */
  lemma MixedRoundTripLoses(error: real)
    requires 1.0 / 12.0 < error <= RESERVE
    ensures var n := Numerics(SkewedChange(error), SkewedCost(error));
            && CurveOk(TiltedTail(error)) && AccurateTo(n, TiltedTail(error), UnitPricing(), error)
            && TradeAll(n, UnitPricing(), Pool(Inventory(0, 0), 1),
                        [Deal(Yes, Buy, 1, false), Deal(Yes, Sell, 1, true)])
               == Ok(Pool(Inventory(0, 0), 0))
  {
    var n := Numerics(SkewedChange(error), SkewedCost(error));
    TiltedCurve(error);
    SkewedIsAccurate(error);
    TiltedPotentials(error);
    SkewedBuy(n);
    SkewedSell(n);
    BuyThenSell(n);
  }
}
