/**
 Orders, their reserves, and the economics of one fill, with the program's checked
 64-bit arithmetic. YES and NO orders share one book: a NO price p is the YES price
 payout - p, and a NO sale is a YES bid.
 */
module Orders {
  import opened Wrappers
  import opened Words
  import Fees

  const MAX_ORDERS := 1_024
  const MAX_TOUCHES := 16
  const MAX_QUANTITY := 10_000_000
  const MAX_PAYOUT := 1_000_000

  datatype Outcome = Yes | No
  datatype Action = Buy | Sell
  datatype Side = Bid | Ask
  datatype TimeInForce = Gtc | Ioc | Fok
  datatype SelfTrade = CancelAggressor | CancelResting | CancelBoth
  datatype EconomicKind = Mint | Burn | TransferYes | TransferNo

  datatype Error =
    | InvalidPrice | InvalidQuantity | InvalidWorkLimit | InvalidOptions
    | ExpiredIncoming | MatchLimitExceeded | BookFull | SameBookSide
    | ArithmeticOverflow | FeeExceedsProceeds | InvalidSequence

  datatype Intent = Intent(outcome: Outcome, action: Action) {
    function Side(): Side {
      if (outcome.Yes? && action.Buy?) || (outcome.No? && action.Sell?) then Bid else Ask
    }

    /** The limit expressed as a YES price. */
    function CanonicalPrice(userPrice: U64, payout: U64): Result<U64, Error> {
      if !ValidPrice(userPrice, payout) then Err(InvalidPrice) else
      Ok(if outcome.Yes? then userPrice else payout - userPrice)
    }
  }

  datatype Order = Order(
    id: U64, owner: U64, intent: Intent, limitPrice: U64, remaining: U64,
    sequence: U64, expiresAt: Option<int>, chainNotional: U64)
  {
    predicate Expired(now: int) {
      expiresAt.Some? && now >= expiresAt.value
    }

    /** The YES price this order trades at as a maker. */
    function Price(payout: U64): int {
      if intent.outcome.Yes? then limitPrice else payout - limitPrice
    }
  }

  datatype Incoming = Incoming(order: Order, timeInForce: TimeInForce, postOnly: bool, selfTrade: SelfTrade)

  datatype Reserve = Reserve(cash: U64, yes: U64, no: U64)

  function NoReserve(): Reserve {
    Reserve(0, 0, 0)
  }

  predicate ValidPayout(payout: U64) {
    2 <= payout <= MAX_PAYOUT
  }

  predicate ValidPrice(price: U64, payout: U64) {
    ValidPayout(payout) && 0 < price < payout
  }

  function ValidateOrder(order: Order, payout: U64): Option<Error> {
    if !ValidPrice(order.limitPrice, payout) then Some(InvalidPrice)
    else if order.remaining == 0 || order.remaining > MAX_QUANTITY then Some(InvalidQuantity)
    else None
  }

  /**
   An order the book may hold: legal price and size, and a lifetime notional that the
   original size could have produced, so no later fill can overflow it.
   */
  predicate Sound(order: Order, payout: U64) {
    && ValidPrice(order.limitPrice, payout)
    && 0 < order.remaining <= MAX_QUANTITY
    && order.chainNotional + payout * order.remaining <= payout * MAX_QUANTITY
  }

  function ReserveOf(order: Order, feeBps: nat): Result<Reserve, Error> {
    match (order.intent.action, order.intent.outcome)
    case (Buy, _) =>
      var needed := Fees.BuyReserve(order.limitPrice, order.remaining, order.chainNotional, feeBps);
      var cash :- needed.OkOr(ArithmeticOverflow);
      Ok(Reserve(cash, 0, 0))
    case (Sell, Yes) => Ok(Reserve(0, order.remaining, 0))
    case (Sell, No) => Ok(Reserve(0, 0, order.remaining))
  }

  datatype Principals = Principals(yes: U64, no: U64, pair: U64) {
    function ForOutcome(outcome: Outcome): U64 {
      if outcome.Yes? then yes else no
    }
  }

  function PrincipalsOf(yesPrice: U64, quantity: U64, payout: U64): Result<Principals, Error> {
    if !ValidPrice(yesPrice, payout) then Err(InvalidPrice)
    else if quantity == 0 || quantity > MAX_QUANTITY then Err(InvalidQuantity) else
    var yes :- CheckedMul(yesPrice, quantity).OkOr(ArithmeticOverflow);
    var no :- CheckedMul(payout - yesPrice, quantity).OkOr(ArithmeticOverflow);
    var pair :- CheckedMul(payout, quantity).OkOr(ArithmeticOverflow);
    Ok(Principals(yes, no, pair))
  }

  /** Signed deltas of one party: reserved cash, available cash, YES and NO holdings. */
  datatype Party = Party(reservedCash: int, availableCash: int, yes: int, no: int)

  datatype Economics = Economics(
    kind: EconomicKind, maker: Party, taker: Party, collateral: int, revenue: int)

  function KindOf(maker: Intent, taker: Intent): EconomicKind {
    match (maker.action, taker.action)
    case (Buy, Buy) => Mint
    case (Sell, Sell) => Burn
    case _ => if maker.outcome.Yes? then TransferYes else TransferNo
  }

  function PartyOf(intent: Intent, principal: Principals, quantity: U64, fee: U64): Result<Party, Error> {
    var amount := principal.ForOutcome(intent.outcome);
    var direction: int := if intent.action.Buy? then quantity as int else -(quantity as int);
    var yes := if intent.outcome.Yes? then direction else 0;
    var no := if intent.outcome.Yes? then 0 else direction;
    match intent.action
    case Buy =>
      var debit :- CheckedAdd(amount, fee).OkOr(ArithmeticOverflow);
      Ok(Party(-(debit as int), 0, yes, no))
    case Sell =>
      var credit :- CheckedSub(amount, fee).OkOr(FeeExceedsProceeds);
      Ok(Party(0, credit, yes, no))
  }

  function EconomicsOf(maker: Intent, taker: Intent, yesPrice: U64, quantity: U64, payout: U64,
                       makerFee: U64, takerFee: U64): Result<Economics, Error> {
    if maker.Side() == taker.Side() then Err(SameBookSide) else
    var principal :- PrincipalsOf(yesPrice, quantity, payout);
    var kind := KindOf(maker, taker);
    var makerParty :- PartyOf(maker, principal, quantity, makerFee);
    var takerParty :- PartyOf(taker, principal, quantity, takerFee);
    var collateral := match kind case Mint => principal.pair as int case Burn => -(principal.pair as int) case _ => 0;
    var revenue :- CheckedAdd(makerFee, takerFee).OkOr(ArithmeticOverflow);
    Ok(Economics(kind, makerParty, takerParty, collateral, revenue))
  }

  datatype Fill = Fill(
    makerBefore: Order, takerBefore: Order, quantity: U64, price: U64, makerFee: U64, takerFee: U64,
    economics: Economics, makerReserveAfter: Reserve, takerReserveAfter: Reserve)

  function Min(a: U64, b: U64): U64 {
    if a <= b then a else b
  }

  /** An order after trading `quantity` for `notional`. */
  function Traded(order: Order, quantity: U64, notional: U64): Result<Order, Error>
    requires quantity <= order.remaining
  {
    var chain :- CheckedAdd(order.chainNotional, notional).OkOr(ArithmeticOverflow);
    Ok(order.(remaining := order.remaining - quantity, chainNotional := chain))
  }

  /** A fill at the maker's price, together with both orders as it leaves them. */
  datatype Planned = Planned(fill: Fill, maker: Order, taker: Order)

  function PlanFill(maker: Order, taker: Order, price: U64, payout: U64, feeBps: nat): Result<Planned, Error> {
    var quantity := Min(maker.remaining, taker.remaining);
    var principals :- PrincipalsOf(price, quantity, payout);
    var makerNotional := principals.ForOutcome(maker.intent.outcome);
    var takerNotional := principals.ForOutcome(taker.intent.outcome);
    var makerFee :- Fees.FeeDelta(maker.chainNotional, makerNotional, feeBps).OkOr(ArithmeticOverflow);
    var takerFee :- Fees.FeeDelta(taker.chainNotional, takerNotional, feeBps).OkOr(ArithmeticOverflow);
    var makerAfter :- Traded(maker, quantity, makerNotional);
    var takerAfter :- Traded(taker, quantity, takerNotional);
    var economics :- EconomicsOf(maker.intent, taker.intent, price, quantity, payout, makerFee, takerFee);
    var makerReserve :- ReserveOf(makerAfter, feeBps);
    var takerReserve :- ReserveOf(takerAfter, feeBps);
    Ok(Planned(Fill(maker, taker, quantity, price, makerFee, takerFee, economics, makerReserve, takerReserve),
               makerAfter, takerAfter))
  }

  // ---------- Properties ----------

  /** A sound order's reserve is always computable, and small. */
  lemma SoundReserve(order: Order, payout: U64, feeBps: nat)
    requires ValidPayout(payout) && feeBps <= Fees.MAX_FEE_BPS
    requires ValidPrice(order.limitPrice, payout) && order.remaining <= MAX_QUANTITY
    requires order.chainNotional + payout * order.remaining <= payout * MAX_QUANTITY
    ensures ReserveOf(order, feeBps).Ok?
    ensures var held := ReserveOf(order, feeBps).value;
            if order.intent.action.Buy?
            then held.cash == Fees.BuyNeed(order.limitPrice, order.remaining, order.chainNotional, feeBps)
                 && held.yes == held.no == 0
            else held.cash == 0 && held.yes + held.no == order.remaining
                 && (if order.intent.outcome.Yes? then held.no == 0 else held.yes == 0)
  {
    if order.intent.action.Buy? {
      Fees.ProductMonotone(order.limitPrice, payout, order.remaining);
      Fees.BuyReserveIsNeed(order.limitPrice, order.remaining, order.chainNotional, feeBps);
      Fees.ChargeBounds(order.chainNotional, order.limitPrice * order.remaining, feeBps);
    }
  }

  /** What a party of the given intent pays or receives, and holds more or less of, in a trade. */
  function OracleCash(intent: Intent, price: int, quantity: int, payout: int, fee: int): int {
    var principal := (if intent.outcome.Yes? then price else payout - price) * quantity;
    (if intent.action.Buy? then -principal else principal) - fee
  }

  function OracleShares(intent: Intent, outcome: Outcome, quantity: int): int {
    if intent.outcome != outcome then 0 else if intent.action.Buy? then quantity else -quantity
  }

  function OracleCollateral(maker: Intent, taker: Intent, quantity: int, payout: int): int {
    if maker.action != taker.action then 0
    else if taker.action.Buy? then payout * quantity else -(payout * quantity)
  }

  /** Economics agree with the per-trade delta oracle of the exchange suite. */
  lemma EconomicsMeetOracle(maker: Intent, taker: Intent, price: U64, quantity: U64, payout: U64, makerFee: U64,
                            takerFee: U64)
    requires EconomicsOf(maker, taker, price, quantity, payout, makerFee, takerFee).Ok?
    ensures var e := EconomicsOf(maker, taker, price, quantity, payout, makerFee, takerFee).value;
            && e.maker.reservedCash + e.maker.availableCash == OracleCash(maker, price, quantity, payout, makerFee)
            && e.taker.reservedCash + e.taker.availableCash == OracleCash(taker, price, quantity, payout, takerFee)
            && e.maker.yes == OracleShares(maker, Yes, quantity) && e.maker.no == OracleShares(maker, No, quantity)
            && e.taker.yes == OracleShares(taker, Yes, quantity) && e.taker.no == OracleShares(taker, No, quantity)
            && e.collateral == OracleCollateral(maker, taker, quantity, payout)
            && e.revenue == makerFee + takerFee
  {
  }

  /** Buyers pay out of what they reserved, sellers are paid into what they may spend. */
  predicate FromRightPocket(intent: Intent, party: Party) {
    if intent.action.Buy? then party.availableCash == 0 && party.reservedCash <= 0
    else party.reservedCash == 0 && party.availableCash >= 0
  }

  /** What a fill is called says what it does: pairs are made or destroyed, or one outcome's shares change hands. */
  lemma KindTells(maker: Intent, taker: Intent, price: U64, quantity: U64, payout: U64, makerFee: U64, takerFee: U64)
    requires EconomicsOf(maker, taker, price, quantity, payout, makerFee, takerFee).Ok?
    ensures var e := EconomicsOf(maker, taker, price, quantity, payout, makerFee, takerFee).value;
            var yes, no := e.maker.yes + e.taker.yes, e.maker.no + e.taker.no;
            && maker.Side() != taker.Side() && quantity > 0
            && (e.kind.Mint? <==> yes > 0 && no > 0) && (e.kind.Burn? <==> yes < 0 && no < 0)
            && (e.kind.TransferYes? <==> yes == 0 && e.maker.yes != 0)
            && (e.kind.TransferNo? <==> no == 0 && e.maker.no != 0)
            && FromRightPocket(maker, e.maker) && FromRightPocket(taker, e.taker)
  {
    EconomicsBalance(maker, taker, price, quantity, payout, makerFee, takerFee);
  }

  /** Between opposite sides the oracle's deltas sum to zero. */
  lemma OracleBalances(maker: Intent, taker: Intent, price: int, quantity: int, payout: int, makerFee: int,
                       takerFee: int)
    requires maker.Side() != taker.Side()
    ensures OracleCash(maker, price, quantity, payout, makerFee) + OracleCash(taker, price, quantity, payout, takerFee)
            + OracleCollateral(maker, taker, quantity, payout) + makerFee + takerFee == 0
    ensures var yes := OracleShares(maker, Yes, quantity) + OracleShares(taker, Yes, quantity);
            && yes == OracleShares(maker, No, quantity) + OracleShares(taker, No, quantity)
            && OracleCollateral(maker, taker, quantity, payout) == payout * yes
  {
    assert price * quantity + (payout - price) * quantity == payout * quantity;
    assert payout * -quantity == -(payout * quantity);
  }

  /**
   Every fill is closed: cash, collateral and revenue deltas sum to zero, YES and NO are
   created and destroyed in equal numbers, and collateral moves by payout per pair.
   */
  lemma EconomicsBalance(maker: Intent, taker: Intent, price: U64, quantity: U64, payout: U64, makerFee: U64,
                         takerFee: U64)
    requires EconomicsOf(maker, taker, price, quantity, payout, makerFee, takerFee).Ok?
    ensures var e := EconomicsOf(maker, taker, price, quantity, payout, makerFee, takerFee).value;
            && e.maker.reservedCash + e.maker.availableCash + e.taker.reservedCash + e.taker.availableCash
               + e.collateral + e.revenue == 0
            && e.maker.yes + e.taker.yes == e.maker.no + e.taker.no
            && e.collateral == payout * (e.maker.yes + e.taker.yes)
  {
    EconomicsMeetOracle(maker, taker, price, quantity, payout, makerFee, takerFee);
    OracleBalances(maker, taker, price, quantity, payout, makerFee, takerFee);
  }

  predicate Crosses(taker: Intent, limit: int, price: int) {
    if taker.Side().Bid? then limit >= price else limit <= price
  }

  /** What one share of an intent's outcome costs when YES costs `price`. */
  function UnitCost(intent: Intent, price: int, payout: int): int {
    if intent.outcome.Yes? then price else payout - price
  }

  /** A taker meets a price exactly if a buyer pays no more for it, or a seller gets no less, than the limit says. */
  lemma LimitIsHonoured(intent: Intent, limit: U64, price: int, payout: U64)
    requires ValidPrice(limit, payout)
    ensures intent.CanonicalPrice(limit, payout).Ok?
    ensures Crosses(intent, intent.CanonicalPrice(limit, payout).value, price) <==>
              if intent.action.Buy? then UnitCost(intent, price, payout) <= limit
              else UnitCost(intent, price, payout) >= limit
  {
  }

  /** A maker trades at its own limit. */
  lemma MakersTradeAtLimit(o: Order, payout: U64)
    ensures UnitCost(o.intent, o.Price(payout), payout) == o.limitPrice
    ensures ValidPrice(o.limitPrice, payout) ==>
              o.intent.CanonicalPrice(o.limitPrice, payout) == Ok(o.Price(payout))
  {
  }

  /** Bids are the orders after which there is more YES than NO on their side of the trade. */
  lemma BidsGainYes(intent: Intent, quantity: nat)
    requires quantity > 0
    ensures intent.Side().Bid? <==> OracleShares(intent, Yes, quantity) > OracleShares(intent, No, quantity)
  {
  }

  /** A trade of this size at this price has a worth exactly within the limits; then each outcome's part is its cost. */
  lemma PrincipalsExactly(price: U64, quantity: U64, payout: U64)
    ensures PrincipalsOf(price, quantity, payout).Ok? <==>
              2 <= payout <= 1_000_000 && 0 < price < payout && 1 <= quantity <= 10_000_000
    ensures PrincipalsOf(price, quantity, payout).Ok? ==>
              var p := PrincipalsOf(price, quantity, payout).value;
              p.yes == price * quantity && p.no == (payout - price) * quantity && p.yes + p.no == p.pair
  {
    if ValidPrice(price, payout) && quantity <= MAX_QUANTITY {
      Fees.ProductMonotone(price, payout, quantity);
      Fees.ProductMonotone(payout - price, payout, quantity);
      Fees.ProductMonotone(quantity, MAX_QUANTITY, payout);
      Fees.ProductMonotone(payout, MAX_PAYOUT, MAX_QUANTITY);
      assert price * quantity + (payout - price) * quantity == payout * quantity;
      assert payout * quantity == quantity * payout && payout * MAX_QUANTITY == MAX_QUANTITY * payout;
    }
  }

  /** An order after trading this much at this price: smaller, and its lifetime notional larger by what was traded. */
  predicate CarriesOn(after: Order, before: Order, quantity: int, price: int, payout: int) {
    && after.remaining == before.remaining - quantity
    && after.chainNotional == before.chainNotional + UnitCost(before.intent, price, payout) * quantity
    && after == before.(remaining := after.remaining, chainNotional := after.chainNotional)
  }

  lemma TradedCarriesOn(order: Order, quantity: U64, price: U64, payout: U64)
    requires PrincipalsOf(price, quantity, payout).Ok? && quantity <= order.remaining
    requires Traded(order, quantity, PrincipalsOf(price, quantity, payout).value.ForOutcome(order.intent.outcome)).Ok?
    ensures CarriesOn(Traded(order, quantity,
                             PrincipalsOf(price, quantity, payout).value.ForOutcome(order.intent.outcome)).value,
                      order, quantity, price, payout)
  {
  }

  /** A fill trades all that both orders allow, and both carry on from it with the reserve of what is left. */
  lemma FillCarriesOn(maker: Order, taker: Order, price: U64, payout: U64, feeBps: nat)
    requires PlanFill(maker, taker, price, payout, feeBps).Ok?
    ensures var p := PlanFill(maker, taker, price, payout, feeBps).value;
            var quantity := p.fill.quantity;
            && 0 < quantity && (quantity == maker.remaining || quantity == taker.remaining)
            && quantity <= maker.remaining && quantity <= taker.remaining
            && CarriesOn(p.maker, maker, quantity, price, payout) && CarriesOn(p.taker, taker, quantity, price, payout)
            && ReserveOf(p.maker, feeBps) == Ok(p.fill.makerReserveAfter)
            && ReserveOf(p.taker, feeBps) == Ok(p.fill.takerReserveAfter)
            && p.fill.makerBefore == maker && p.fill.takerBefore == taker && p.fill.price == price
  {
    var quantity := Min(maker.remaining, taker.remaining);
    TradedCarriesOn(maker, quantity, price, payout);
    TradedCarriesOn(taker, quantity, price, payout);
  }

  /** Trading on keeps an order sound, except that it may end up with nothing remaining. */
  lemma TradedStaysSound(order: Order, quantity: U64, price: int, payout: U64)
    requires ValidPayout(payout) && Sound(order, payout)
    requires 0 < quantity <= order.remaining && 0 < price < payout
    requires price * quantity < TWO_64
    ensures Traded(order, quantity, price * quantity).Ok?
    ensures var after := Traded(order, quantity, price * quantity).value;
            && after.chainNotional + payout * after.remaining <= payout * MAX_QUANTITY
            && (after.remaining > 0 ==> Sound(after, payout))
  {
    Fees.ProductMonotone(price, payout, quantity);
    assert payout * order.remaining == payout * (order.remaining - quantity) + payout * quantity;
  }

  /**
   Between two sound orders on opposite sides none of the checked steps of a fill can fail:
   no overflow, and no sale whose fee exceeds its proceeds.
   */
  lemma PlanFillSucceeds(maker: Order, taker: Order, price: U64, payout: U64, feeBps: nat)
    requires feeBps <= Fees.MAX_FEE_BPS
    requires Sound(maker, payout) && Sound(taker, payout) && ValidPrice(price, payout)
    requires maker.intent.Side() != taker.intent.Side()
    ensures PlanFill(maker, taker, price, payout, feeBps).Ok?
    ensures var p := PlanFill(maker, taker, price, payout, feeBps).value;
            && (p.maker.remaining > 0 ==> Sound(p.maker, payout))
            && (p.taker.remaining > 0 ==> Sound(p.taker, payout))
            && p.taker.chainNotional + payout * p.taker.remaining <= payout * MAX_QUANTITY
  {
    var quantity := Min(maker.remaining, taker.remaining);
    Fees.ProductMonotone(price, payout, quantity);
    Fees.ProductMonotone(payout - price, payout, quantity);
    var principals := PrincipalsOf(price, quantity, payout).value;
    assert principals.pair <= MAX_PAYOUT * MAX_QUANTITY by {
      Fees.ProductMonotone(payout, MAX_PAYOUT, quantity);
    }
    TradedSide(maker, quantity, price, payout, feeBps);
    TradedSide(taker, quantity, price, payout, feeBps);
  }

  /** The checked steps one party of a fill goes through. */
  lemma TradedSide(order: Order, quantity: U64, price: U64, payout: U64, feeBps: nat)
    requires feeBps <= Fees.MAX_FEE_BPS
    requires Sound(order, payout) && ValidPrice(price, payout) && 0 < quantity <= order.remaining
    ensures PrincipalsOf(price, quantity, payout).Ok?
    ensures var principals := PrincipalsOf(price, quantity, payout).value;
            var notional := principals.ForOutcome(order.intent.outcome);
            var fee := Fees.FeeDelta(order.chainNotional, notional, feeBps);
            var after := Traded(order, quantity, notional);
            && notional == (if order.intent.outcome.Yes? then price else payout - price) * quantity
            && notional <= MAX_PAYOUT * MAX_QUANTITY
            && fee.Some? && fee.value == Fees.Charge(order.chainNotional, notional, feeBps) && fee.value <= notional
            && PartyOf(order.intent, principals, quantity, fee.value).Ok?
            && after.Ok? && ReserveOf(after.value, feeBps).Ok?
            && (after.value.remaining > 0 ==> Sound(after.value, payout))
            && after.value.chainNotional + payout * after.value.remaining <= payout * MAX_QUANTITY
  {
    Fees.ProductMonotone(price, payout, quantity);
    Fees.ProductMonotone(payout - price, payout, quantity);
    Fees.ProductMonotone(payout, MAX_PAYOUT, quantity);
    Fees.ProductMonotone(payout, MAX_PAYOUT, order.remaining);
    var unit := if order.intent.outcome.Yes? then price else payout - price;
    var notional := unit * quantity;
    TradedStaysSound(order, quantity, unit, payout);
    Fees.FeeDeltaIsCharge(order.chainNotional, notional, feeBps);
    Fees.ChargeBounds(order.chainNotional, notional, feeBps);
    SoundReserve(Traded(order, quantity, notional).value, payout, feeBps);
  }
}
