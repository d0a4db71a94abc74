/**
 The end-to-end tests' account of a placement, computed from its trades alone, and the proof
 that an executed placement meets it: seats, nonces, collateral, revenue, fees and priority.
 */
module Oracle {
  import opened Wrappers
  import opened Words
  import Fees
  import opened Orders
  import opened Matching
  import opened Placing
  import opened Slab
  import opened Matcher
  import opened Escrow
  import opened Settlement
  import opened Exchange

  // ---------- Collateral and revenue ----------

  function CollateralMoved(effects: seq<Effect>, payout: U64): int {
    if effects == [] then 0 else CollateralOf(effects[0], payout) + CollateralMoved(effects[1..], payout)
  }

  function CollateralOf(e: Effect, payout: U64): int {
    if !e.Filled? then 0 else OracleCollateral(e.fill.makerBefore.intent, e.fill.takerBefore.intent, e.fill.quantity,
                                               payout)
  }

  function FeesTaken(effects: seq<Effect>): nat {
    if effects == [] then 0 else
    (if effects[0].Filled? then effects[0].fill.makerFee + effects[0].fill.takerFee else 0) + FeesTaken(effects[1..])
  }

  /** Collateral and revenue move by exactly this. */
  predicate MarketMoved(before: Funds, after: Funds, collateral: int, revenue: int) {
    after.collateral == before.collateral + collateral && after.revenue == before.revenue + revenue
  }

  lemma EffectMovesMarket(l: Funds, e: Effect, submitter: nat, takerReserve: Reserve, reserve: Reserver, payout: U64)
    requires SettleEffect(l, e, submitter, takerReserve, reserve).Ok? && Economic(e, payout)
    ensures MarketMoved(l, SettleEffect(l, e, submitter, takerReserve, reserve).value.ledger,
                        CollateralMoved([e], payout), FeesTaken([e]))
  {
    if e.Filled? {
      var f := e.fill;
      EconomicsMeetOracle(f.makerBefore.intent, f.takerBefore.intent, f.price, f.quantity, payout, f.makerFee,
        f.takerFee);
    }
    assert [e][1..] == [];
  }

  lemma MarketSumsThen(e: Effect, later: seq<Effect>, payout: U64)
    ensures CollateralMoved([e] + later, payout) == CollateralMoved([e], payout) + CollateralMoved(later, payout)
    ensures FeesTaken([e] + later) == FeesTaken([e]) + FeesTaken(later)
  {
    assert ([e] + later)[1..] == later && [e][1..] == [];
  }

  /** Settling any effects moves collateral and revenue by what the tests compute from the trades. */
  lemma {:induction false} EffectsMoveMarket(
      l: Funds, effects: seq<Effect>, submitter: nat, takerReserve: Reserve, reserve: Reserver, payout: U64)
    requires SettleEffects(l, effects, submitter, takerReserve, reserve).Ok?
    requires forall e <- effects :: Economic(e, payout)
    ensures MarketMoved(l, SettleEffects(l, effects, submitter, takerReserve, reserve).value.ledger,
                        CollateralMoved(effects, payout), FeesTaken(effects))
    decreases |effects|
  {
    if effects != [] {
      EffectMovesMarket(l, effects[0], submitter, takerReserve, reserve, payout);
      var first := SettleEffect(l, effects[0], submitter, takerReserve, reserve).value;
      EffectsMoveMarket(first.ledger, effects[1..], submitter, first.takerReserve, reserve, payout);
      MarketSumsThen(effects[0], effects[1..], payout);
      assert [effects[0]] + effects[1..] == effects;
    }
  }

  lemma PlacementMovesMarket(l: Funds, effects: seq<Effect>, required: Reserve, final: Reserve, submitter: nat,
                             nonceAfter: U64, reserve: Reserver, payout: U64)
    requires submitter < |l.seats| && SettlePlacement(l, effects, required, final, submitter, nonceAfter, reserve).Ok?
    requires forall e <- effects :: Economic(e, payout)
    ensures MarketMoved(l, SettlePlacement(l, effects, required, final, submitter, nonceAfter, reserve).value,
                        CollateralMoved(effects, payout), FeesTaken(effects))
  {
    var locked := WithSeat(l, submitter, Lock(l.seats[submitter], required).value);
    EffectsMoveMarket(locked, effects, submitter, required, reserve, payout);
  }

  // ---------- Fees, fill by fill ----------

  /** What one fill is worth to its maker. */
  function MakerPrincipal(f: Fill, payout: U64): int {
    UnitPrice(f.makerBefore, f.price, payout) * f.quantity
  }

  /** A fill charges each side the rise of the fee on what that side has traded so far. */
  predicate ChargedAs(f: Fill, chain: int, payout: U64, feeBps: nat) {
    && 0 <= chain && 0 <= MakerPrincipal(f, payout) && 0 <= TakerPrincipal(f, payout)
    && f.makerFee == Fees.Charge(f.makerBefore.chainNotional, MakerPrincipal(f, payout), feeBps)
    && f.takerFee == Fees.Charge(chain, TakerPrincipal(f, payout), feeBps)
  }

  /** The same of every fill, the taker's chain carried from one to the next. */
  predicate FeesChained(effects: seq<Effect>, chain: int, payout: U64, feeBps: nat) {
    if effects == [] then true
    else if !effects[0].Filled? then FeesChained(effects[1..], chain, payout, feeBps)
    else
      && ChargedAs(effects[0].fill, chain, payout, feeBps)
      && FeesChained(effects[1..], chain + TakerPrincipal(effects[0].fill, payout), payout, feeBps)
  }

  lemma TouchChargesMaker(maker: Order, taker: Order, touched: nat, r: Rules)
    requires r.feeBps <= Fees.MAX_FEE_BPS && Sound(maker, r.payout) && Sound(taker, r.payout)
    requires maker.intent.Side() != taker.intent.Side()
    ensures var t := TouchOf(maker, taker, touched, r);
            t.effects != [] && t.effects[0].Filled? ==>
              var f := t.effects[0].fill;
              0 <= MakerPrincipal(f, r.payout) && f.makerBefore == maker
              && f.makerFee == Fees.Charge(maker.chainNotional, MakerPrincipal(f, r.payout), r.feeBps)
  {
    var t := TouchOf(maker, taker, touched, r);
    if t.effects != [] && t.effects[0].Filled? {
      var price := maker.Price(r.payout);
      PlanFillSucceeds(maker, taker, price, r.payout, r.feeBps);
      TradedSide(maker, Min(maker.remaining, taker.remaining), price, r.payout, r.feeBps);
      var p := PlanFill(maker, taker, price, r.payout, r.feeBps).value;
      assert t == Touch(Continue, [Filled(p.fill)], p.maker.remaining == 0, p.maker, p.taker, touched + 1);
    }
  }

  lemma ChainedThen(e: Effect, later: seq<Effect>, chain: int, next: int, payout: U64, feeBps: nat)
    requires FeesChained(later, next, payout, feeBps)
    requires if e.Filled?
             then ChargedAs(e.fill, chain, payout, feeBps) && next == chain + TakerPrincipal(e.fill, payout)
             else next == chain
    ensures FeesChained([e] + later, chain, payout, feeBps)
  {
    assert ([e] + later)[1..] == later;
  }

  /** One touch charges both sides as the tests expect. */
  lemma TouchIsCharged(maker: Order, taker: Order, touched: nat, r: Rules)
    requires r.feeBps <= Fees.MAX_FEE_BPS && Sound(maker, r.payout) && Sound(taker, r.payout)
    requires maker.intent.Side() != taker.intent.Side()
    ensures var t := TouchOf(maker, taker, touched, r);
            && FeesChained(t.effects, taker.chainNotional, r.payout, r.feeBps)
            && (t.effects != [] ==>
                  |t.effects| == 1 && FeeStep(taker, t.effects[0], t.taker, r)
                  && (t.effects[0].Filled? ==> ChargedAs(t.effects[0].fill, taker.chainNotional, r.payout, r.feeBps)))
  {
    TouchCharges(maker, taker, touched, r);
    TouchChargesMaker(maker, taker, touched, r);
    var t := TouchOf(maker, taker, touched, r);
    if t.effects != [] {
      assert t.effects == [t.effects[0]] && t.effects[1..] == [];
    }
  }

  lemma HaltIsCharged(makers: set<Order>, taker: Order, touched: nat, r: Rules)
    requires SideBook(makers, Opposite(taker.intent.Side()), r.payout) && makers != {} && taker.remaining > 0
    requires r.feeBps <= Fees.MAX_FEE_BPS && Sound(taker, r.payout)
    requires NextOf(Best(makers, r.payout), taker, touched, r).Halt? && Sweep(makers, taker, touched, r).Ok?
    ensures FeesChained(Sweep(makers, taker, touched, r).value.effects, taker.chainNotional, r.payout, r.feeBps)
  {
    SweepStep(makers, taker, touched, r);
    TouchIsCharged(Best(makers, r.payout), taker, touched, r);
  }

  lemma GoIsCharged(makers: set<Order>, taker: Order, touched: nat, r: Rules, later: seq<Effect>)
    requires SideBook(makers, Opposite(taker.intent.Side()), r.payout) && makers != {}
    requires r.feeBps <= Fees.MAX_FEE_BPS && Sound(taker, r.payout)
    requires NextOf(Best(makers, r.payout), taker, touched, r).Go?
    requires var go := NextOf(Best(makers, r.payout), taker, touched, r);
             FeesChained(later, go.taker.chainNotional, r.payout, r.feeBps)
    ensures var go := NextOf(Best(makers, r.payout), taker, touched, r);
            FeesChained([go.effect] + later, taker.chainNotional, r.payout, r.feeBps)
  {
    var maker := Best(makers, r.payout);
    TouchIsCharged(maker, taker, touched, r);
    var go := NextOf(maker, taker, touched, r);
    ChainedThen(go.effect, later, taker.chainNotional, go.taker.chainNotional, r.payout, r.feeBps);
  }

  /** Every fill of a sweep is charged as the tests expect, the taker's chain running through all of them. */
  lemma {:induction false} SweepIsCharged(makers: set<Order>, taker: Order, touched: nat, r: Rules)
    requires SideBook(makers, Opposite(taker.intent.Side()), r.payout)
    requires r.feeBps <= Fees.MAX_FEE_BPS && (taker.remaining > 0 ==> Sound(taker, r.payout))
    requires Sweep(makers, taker, touched, r).Ok?
    ensures FeesChained(Sweep(makers, taker, touched, r).value.effects, taker.chainNotional, r.payout, r.feeBps)
    decreases |makers|
  {
    if taker.remaining == 0 || makers == {} {
      NothingIsCharged(makers, taker, touched, r);
    } else {
      var maker := Best(makers, r.payout);
      var go := NextOf(maker, taker, touched, r);
      if go.Halt? {
        HaltIsCharged(makers, taker, touched, r);
      } else {
        SweepGoesOn(makers, taker, touched, r);
        GoCharges(makers, taker, touched, r);
        SweepIsCharged(makers - {maker}, go.taker, touched + 1, r);
        GoIsCharged(makers, taker, touched, r, Sweep(makers - {maker}, go.taker, touched + 1, r).value.effects);
      }
    }
  }

  lemma NothingIsCharged(makers: set<Order>, taker: Order, touched: nat, r: Rules)
    requires SideBook(makers, Opposite(taker.intent.Side()), r.payout) && (taker.remaining == 0 || makers == {})
    ensures Sweep(makers, taker, touched, r).Ok? && Sweep(makers, taker, touched, r).value.effects == []
  {
  }

  // ---------- The whole placement ----------

  /** What the tests expect of seat `k`. */
  ghost predicate SeatMeets(before: Seat, after: Seat, d: Deltas, nonce: U64) {
    && Cash(after) == Cash(before) + d.cash && after.yes == before.yes + d.yes && after.no == before.no + d.no
    && after.wallet == before.wallet && after.nextNonce == nonce
  }

  /** What the tests expect of all money. */
  ghost predicate MoneyMeets(before: Funds, after: Funds, effects: seq<Effect>, submitter: nat, nonceAfter: U64,
                             payout: U64) {
    && |after.seats| == |before.seats| && after.accounted == before.accounted
    && MarketMoved(before, after, CollateralMoved(effects, payout), FeesTaken(effects))
    && forall k :: 0 <= k < |before.seats| ==>
         SeatMeets(before.seats[k], after.seats[k], OracleDeltas(effects, k, payout),
                   if k == submitter then nonceAfter else before.seats[k].nextNonce)
  }

  /** What the tests expect of the trades themselves: resting makers, their prices, priority, and chained fees. */
  ghost predicate TradesMeet(sides: Sides, effects: seq<Effect>, incoming: Incoming, now: int, touchLimit: nat,
                             t: Terms) {
    var order := incoming.order;
    && ValidPrice(order.limitPrice, t.payout)
    && var r := RulesFor(incoming, now, touchLimit, order.intent.CanonicalPrice(order.limitPrice, t.payout).value, t);
    && (forall e <- effects :: Justified(e, sides.Of(Opposite(order.intent.Side())), order, r))
    && InPriority(effects, t.payout) && |effects| <= touchLimit
    && FeesChained(effects, order.chainNotional, t.payout, t.feeBps)
  }

  lemma FairTradesAreEconomic(effects: seq<Effect>, makers: set<Order>, taker: Order, r: Rules)
    requires forall e <- effects :: Justified(e, makers, taker, r)
    ensures forall e <- effects :: Economic(e, r.payout)
  {
    forall e <- effects ensures Economic(e, r.payout) {
      if e.Filled? {
        FairFillIsEconomic(e.fill, r);
      }
    }
  }

  lemma AdmittedTradesMeet(sides: Sides, incoming: Incoming, now: int, touchLimit: nat, revision: U64,
                           nextSequence: U64, t: Terms)
    requires SidesOk(sides, t.payout) && t.feeBps <= Fees.MAX_FEE_BPS && FreshTaker(incoming.order, sides, t)
    requires var placed := Place(sides, incoming, now, touchLimit, revision, nextSequence, t);
             placed.Ok? && placed.value.admitted
    ensures var p := Place(sides, incoming, now, touchLimit, revision, nextSequence, t).value;
            && TradesMeet(sides, p.effects, incoming, now, touchLimit, t)
            && forall e <- p.effects :: Economic(e, t.payout)
  {
    var order := incoming.order;
    AdmittedShape(sides, incoming, now, touchLimit, revision, nextSequence, t);
    PlaceShape(sides, incoming, now, touchLimit, revision, nextSequence, t);
    PlacementConserves(sides, incoming, now, touchLimit, revision, nextSequence, t);
    var makers := sides.Of(Opposite(order.intent.Side()));
    var r := RulesFor(incoming, now, touchLimit, order.intent.CanonicalPrice(order.limitPrice, t.payout).value, t);
    SweepIsFair(makers, order, 0, r);
    SweepIsCharged(makers, order, 0, r);
    FairTradesAreEconomic(Sweep(makers, order, 0, r).value.effects, makers, order, r);
  }

  lemma SettledMoneyMeets(l: Funds, p: Placement, submitter: nat, nonceAfter: U64, reserve: Reserver, payout: U64)
    requires submitter < |l.seats|
    requires SettlePlacement(l, p.effects, p.requiredReserve, p.finalReserve, submitter, nonceAfter, reserve).Ok?
    requires forall e <- p.effects :: Economic(e, payout)
    ensures MoneyMeets(l, SettlePlacement(l, p.effects, p.requiredReserve, p.finalReserve, submitter, nonceAfter,
                                          reserve).value,
                       p.effects, submitter, nonceAfter, payout)
  {
    PlacementMovesMarket(l, p.effects, p.requiredReserve, p.finalReserve, submitter, nonceAfter, reserve, payout);
    var after := SettlePlacement(l, p.effects, p.requiredReserve, p.finalReserve, submitter, nonceAfter, reserve).value;
    PlacementMeetsOracle(l, p.effects, p.requiredReserve, p.finalReserve, submitter, nonceAfter, reserve, payout,
      submitter);
    forall k | 0 <= k < |l.seats|
      ensures SeatMeets(l.seats[k], after.seats[k], OracleDeltas(p.effects, k, payout),
                        if k == submitter then nonceAfter else l.seats[k].nextNonce)
    {
      PlacementMeetsOracle(l, p.effects, p.requiredReserve, p.finalReserve, submitter, nonceAfter, reserve, payout, k);
    }
  }

  /** Every executed placement meets the tests' oracle in full. */
  lemma ExecutionMeetsOracle(l: Funds, sides: Sides, revision: U64, nextSequence: U64, t: Terms,
                             incoming: Incoming, now: int, touchLimit: nat, nonceAfter: U64)
    requires SidesOk(sides, t.payout) && t.feeBps <= Fees.MAX_FEE_BPS && incoming.order.owner < |l.seats|
    requires ValidateOrder(incoming.order, t.payout).None? ==> FreshTaker(incoming.order, sides, t)
    requires Executing(l, sides, revision, nextSequence, t, incoming, now, touchLimit, nonceAfter).Ok?
    ensures var x := Executing(l, sides, revision, nextSequence, t, incoming, now, touchLimit, nonceAfter).value;
            && TradesMeet(sides, x.placement.effects, incoming, now, touchLimit, t)
            && MoneyMeets(l, x.ledger, x.placement.effects, incoming.order.owner, nonceAfter, t.payout)
  {
    var p := Place(sides, incoming, now, touchLimit, revision, nextSequence, t).value;
    PlaceShape(sides, incoming, now, touchLimit, revision, nextSequence, t);
    PlacementConserves(sides, incoming, now, touchLimit, revision, nextSequence, t);
    AdmittedTradesMeet(sides, incoming, now, touchLimit, revision, nextSequence, t);
    SettledMoneyMeets(l, p, incoming.order.owner, nonceAfter, AtRate(t.feeBps), t.payout);
  }

  /** So does every placement the market answers with a report. */
  lemma AnswerMeetsOracle(before: MarketState, after: MarketState, report: Report, t: Terms,
                          incoming: Incoming, now: int, touchLimit: nat, nonceAfter: U64)
    requires t.feeBps <= Fees.MAX_FEE_BPS
    requires Answered(before, after, Ok(report), t, incoming, now, touchLimit, nonceAfter)
    requires ValidateOrder(incoming.order, t.payout).None? ==> FreshTaker(incoming.order, before.sides, t)
    ensures TradesMeet(before.sides, report.effects, incoming, now, touchLimit, t)
    ensures MoneyMeets(before.money, after.money, report.effects, incoming.order.owner, nonceAfter, t.payout)
  {
    ExecutionMeetsOracle(before.money, before.sides, before.revision, before.nextSequence, t, incoming, now, touchLimit,
      nonceAfter);
  }

  /** What an answer with a report says is what was placed, and its numbers, names and own orders are in order. */
  ghost predicate ReportTells(report: Report, p: Placement, before: Sides, after: Sides, incoming: Incoming, r: Rules) {
    && report.disposition == p.disposition && report.effects == p.effects && report.taker == p.taker
    && report.filled == p.filled && report.canceled == p.canceled && report.rested == p.rested
    && report.touched == p.touched && after == p.sides
    && OwnOrdersSpared(incoming, p) && WellNamed(before, incoming, p, r)
  }

  /** What is executed spares own orders as asked and names what it cancels and how it ends. */
  lemma ExecutionTells(l: Funds, sides: Sides, revision: U64, nextSequence: U64, t: Terms, incoming: Incoming,
                       now: int, touchLimit: nat, nonceAfter: U64)
    requires SidesOk(sides, t.payout) && incoming.order.owner < |l.seats|
    requires Executing(l, sides, revision, nextSequence, t, incoming, now, touchLimit, nonceAfter).Ok?
    ensures var x := Executing(l, sides, revision, nextSequence, t, incoming, now, touchLimit, nonceAfter).value;
            var p := x.placement;
            && ValidPrice(incoming.order.limitPrice, t.payout)
            && OwnOrdersSpared(incoming, p) && WellNamed(sides, incoming, p, RulesOf(incoming, now, touchLimit, t))
  {
    PlacementTells(sides, incoming, now, touchLimit, revision, nextSequence, t);
  }

  /** The same of the stored market: own orders kept out of the way as asked, and nothing canceled without reason. */
  lemma AnswerTells(before: MarketState, after: MarketState, report: Report, t: Terms,
                    incoming: Incoming, now: int, touchLimit: nat, nonceAfter: U64)
    requires Answered(before, after, Ok(report), t, incoming, now, touchLimit, nonceAfter)
    ensures ValidPrice(incoming.order.limitPrice, t.payout)
    ensures exists p :: ReportTells(report, p, before.sides, after.sides, incoming,
                                    RulesOf(incoming, now, touchLimit, t))
  {
    var p := Executing(before.money, before.sides, before.revision, before.nextSequence, t, incoming, now, touchLimit,
      nonceAfter).value.placement;
    ExecutionTells(before.money, before.sides, before.revision, before.nextSequence, t, incoming, now, touchLimit,
      nonceAfter);
    assert ReportTells(report, p, before.sides, after.sides, incoming, RulesOf(incoming, now, touchLimit, t));
  }
}
