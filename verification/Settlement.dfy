/**
 Settling the effects of a matched order against the seats, effect by effect. Starting
 from a backed ledger none of the checks along the way can fail.
 */
module Settlement {
  import opened Wrappers
  import opened Words
  import Fees
  import opened Orders
  import opened Matching
  import opened Placing
  import opened Escrow

  function WithSeat(l: Funds, i: nat, s: Seat): Funds
    requires i < |l.seats|
  {
    l.(seats := l.seats[i := s])
  }

  /** A removed order gives its owner the whole of its reserve back. */
  function SettleRemoval(l: Funds, o: Order, reserve: Reserver): Result<Funds, Fault> {
    if o.owner >= |l.seats| then Err(Binding) else
    match reserve(o)
    case Err(e) => Err(Matcher(e))
    case Ok(held) =>
      var seat :- Unlock(l.seats[o.owner], held);
      Ok(WithSeat(l, o.owner, seat))
  }

  /** A fill settles the maker, then the taker, then collateral and revenue. */
  function SettleFill(l: Funds, f: Fill, submitter: nat, takerReserve: Reserve,
                      reserve: Reserver): Result<Funds, Fault> {
    if f.makerBefore.owner == submitter || f.takerBefore.owner != submitter then Err(Binding) else
    if f.makerBefore.owner >= |l.seats| || submitter >= |l.seats| then Err(Binding) else
    match reserve(f.makerBefore)
    case Err(e) => Err(Matcher(e))
    case Ok(before) =>
      var maker :- SettleSeat(l.seats[f.makerBefore.owner], before, f.makerReserveAfter, f.economics.maker);
      var taker :- SettleSeat(l.seats[submitter], takerReserve, f.takerReserveAfter, f.economics.taker);
      var collateral :- Delta(l.collateral, f.economics.collateral);
      var revenue :- Delta(l.revenue, f.economics.revenue);
      Ok(Funds(l.seats[f.makerBefore.owner := maker][submitter := taker], l.accounted, collateral, revenue))
  }

  /** The ledger after one effect, and what the taker has locked then. */
  datatype Step = Step(ledger: Funds, takerReserve: Reserve)

  function SettleEffect(l: Funds, e: Effect, submitter: nat, takerReserve: Reserve,
                        reserve: Reserver): Result<Step, Fault> {
    match e
    case Removed(o, _) =>
      var after :- SettleRemoval(l, o, reserve);
      Ok(Step(after, takerReserve))
    case Filled(f) =>
      var after :- SettleFill(l, f, submitter, takerReserve, reserve);
      Ok(Step(after, f.takerReserveAfter))
  }

  function SettleEffects(l: Funds, effects: seq<Effect>, submitter: nat, takerReserve: Reserve,
                         reserve: Reserver): Result<Step, Fault>
    decreases |effects|
  {
    if effects == [] then Ok(Step(l, takerReserve)) else
    var first :- SettleEffect(l, effects[0], submitter, takerReserve, reserve);
    SettleEffects(first.ledger, effects[1..], submitter, first.takerReserve, reserve)
  }

  // ---------- Removals ----------

  /** Owed amounts of every seat when one live order goes. */
  lemma OwedWithout(live: set<Order>, o: Order, i: nat, submitter: nat, extra: Hold, reserve: Reserver)
    requires o in live && reserve(o).Ok?
    ensures o.owner != i ==> Owed(live - {o}, i, submitter, extra, reserve) == Owed(live, i, submitter, extra, reserve)
    ensures o.owner == i ==>
              Owed(live, i, submitter, extra, reserve) ==
              AsHold(reserve(o).value).Plus(Owed(live - {o}, i, submitter, extra, reserve))
  {
    HeldWithout(live, o, i, reserve);
  }

  /** Replacing a seat by one that moved nothing in or out keeps the ledger balanced. */
  lemma StillBalanced(l: Funds, i: nat, s: Seat, payout: U64)
    requires InBalance(l, payout) && i < |l.seats| && Moved(l.seats[i], s, 0, 0, 0)
    ensures InBalance(WithSeat(l, i, s), payout)
  {
    TotalsUpdate(l.seats, i, s);
  }

  /**
   Removing a live order refunds exactly what its owner had reserved for it, and keeps the
   ledger backed by the remaining orders; no other seat changes.
   */
  lemma RemovalSettles(l: Funds, live: set<Order>, o: Order, submitter: nat, extra: Hold, payout: U64,
                       reserve: Reserver)
    requires Backed(l, live, submitter, extra, payout, reserve) && 2 <= payout
    requires o in live && reserve(o).Ok?
    ensures SettleRemoval(l, o, reserve).Ok?
    ensures var after := SettleRemoval(l, o, reserve).value;
            && Backed(after, live - {o}, submitter, extra, payout, reserve)
            && after == WithSeat(l, o.owner, l.seats[o.owner].(
                 availableCash := l.seats[o.owner].availableCash + reserve(o).value.cash,
                 reservedCash := l.seats[o.owner].reservedCash - reserve(o).value.cash,
                 reservedYes := l.seats[o.owner].reservedYes - reserve(o).value.yes,
                 reservedNo := l.seats[o.owner].reservedNo - reserve(o).value.no))
  {
    var seat := l.seats[o.owner];
    OwedWithout(live, o, o.owner, submitter, extra, reserve);
    SeatsAreSmall(l, payout, o.owner);
    UnlockReleases(seat, Owed(live - {o}, o.owner, submitter, extra, reserve), reserve(o).value);
    var freed := Unlock(seat, reserve(o).value).value;
    StillBalanced(l, o.owner, freed, payout);
    forall i | 0 <= i < |l.seats|
      ensures Reserves(l.seats[o.owner := freed][i], Owed(live - {o}, i, submitter, extra, reserve))
    {
      OwedWithout(live, o, i, submitter, extra, reserve);
    }
  }

  // ---------- Fills ----------

  /** A fill as the planner makes it: closed deltas, both parties funded by what they had reserved. */
  ghost predicate SettlesCleanly(f: Fill, makerBefore: Reserve, takerBefore: Reserve, payout: U64) {
    var e := f.economics;
    && Funded(makerBefore, f.makerReserveAfter, e.maker) && Funded(takerBefore, f.takerReserveAfter, e.taker)
    && e.maker.reservedCash + e.maker.availableCash + e.taker.reservedCash + e.taker.availableCash
       + e.collateral + e.revenue == 0
    && e.maker.yes + e.taker.yes == e.maker.no + e.taker.no
    && e.collateral == payout * (e.maker.yes + e.taker.yes)
    && 0 <= e.revenue
    && -MAX_QUANTITY <= e.maker.yes <= MAX_QUANTITY && -MAX_QUANTITY <= e.maker.no <= MAX_QUANTITY
    && -MAX_QUANTITY <= e.taker.yes <= MAX_QUANTITY && -MAX_QUANTITY <= e.taker.no <= MAX_QUANTITY
  }

  /** Collateral follows the number of open pairs. */
  lemma PairsMove(pairs: int, change: int, payout: nat, collateral: int, moved: int)
    requires pairs * payout == collateral && moved == payout * change
    ensures (pairs + change) * payout == collateral + moved
    ensures pairs + change >= 0 ==> collateral + moved >= 0
  {
    assert (pairs + change) * payout == pairs * payout + payout * change;
  }

  /** What the checks of a fill compare stays inside 64 bits. */
  lemma FillBounds(l: Funds, i: nat, j: nat, makerHold: Hold, takerHold: Hold, f: Fill, makerBefore: Reserve,
                   takerBefore: Reserve, payout: U64)
    requires InBalance(l, payout) && 2 <= payout && i < |l.seats| && j < |l.seats| && i != j
    requires Reserves(l.seats[i], AsHold(makerBefore).Plus(makerHold))
    requires Reserves(l.seats[j], AsHold(takerBefore).Plus(takerHold))
    requires SettlesCleanly(f, makerBefore, takerBefore, payout)
    ensures var m := f.economics.maker; var k := f.economics.taker;
            && 0 <= l.collateral + f.economics.collateral
            && 0 <= Cash(l.seats[i]) + m.reservedCash + m.availableCash
            && 0 <= Cash(l.seats[j]) + k.reservedCash + k.availableCash
            && Cash(l.seats[i]) + m.reservedCash + m.availableCash <= l.accounted
            && Cash(l.seats[j]) + k.reservedCash + k.availableCash <= l.accounted
            && l.collateral + f.economics.collateral <= l.accounted
            && l.revenue + f.economics.revenue <= l.accounted
  {
    TotalsCover(l.seats, i, j);
    var t := TotalsOf(l.seats);
    var e := f.economics;
    PairsMove(t.yes, e.maker.yes + e.taker.yes, payout, l.collateral, e.collateral);
  }

  /** Two seats change; the ledger stays balanced because the fill's deltas are closed. */
  lemma FillBalances(l: Funds, i: nat, j: nat, maker: Seat, taker: Seat, e: Economics, collateral: U64, revenue: U64,
                     payout: U64)
    requires InBalance(l, payout) && i < |l.seats| && j < |l.seats| && i != j
    requires Moved(l.seats[i], maker, e.maker.reservedCash + e.maker.availableCash, e.maker.yes, e.maker.no)
    requires Moved(l.seats[j], taker, e.taker.reservedCash + e.taker.availableCash, e.taker.yes, e.taker.no)
    requires e.maker.reservedCash + e.maker.availableCash + e.taker.reservedCash + e.taker.availableCash
             + e.collateral + e.revenue == 0
    requires e.maker.yes + e.taker.yes == e.maker.no + e.taker.no
    requires e.collateral == payout * (e.maker.yes + e.taker.yes)
    requires collateral == l.collateral + e.collateral && revenue == l.revenue + e.revenue
    ensures InBalance(Funds(l.seats[i := maker][j := taker], l.accounted, collateral, revenue), payout)
  {
    TotalsUpdate(l.seats, i, maker);
    TotalsUpdate(l.seats[i := maker], j, taker);
    PairsMove(TotalsOf(l.seats).yes, e.maker.yes + e.taker.yes, payout, l.collateral, e.collateral);
  }

  /** A clean fill between two backed seats settles, and leaves them backed by what they hold afterwards. */
  lemma CleanFillSettles(l: Funds, f: Fill, submitter: nat, makerHold: Hold, takerHold: Hold, takerBefore: Reserve,
                         payout: U64, reserve: Reserver)
    requires InBalance(l, payout) && 2 <= payout
    requires f.makerBefore.owner != submitter && f.takerBefore.owner == submitter
    requires f.makerBefore.owner < |l.seats| && submitter < |l.seats| && reserve(f.makerBefore).Ok?
    requires Reserves(l.seats[f.makerBefore.owner], AsHold(reserve(f.makerBefore).value).Plus(makerHold))
    requires Reserves(l.seats[submitter], AsHold(takerBefore).Plus(takerHold))
    requires SettlesCleanly(f, reserve(f.makerBefore).value, takerBefore, payout)
    ensures SettleFill(l, f, submitter, takerBefore, reserve).Ok?
    ensures var after := SettleFill(l, f, submitter, takerBefore, reserve).value;
            var e := f.economics;
            var i := f.makerBefore.owner;
            && InBalance(after, payout) && after.accounted == l.accounted && |after.seats| == |l.seats|
            && Reserves(after.seats[i], AsHold(f.makerReserveAfter).Plus(makerHold))
            && Reserves(after.seats[submitter], AsHold(f.takerReserveAfter).Plus(takerHold))
            && Moved(l.seats[i], after.seats[i], e.maker.reservedCash + e.maker.availableCash, e.maker.yes, e.maker.no)
            && Moved(l.seats[submitter], after.seats[submitter], e.taker.reservedCash + e.taker.availableCash,
                     e.taker.yes, e.taker.no)
            && after.seats[i].everTraded && after.seats[submitter].everTraded
            && (forall k :: 0 <= k < |l.seats| && k != i && k != submitter ==> after.seats[k] == l.seats[k])
            && after.collateral == l.collateral + e.collateral && after.revenue == l.revenue + e.revenue
  {
    var i := f.makerBefore.owner;
    var before := reserve(f.makerBefore).value;
    FillBounds(l, i, submitter, makerHold, takerHold, f, before, takerBefore, payout);
    SeatsAreSmall(l, payout, i);
    SeatsAreSmall(l, payout, submitter);
    SettleSeatSucceeds(l.seats[i], makerHold, before, f.makerReserveAfter, f.economics.maker);
    SettleSeatSucceeds(l.seats[submitter], takerHold, takerBefore, f.takerReserveAfter, f.economics.taker);
    var maker := SettleSeat(l.seats[i], before, f.makerReserveAfter, f.economics.maker).value;
    var taker := SettleSeat(l.seats[submitter], takerBefore, f.takerReserveAfter, f.economics.taker).value;
    FillBalances(l, i, submitter, maker, taker, f.economics, l.collateral + f.economics.collateral,
                 l.revenue + f.economics.revenue, payout);
  }

  /** The price of one share to this order when a YES share costs `price`. */
  function UnitPrice(order: Order, price: U64, payout: U64): int {
    if order.intent.outcome.Yes? then price else payout - price
  }

  /**
   Trading at its limit or better, an order's own reserve pays for the trade, its fee, and
   the reserve of what remains; at exactly its limit nothing is left over.
   */
  lemma SideFunded(order: Order, quantity: U64, price: U64, payout: U64, feeBps: nat)
    requires feeBps <= Fees.MAX_FEE_BPS
    requires Sound(order, payout) && ValidPrice(price, payout) && 0 < quantity <= order.remaining
    requires order.intent.action.Buy? ==> UnitPrice(order, price, payout) <= order.limitPrice
    ensures PrincipalsOf(price, quantity, payout).Ok? && ReserveOf(order, feeBps).Ok?
    ensures var principals := PrincipalsOf(price, quantity, payout).value;
            var notional := principals.ForOutcome(order.intent.outcome);
            var fee := Fees.FeeDelta(order.chainNotional, notional, feeBps);
            var after := Traded(order, quantity, notional);
            && fee.Some? && after.Ok? && ReserveOf(after.value, feeBps).Ok?
            && PartyOf(order.intent, principals, quantity, fee.value).Ok?
            && var party := PartyOf(order.intent, principals, quantity, fee.value).value;
               && Funded(ReserveOf(order, feeBps).value, ReserveOf(after.value, feeBps).value, party)
               && (UnitPrice(order, price, payout) == order.limitPrice ==>
                     ReserveOf(after.value, feeBps).value.cash ==
                     ReserveOf(order, feeBps).value.cash + party.reservedCash)
  {
    TradedSide(order, quantity, price, payout, feeBps);
    SoundReserve(order, payout, feeBps);
    if order.intent.action.Buy? {
      var unit := UnitPrice(order, price, payout);
      var after := Traded(order, quantity, unit * quantity).value;
      SoundReserve(after, payout, feeBps);
      Fees.BuyReserveCoversFill(order.limitPrice, order.remaining, order.chainNotional, unit, quantity, feeBps);
    }
  }

  /** Every fill the sweep plans is clean. */
  lemma PlannedFillIsClean(maker: Order, taker: Order, payout: U64, feeBps: nat)
    requires feeBps <= Fees.MAX_FEE_BPS && Sound(maker, payout) && Sound(taker, payout)
    requires maker.intent.Side() != taker.intent.Side()
    requires taker.intent.action.Buy? ==> UnitPrice(taker, maker.Price(payout), payout) <= taker.limitPrice
    ensures ReserveOf(maker, feeBps).Ok? && ReserveOf(taker, feeBps).Ok?
    ensures PlanFill(maker, taker, maker.Price(payout), payout, feeBps).Ok?
    ensures var p := PlanFill(maker, taker, maker.Price(payout), payout, feeBps).value;
            && SettlesCleanly(p.fill, ReserveOf(maker, feeBps).value, ReserveOf(taker, feeBps).value, payout)
            && ReserveOf(p.maker, feeBps) == Ok(p.fill.makerReserveAfter)
            && ReserveOf(p.taker, feeBps) == Ok(p.fill.takerReserveAfter)
  {
    var price := maker.Price(payout);
    var quantity := Min(maker.remaining, taker.remaining);
    PlanFillSucceeds(maker, taker, price, payout, feeBps);
    SideFunded(maker, quantity, price, payout, feeBps);
    SideFunded(taker, quantity, price, payout, feeBps);
    var f := PlanFill(maker, taker, price, payout, feeBps).value.fill;
    EconomicsBalance(maker.intent, taker.intent, price, quantity, payout, f.makerFee, f.takerFee);
  }

  // ---------- A whole sweep ----------

  lemma SpentReservesNothing(order: Order, feeBps: nat)
    requires order.remaining == 0 && feeBps <= Fees.MAX_FEE_BPS
    ensures ReserveOf(order, feeBps) == Ok(NoReserve())
  {
    if order.intent.action.Buy? {
      Fees.BuyReserveIsNeed(order.limitPrice, 0, order.chainNotional, feeBps);
    }
  }

  /** One touch, as settlement sees it. */
  ghost predicate CleanTouch(maker: Order, taker: Order, t: Touch, payout: U64, reserve: Reserver) {
    && reserve(maker).Ok? && reserve(taker).Ok? && reserve(t.taker).Ok?
    && t.taker.owner == taker.owner
    && (!t.pop ==> reserve(t.maker).Ok? && SameOrder(t.maker, maker))
    && (t.effects == [] || (|t.effects| == 1 && MakerOf(t.effects[0]) == maker))
    && (t.effects == [] ==> !t.pop && t.maker == maker && t.taker == taker)
    && (t.effects != [] && t.effects[0].Removed? ==> t.pop && t.taker == taker)
    && (t.effects != [] && t.effects[0].Filled? ==>
          var f := t.effects[0].fill;
          && f.takerBefore == taker && maker.owner != taker.owner
          && SettlesCleanly(f, reserve(maker).value, reserve(taker).value, payout)
          && reserve(t.taker).value == f.takerReserveAfter
          && (if t.pop then f.makerReserveAfter == NoReserve() else reserve(t.maker).value == f.makerReserveAfter))
  }

  lemma TouchIsClean(maker: Order, taker: Order, touched: nat, r: Rules, reserve: Reserver)
    requires reserve == AtRate(r.feeBps) && r.feeBps <= Fees.MAX_FEE_BPS
    requires Sound(maker, r.payout) && Sound(taker, r.payout) && maker.intent.Side() != taker.intent.Side()
    requires r.limit == taker.Price(r.payout)
    requires !TouchOf(maker, taker, touched, r).verdict.Failed?
    ensures CleanTouch(maker, taker, TouchOf(maker, taker, touched, r), r.payout, reserve)
  {
    SoundReserve(maker, r.payout, r.feeBps);
    SoundReserve(taker, r.payout, r.feeBps);
    var t := TouchOf(maker, taker, touched, r);
    if t.effects != [] && t.effects[0].Filled? {
      PlannedFillIsClean(maker, taker, r.payout, r.feeBps);
      var p := PlanFill(maker, taker, maker.Price(r.payout), r.payout, r.feeBps).value;
      FillShape(maker, taker, maker.Price(r.payout), r.payout, r.feeBps);
      assert t == Touch(Continue, [Filled(p.fill)], p.maker.remaining == 0, p.maker, p.taker, touched + 1);
      if p.maker.remaining == 0 {
        SpentReservesNothing(p.maker, r.feeBps);
      }
    }
  }

  /** `live` is backed while the submitter has the reserve of `taker` locked. */
  ghost predicate InFlight(l: Funds, live: set<Order>, taker: Order, payout: U64, reserve: Reserver) {
    && reserve(taker).Ok? && taker.owner < |l.seats| && 2 <= payout
    && Backed(l, live, taker.owner, AsHold(reserve(taker).value), payout, reserve)
  }

  lemma SettleOne(l: Funds, e: Effect, submitter: nat, takerReserve: Reserve, reserve: Reserver)
    ensures SettleEffects(l, [e], submitter, takerReserve, reserve) ==
            SettleEffect(l, e, submitter, takerReserve, reserve)
  {
  }

  lemma SettleThen(l: Funds, e: Effect, later: seq<Effect>, submitter: nat, takerReserve: Reserve, reserve: Reserver)
    requires SettleEffect(l, e, submitter, takerReserve, reserve).Ok?
    ensures var first := SettleEffect(l, e, submitter, takerReserve, reserve).value;
            SettleEffects(l, [e] + later, submitter, takerReserve, reserve) ==
            SettleEffects(first.ledger, later, submitter, first.takerReserve, reserve)
  {
    assert ([e] + later)[1..] == later;
  }

  /** What seats owe after a fill: the maker's order shrank or left, the taker's reserve changed. */
  lemma FillOwes(live: set<Order>, maker: Order, next: Order, pop: bool, i: nat, submitter: nat, before: Hold,
                 after: Hold, reserve: Reserver)
    requires maker in live && reserve(maker).Ok? && maker.owner != submitter
    requires !pop ==> reserve(next).Ok? && next.owner == maker.owner && next !in live - {maker}
    ensures var left := if pop then live - {maker} else live - {maker} + {next};
            var rest := Held(live - {maker}, i, reserve);
            && (i == maker.owner ==>
                  && Owed(live, i, submitter, before, reserve) == AsHold(reserve(maker).value).Plus(rest)
                  && Owed(left, i, submitter, after, reserve) ==
                     if pop then rest else AsHold(reserve(next).value).Plus(rest))
            && (i == submitter ==>
                  && Owed(live, i, submitter, before, reserve) == before.Plus(rest)
                  && Owed(left, i, submitter, after, reserve) == after.Plus(rest))
            && (i != maker.owner && i != submitter ==>
                  Owed(left, i, submitter, after, reserve) == Owed(live, i, submitter, before, reserve))
  {
    HeldWithout(live, maker, i, reserve);
    if !pop {
      HeldWith(live - {maker}, next, i, reserve);
    }
  }

  /** Settling a fill of the best order keeps the ledger backed by the orders left afterwards. */
  lemma FillSettles(l: Funds, live: set<Order>, maker: Order, taker: Order, t: Touch, payout: U64, reserve: Reserver)
    requires InFlight(l, live, taker, payout, reserve) && maker in live
    requires CleanTouch(maker, taker, t, payout, reserve) && t.effects != [] && t.effects[0].Filled?
    requires !t.pop ==> t.maker !in live - {maker}
    ensures var step := SettleEffect(l, t.effects[0], taker.owner, reserve(taker).value, reserve);
            && step.Ok? && step.value.takerReserve == reserve(t.taker).value
            && InFlight(step.value.ledger, MakersAfter(live, maker, t), t.taker, payout, reserve)
  {
    var f := t.effects[0].fill;
    var submitter := taker.owner;
    var left := MakersAfter(live, maker, t);
    var before, after := AsHold(reserve(taker).value), AsHold(reserve(t.taker).value);
    FillOwes(live, maker, t.maker, t.pop, maker.owner, submitter, before, after, reserve);
    FillOwes(live, maker, t.maker, t.pop, submitter, submitter, before, after, reserve);
    CleanFillSettles(l, f, submitter, Held(live - {maker}, maker.owner, reserve),
                     Held(live - {maker}, submitter, reserve),
                     reserve(taker).value, payout, reserve);
    var settled := SettleFill(l, f, submitter, reserve(taker).value, reserve).value;
    forall i | 0 <= i < |l.seats| ensures Reserves(settled.seats[i], Owed(left, i, submitter, after, reserve)) {
      FillOwes(live, maker, t.maker, t.pop, i, submitter, before, after, reserve);
    }
    forall o <- left ensures o.owner < |l.seats| {
      assert o in live || o == t.maker;
    }
  }

  /** Settling whatever one touch did. */
  lemma TouchSettles(l: Funds, live: set<Order>, maker: Order, taker: Order, t: Touch, payout: U64, reserve: Reserver)
    requires InFlight(l, live, taker, payout, reserve) && maker in live
    requires CleanTouch(maker, taker, t, payout, reserve)
    requires !t.pop ==> t.maker !in live - {maker}
    ensures var step := SettleEffects(l, t.effects, taker.owner, reserve(taker).value, reserve);
            && step.Ok? && step.value.takerReserve == reserve(t.taker).value
            && InFlight(step.value.ledger, MakersAfter(live, maker, t), t.taker, payout, reserve)
  {
    if t.effects == [] {
      assert live - {maker} + {maker} == live;
    } else {
      assert t.effects == [t.effects[0]];
      SettleOne(l, t.effects[0], taker.owner, reserve(taker).value, reserve);
      if t.effects[0].Filled? {
        FillSettles(l, live, maker, taker, t, payout, reserve);
      } else {
        RemovalSettles(l, live, maker, taker.owner, AsHold(reserve(taker).value), payout, reserve);
      }
    }
  }

  /** Settling what the touch of the best order did, and what the sweep continues with. */
  lemma BestSettles(makers: set<Order>, rest: set<Order>, taker: Order, touched: nat, r: Rules, l: Funds,
                    reserve: Reserver)
    requires SideBook(makers, Opposite(taker.intent.Side()), r.payout) && makers != {} && rest !! makers
    requires forall a <- rest, b <- makers :: a.id != b.id
    requires reserve == AtRate(r.feeBps) && r.feeBps <= Fees.MAX_FEE_BPS
    requires Sound(taker, r.payout) && r.limit == taker.Price(r.payout)
    requires InFlight(l, rest + makers, taker, r.payout, reserve)
    requires !TouchOf(Best(makers, r.payout), taker, touched, r).verdict.Failed?
    ensures var maker := Best(makers, r.payout);
            var t := TouchOf(maker, taker, touched, r);
            var step := SettleEffects(l, t.effects, taker.owner, reserve(taker).value, reserve);
            && step.Ok? && reserve(t.taker) == Ok(step.value.takerReserve)
            && InFlight(step.value.ledger, rest + MakersAfter(makers, maker, t), t.taker, r.payout, reserve)
            && (t.taker.remaining > 0 ==> Sound(t.taker, r.payout))
            && t.taker.Price(r.payout) == taker.Price(r.payout) && t.taker.owner == taker.owner
  {
    var maker := Best(makers, r.payout);
    var t := TouchOf(maker, taker, touched, r);
    TouchStaysSound(maker, taker, touched, r);
    TakerKeepsPrice(maker, taker, touched, r);
    TouchIsClean(maker, taker, touched, r, reserve);
    RestIsApart(makers, rest, maker, t, Opposite(taker.intent.Side()), r.payout);
    TouchSettles(l, rest + makers, maker, taker, t, r.payout, reserve);
  }

  /** What a sweep relies on while it is settled. */
  ghost predicate Settling(makers: set<Order>, rest: set<Order>, taker: Order, r: Rules, l: Funds, reserve: Reserver) {
    && SideBook(makers, Opposite(taker.intent.Side()), r.payout) && rest !! makers
    && (forall a <- rest, b <- makers :: a.id != b.id)
    && reserve == AtRate(r.feeBps) && r.feeBps <= Fees.MAX_FEE_BPS
    && (taker.remaining > 0 ==> Sound(taker, r.payout))
    && r.limit == taker.Price(r.payout)
    && InFlight(l, rest + makers, taker, r.payout, reserve)
  }

  /** The sweep has been settled: the ledger is backed by the orders that are left. */
  ghost predicate Settled(step: Result<Step, Fault>, s: Swept, rest: set<Order>, payout: U64, reserve: Reserver) {
    && step.Ok? && reserve(s.taker) == Ok(step.value.takerReserve)
    && InFlight(step.value.ledger, rest + s.makers, s.taker, payout, reserve)
  }

  lemma StepSettles(makers: set<Order>, rest: set<Order>, taker: Order, touched: nat, r: Rules, l: Funds,
                    reserve: Reserver)
    requires Settling(makers, rest, taker, r, l, reserve) && makers != {} && taker.remaining > 0
    requires NextOf(Best(makers, r.payout), taker, touched, r).Go?
    ensures var maker := Best(makers, r.payout);
            var go := NextOf(maker, taker, touched, r);
            var step := SettleEffect(l, go.effect, taker.owner, reserve(taker).value, reserve);
            && step.Ok? && reserve(go.taker) == Ok(step.value.takerReserve) && go.taker.owner == taker.owner
            && Settling(makers - {maker}, rest, go.taker, r, step.value.ledger, reserve)
  {
    BestSettles(makers, rest, taker, touched, r, l, reserve);
    var t := TouchOf(Best(makers, r.payout), taker, touched, r);
    assert t.effects == [t.effects[0]];
    SettleOne(l, t.effects[0], taker.owner, reserve(taker).value, reserve);
  }

  lemma HaltSettles(makers: set<Order>, rest: set<Order>, taker: Order, touched: nat, r: Rules, l: Funds,
                    reserve: Reserver)
    requires Settling(makers, rest, taker, r, l, reserve) && makers != {} && taker.remaining > 0
    requires NextOf(Best(makers, r.payout), taker, touched, r).Halt?
    requires Sweep(makers, taker, touched, r).Ok?
    ensures var s := Sweep(makers, taker, touched, r).value;
            Settled(SettleEffects(l, s.effects, taker.owner, reserve(taker).value, reserve), s, rest, r.payout, reserve)
  {
    SweepStep(makers, taker, touched, r);
    BestSettles(makers, rest, taker, touched, r, l, reserve);
  }

  /**
   Settling everything a sweep did cannot fail: no reserve is short, nothing overflows, and
   afterwards the ledger is backed by exactly the orders that are left.
   */
  lemma {:induction false} SweepSettles(makers: set<Order>, rest: set<Order>, taker: Order, touched: nat, r: Rules,
                                        l: Funds, reserve: Reserver)
    requires Settling(makers, rest, taker, r, l, reserve)
    requires Sweep(makers, taker, touched, r).Ok?
    ensures var s := Sweep(makers, taker, touched, r).value;
            Settled(SettleEffects(l, s.effects, taker.owner, reserve(taker).value, reserve), s, rest, r.payout, reserve)
    decreases |makers|
  {
    if taker.remaining != 0 && makers != {} {
      var maker := Best(makers, r.payout);
      SweepUnfolds(makers, taker, touched, r);
      match NextOf(maker, taker, touched, r)
      case Halt =>
        HaltSettles(makers, rest, taker, touched, r, l, reserve);
      case Go(effect, next) =>
        StepSettles(makers, rest, taker, touched, r, l, reserve);
        var first := SettleEffect(l, effect, taker.owner, reserve(taker).value, reserve).value;
        SweepSettles(makers - {maker}, rest, next, touched + 1, r, first.ledger, reserve);
        SettleThen(l, effect, Sweep(makers - {maker}, next, touched + 1, r).value.effects, taker.owner,
          reserve(taker).value, reserve);
    }
  }

  lemma RestIsApart(makers: set<Order>, rest: set<Order>, maker: Order, t: Touch, side: Side, payout: U64)
    requires SideBook(makers, side, payout) && rest !! makers && maker in makers
    requires forall a <- rest, b <- makers :: a.id != b.id
    requires SameOrder(t.maker, maker)
    ensures t.maker !in rest + makers - {maker}
    ensures MakersAfter(rest + makers, maker, t) == rest + MakersAfter(makers, maker, t)
  {
  }

  lemma TakerKeepsPrice(maker: Order, taker: Order, touched: nat, r: Rules)
    requires Sound(maker, r.payout)
    ensures var t := TouchOf(maker, taker, touched, r);
            t.taker.Price(r.payout) == taker.Price(r.payout) && t.taker.owner == taker.owner
  {
    if PlanFill(maker, taker, maker.Price(r.payout), r.payout, r.feeBps).Ok? {
      FillShape(maker, taker, maker.Price(r.payout), r.payout, r.feeBps);
    }
  }

  // ---------- A whole placement ----------

  /** A ledger at rest: nobody has an order in flight. */
  ghost predicate AtRest(l: Funds, live: set<Order>, payout: U64, reserve: Reserver) {
    2 <= payout && Backed(l, live, SEAT_CAPACITY, Nothing(), payout, reserve)
  }

  /** The ledger work of an admitted placement, between planning and writing. */
  function SettlePlacement(l: Funds, effects: seq<Effect>, required: Reserve, final: Reserve, submitter: nat,
                           nonceAfter: U64,
                           reserve: Reserver): Result<Funds, Fault>
    requires submitter < |l.seats|
  {
    var locked :- Lock(l.seats[submitter], required);
    var step :- SettleEffects(WithSeat(l, submitter, locked), effects, submitter, required, reserve);
    if submitter >= |step.ledger.seats| then Err(Binding) else
    Land(step.ledger, submitter, step.takerReserve, final, nonceAfter)
  }

  /** Locking an order's reserve puts it in flight; it fails only for want of cash or shares. */
  lemma LockStarts(l: Funds, live: set<Order>, order: Order, payout: U64, reserve: Reserver)
    requires AtRest(l, live, payout, reserve) && order.owner < |l.seats| && reserve(order).Ok?
    requires reserve(order).value.yes <= MAX_QUANTITY && reserve(order).value.no <= MAX_QUANTITY
    ensures var locked := Lock(l.seats[order.owner], reserve(order).value);
            && (locked.Err? ==> locked.error in {InsufficientCash, InsufficientPosition})
            && (locked.Ok? ==> InFlight(WithSeat(l, order.owner, locked.value), live, order, payout, reserve))
  {
    var i := order.owner;
    var required := reserve(order).value;
    SeatsAreSmall(l, payout, i);
    LockReserves(l.seats[i], Held(live, i, reserve), required);
    var locked := Lock(l.seats[i], required);
    if locked.Ok? {
      StillBalanced(l, i, locked.value, payout);
    }
  }

  /** Unlocking what the taker still has locked ends its flight. */
  lemma UnlockEnds(l: Funds, live: set<Order>, taker: Order, payout: U64, reserve: Reserver)
    requires InFlight(l, live, taker, payout, reserve)
    ensures Unlock(l.seats[taker.owner], reserve(taker).value).Ok?
    ensures AtRest(WithSeat(l, taker.owner, Unlock(l.seats[taker.owner], reserve(taker).value).value), live, payout,
                   reserve)
    ensures var after := Unlock(l.seats[taker.owner], reserve(taker).value).value;
            && reserve(taker).value.cash <= after.availableCash
            && Held(live, taker.owner, reserve).yes + reserve(taker).value.yes <= after.yes
            && Held(live, taker.owner, reserve).no + reserve(taker).value.no <= after.no
  {
    var i := taker.owner;
    SeatsAreSmall(l, payout, i);
    UnlockReleases(l.seats[i], Held(live, i, reserve), reserve(taker).value);
    StillBalanced(l, i, Unlock(l.seats[i], reserve(taker).value).value, payout);
  }

  /** Resting an order that is still covered locks its reserve again. */
  lemma LockRests(l: Funds, live: set<Order>, taker: Order, payout: U64, reserve: Reserver)
    requires AtRest(l, live, payout, reserve) && taker.owner < |l.seats| && reserve(taker).Ok? && taker !in live
    requires reserve(taker).value.cash <= l.seats[taker.owner].availableCash
    requires Held(live, taker.owner, reserve).yes + reserve(taker).value.yes <= l.seats[taker.owner].yes
    requires Held(live, taker.owner, reserve).no + reserve(taker).value.no <= l.seats[taker.owner].no
    ensures Lock(l.seats[taker.owner], reserve(taker).value).Ok?
    ensures AtRest(WithSeat(l, taker.owner, Lock(l.seats[taker.owner], reserve(taker).value).value), live + {taker},
                   payout, reserve)
  {
    var i := taker.owner;
    SeatsAreSmall(l, payout, i);
    LockReserves(l.seats[i], Held(live, i, reserve), reserve(taker).value);
    StillBalanced(l, i, Lock(l.seats[i], reserve(taker).value).value, payout);
    forall k | 0 <= k < |l.seats|
      ensures Owed(live + {taker}, k, SEAT_CAPACITY, Nothing(), reserve) ==
              Including(taker, k, reserve, Held(live, k, reserve))
    {
      HeldWith(live, taker, k, reserve);
    }
  }

  lemma LockNothing(l: Funds, live: set<Order>, i: nat, payout: U64, reserve: Reserver)
    requires AtRest(l, live, payout, reserve) && i < |l.seats|
    ensures Lock(l.seats[i], NoReserve()) == Ok(l.seats[i])
  {
  }

  /** A new nonce concerns no check. */
  lemma NonceAside(l: Funds, live: set<Order>, i: nat, nonce: U64, payout: U64, reserve: Reserver)
    requires AtRest(l, live, payout, reserve) && i < |l.seats|
    ensures AtRest(WithSeat(l, i, l.seats[i].(nextNonce := nonce)), live, payout, reserve)
  {
    TotalsUpdate(l.seats, i, l.seats[i].(nextNonce := nonce));
  }

  lemma WithSeatTwice(l: Funds, i: nat, s: Seat, u: Seat)
    requires i < |l.seats|
    ensures WithSeat(WithSeat(l, i, s), i, u) == WithSeat(l, i, u)
  {
    assert l.seats[i := s][i := u] == l.seats[i := u];
  }

  /** The last two steps of a placement: `taker`'s reserve is opened and `final` is locked instead. */
  function Land(l: Funds, i: nat, inFlight: Reserve, final: Reserve, nonceAfter: U64): Result<Funds, Fault>
    requires i < |l.seats|
  {
    var unlocked :- Unlock(l.seats[i], inFlight);
    var last :- Lock(unlocked, final);
    Ok(WithSeat(l, i, last.(nextNonce := nonceAfter)))
  }

  /** Landing is what uses the nonce. */
  lemma SettlingUsesNonce(l: Funds, effects: seq<Effect>, required: Reserve, final: Reserve, submitter: nat,
                          nonceAfter: U64, reserve: Reserver)
    requires submitter < |l.seats|
    requires SettlePlacement(l, effects, required, final, submitter, nonceAfter, reserve).Ok?
    ensures var after := SettlePlacement(l, effects, required, final, submitter, nonceAfter, reserve).value;
            submitter < |after.seats| && after.seats[submitter].nextNonce == nonceAfter
  {
  }

  /** The remainder does not rest: all of its reserve comes back. */
  lemma LandsGone(l: Funds, live: set<Order>, taker: Order, nonceAfter: U64, payout: U64, reserve: Reserver)
    requires InFlight(l, live, taker, payout, reserve)
    ensures var landed := Land(l, taker.owner, reserve(taker).value, NoReserve(), nonceAfter);
            landed.Ok? && AtRest(landed.value, live, payout, reserve)
  {
    var i := taker.owner;
    UnlockEnds(l, live, taker, payout, reserve);
    var unlocked := Unlock(l.seats[i], reserve(taker).value).value;
    LockNothing(WithSeat(l, i, unlocked), live, i, payout, reserve);
    NonceAside(WithSeat(l, i, unlocked), live, i, nonceAfter, payout, reserve);
    WithSeatTwice(l, i, unlocked, unlocked.(nextNonce := nonceAfter));
  }

  /** The remainder rests under the reserve it still needs. */
  lemma LandsResting(l: Funds, live: set<Order>, taker: Order, nonceAfter: U64, payout: U64, reserve: Reserver)
    requires InFlight(l, live, taker, payout, reserve) && taker !in live
    ensures var landed := Land(l, taker.owner, reserve(taker).value, reserve(taker).value, nonceAfter);
            landed.Ok? && AtRest(landed.value, live + {taker}, payout, reserve)
  {
    var i := taker.owner;
    UnlockEnds(l, live, taker, payout, reserve);
    var unlocked := Unlock(l.seats[i], reserve(taker).value).value;
    LockRests(WithSeat(l, i, unlocked), live, taker, payout, reserve);
    var locked := Lock(unlocked, reserve(taker).value).value;
    WithSeatTwice(l, i, unlocked, locked);
    NonceAside(WithSeat(l, i, locked), live + {taker}, i, nonceAfter, payout, reserve);
    WithSeatTwice(l, i, locked, locked.(nextNonce := nonceAfter));
  }

  /** An admitted placement in terms of the sweep behind it. */
  lemma AdmittedShape(sides: Sides, incoming: Incoming, now: int, touchLimit: nat, revision: U64, nextSequence: U64,
                      t: Terms)
    requires SidesOk(sides, t.payout)
    requires var placed := Place(sides, incoming, now, touchLimit, revision, nextSequence, t);
             placed.Ok? && placed.value.admitted
    ensures SweepOf(sides, incoming, now, touchLimit, t).Ok? && ReserveOf(incoming.order, t.feeBps).Ok?
    ensures var p := Place(sides, incoming, now, touchLimit, revision, nextSequence, t).value;
            var s := SweepOf(sides, incoming, now, touchLimit, t).value;
            var side := incoming.order.intent.Side();
            var after := sides.With(Opposite(side), s.makers);
            && p.effects == s.effects && p.requiredReserve == ReserveOf(incoming.order, t.feeBps).value
            && (if p.rested > 0 then
                  p.sides == after.With(side, after.Of(side) + {s.taker})
                  && ReserveOf(s.taker, t.feeBps) == Ok(p.finalReserve)
                else p.sides == after && p.finalReserve == NoReserve())
  {
    PlaceShape(sides, incoming, now, touchLimit, revision, nextSequence, t);
  }

  /** Both sides of a book, as the settlement sees them: resting on the taker's own side, and its makers. */
  lemma SidesSplit(sides: Sides, side: Side, makers: set<Order>)
    ensures sides.All() == sides.Of(side) + sides.Of(Opposite(side))
    ensures sides.With(Opposite(side), makers).All() == sides.Of(side) + makers
  {
  }

  lemma AcceptedReserve(order: Order, payout: U64, feeBps: nat)
    requires Sound(order, payout) && feeBps <= Fees.MAX_FEE_BPS
    ensures ReserveOf(order, feeBps).Ok?
    ensures ReserveOf(order, feeBps).value.yes <= MAX_QUANTITY && ReserveOf(order, feeBps).value.no <= MAX_QUANTITY
  {
    SoundReserve(order, payout, feeBps);
  }

  /**
   The ledger of an admitted placement: if the submitter can lock the order's reserve, every
   later check succeeds and the ledger ends up backed by exactly the orders then resting.
   Otherwise the one fault is want of cash or of shares.
   */
  lemma PlacementSettles(sides: Sides, incoming: Incoming, now: int, touchLimit: nat, revision: U64, nextSequence: U64,
                         t: Terms,
                         l: Funds, nonceAfter: U64)
    requires BookOk(sides, nextSequence, t.payout) && t.feeBps <= Fees.MAX_FEE_BPS
    requires FreshTaker(incoming.order, sides, t)
    requires var placed := Place(sides, incoming, now, touchLimit, revision, nextSequence, t);
             placed.Ok? && placed.value.admitted
    requires AtRest(l, sides.All(), t.payout, AtRate(t.feeBps)) && incoming.order.owner < |l.seats|
    ensures var p := Place(sides, incoming, now, touchLimit, revision, nextSequence, t).value;
            var locked := Lock(l.seats[incoming.order.owner], p.requiredReserve);
            var settled := SettlePlacement(l, p.effects, p.requiredReserve, p.finalReserve, incoming.order.owner,
              nonceAfter, AtRate(t.feeBps));
            && (locked.Err? ==>
                  settled == Err(locked.error) && locked.error in {InsufficientCash, InsufficientPosition})
            && (locked.Ok? ==> settled.Ok? && AtRest(settled.value, p.sides.All(), t.payout, AtRate(t.feeBps)))
  {
    var order, reserve := incoming.order, AtRate(t.feeBps);
    var p := Place(sides, incoming, now, touchLimit, revision, nextSequence, t).value;
    AdmittedShape(sides, incoming, now, touchLimit, revision, nextSequence, t);
    AcceptedReserve(order, t.payout, t.feeBps);
    LockStarts(l, sides.All(), order, t.payout, reserve);
    var locked := Lock(l.seats[order.owner], p.requiredReserve);
    if locked.Ok? {
      FlightSettles(sides, incoming, now, touchLimit, t, WithSeat(l, order.owner, locked.value), p.rested > 0,
        nonceAfter);
    }
  }

  /** A new order: sound, and not among the orders that rest. */
  ghost predicate FreshTaker(order: Order, sides: Sides, t: Terms) {
    Sound(order, t.payout) && forall o <- sides.All() :: o.id != order.id
  }

  /** From the locked order to the landed remainder. */
  lemma FlightSettles(sides: Sides, incoming: Incoming, now: int, touchLimit: nat, t: Terms, l: Funds, rests: bool,
                      nonceAfter: U64)
    requires SidesOk(sides, t.payout) && t.feeBps <= Fees.MAX_FEE_BPS
    requires FreshTaker(incoming.order, sides, t)
    requires SweepOf(sides, incoming, now, touchLimit, t).Ok?
    requires InFlight(l, sides.All(), incoming.order, t.payout, AtRate(t.feeBps))
    ensures var s := SweepOf(sides, incoming, now, touchLimit, t).value;
            var side := incoming.order.intent.Side();
            var left := sides.With(Opposite(side), s.makers);
            var step := SettleEffects(l, s.effects, incoming.order.owner, ReserveOf(incoming.order, t.feeBps).value,
              AtRate(t.feeBps));
            && step.Ok? && incoming.order.owner < |step.value.ledger.seats|
            && var landed := Land(step.value.ledger, incoming.order.owner, step.value.takerReserve,
                                  if rests then step.value.takerReserve else NoReserve(), nonceAfter);
               && landed.Ok? && ReserveOf(s.taker, t.feeBps) == Ok(step.value.takerReserve)
               && AtRest(landed.value, (if rests then left.With(side, left.Of(side) + {s.taker}) else left).All(),
                         t.payout, AtRate(t.feeBps))
  {
    var order, reserve := incoming.order, AtRate(t.feeBps);
    var side := order.intent.Side();
    var makers, rest := sides.Of(Opposite(side)), sides.Of(side);
    var rules := RulesFor(incoming, now, touchLimit, order.intent.CanonicalPrice(order.limitPrice, t.payout).value, t);
    var s := SweepOf(sides, incoming, now, touchLimit, t).value;
    SidesSplit(sides, side, s.makers);
    SweepConserves(makers, order, 0, rules);
    SweepKeepsSide(makers, order, 0, rules);
    SweepSettles(makers, rest, order, 0, rules, l, reserve);
    var step := SettleEffects(l, s.effects, order.owner, reserve(order).value, reserve).value;
    if rests {
      TakerIsNew(sides, s.makers, side, s.taker, order);
      LandsResting(step.ledger, rest + s.makers, s.taker, nonceAfter, t.payout, reserve);
    } else {
      LandsGone(step.ledger, rest + s.makers, s.taker, nonceAfter, t.payout, reserve);
    }
  }

  lemma TakerIsNew(sides: Sides, makers: set<Order>, side: Side, taker: Order, order: Order)
    requires forall o <- sides.All() :: o.id != order.id
    requires taker.id == order.id && forall o <- makers :: Descends(o, sides.Of(Opposite(side)))
    ensures taker !in sides.Of(side) + makers
    ensures var left := sides.With(Opposite(side), makers);
            left.With(side, left.Of(side) + {taker}).All() == sides.Of(side) + makers + {taker}
  {
    SidesSplit(sides, side, makers);
  }

  // ---------- The per-trade oracle ----------

  /** What a seat gains over a run of effects, by the oracle's rules for each trade. */
  datatype Deltas = Deltas(cash: int, yes: int, no: int)

  function PartyDeltas(intent: Intent, f: Fill, payout: U64, fee: U64, counts: bool, rest: Deltas): Deltas {
    if !counts then rest else
    Deltas(rest.cash + OracleCash(intent, f.price, f.quantity, payout, fee),
           rest.yes + OracleShares(intent, Yes, f.quantity), rest.no + OracleShares(intent, No, f.quantity))
  }

  function OracleDeltas(effects: seq<Effect>, seat: nat, payout: U64): Deltas {
    if effects == [] then Deltas(0, 0, 0) else
    var rest := OracleDeltas(effects[1..], seat, payout);
    match effects[0]
    case Removed(_, _) => rest
    case Filled(f) =>
      PartyDeltas(f.makerBefore.intent, f, payout, f.makerFee, f.makerBefore.owner == seat,
                  PartyDeltas(f.takerBefore.intent, f, payout, f.takerFee, f.takerBefore.owner == seat, rest))
  }

  /** Every fill carries the economics of its two orders. */
  predicate Economic(e: Effect, payout: U64) {
    e.Filled? ==>
      var f := e.fill;
      EconomicsOf(f.makerBefore.intent, f.takerBefore.intent, f.price, f.quantity, payout, f.makerFee, f.takerFee) ==
      Ok(f.economics)
  }

  lemma SettleSeatMoves(s: Seat, before: Reserve, after: Reserve, party: Party)
    requires SettleSeat(s, before, after, party).Ok?
    ensures Moved(s, SettleSeat(s, before, after, party).value, party.reservedCash + party.availableCash, party.yes,
                  party.no)
  {
  }

  lemma UnlockMovesNothing(s: Seat, r: Reserve)
    requires Unlock(s, r).Ok?
    ensures Moved(s, Unlock(s, r).value, 0, 0, 0)
  {
  }

  lemma LockMovesNothing(s: Seat, r: Reserve)
    requires Lock(s, r).Ok?
    ensures Moved(s, Lock(s, r).value, 0, 0, 0)
  {
  }

  /** One effect moves every seat by the oracle's deltas for it. */
  lemma EffectMeetsOracle(l: Funds, e: Effect, submitter: nat, takerReserve: Reserve, reserve: Reserver, payout: U64,
                          k: nat)
    requires SettleEffect(l, e, submitter, takerReserve, reserve).Ok? && Economic(e, payout) && k < |l.seats|
    ensures var after := SettleEffect(l, e, submitter, takerReserve, reserve).value.ledger;
            var d := OracleDeltas([e], k, payout);
            |after.seats| == |l.seats| && after.accounted == l.accounted
            && Moved(l.seats[k], after.seats[k], d.cash, d.yes, d.no)
  {
    match e
    case Removed(o, _) =>
      UnlockMovesNothing(l.seats[o.owner], reserve(o).value);
    case Filled(f) =>
      EconomicsMeetOracle(f.makerBefore.intent, f.takerBefore.intent, f.price, f.quantity, payout, f.makerFee,
        f.takerFee);
      SettleSeatMoves(l.seats[f.makerBefore.owner], reserve(f.makerBefore).value, f.makerReserveAfter,
        f.economics.maker);
      SettleSeatMoves(l.seats[submitter], takerReserve, f.takerReserveAfter, f.economics.taker);
  }

  lemma DeltasThen(e: Effect, later: seq<Effect>, k: nat, payout: U64)
    ensures var first := OracleDeltas([e], k, payout);
            var rest := OracleDeltas(later, k, payout);
            OracleDeltas([e] + later, k, payout) ==
            Deltas(first.cash + rest.cash, first.yes + rest.yes, first.no + rest.no)
  {
    assert ([e] + later)[1..] == later;
  }

  /** Settling any effects moves each seat by exactly what the oracle computes from the trades alone. */
  lemma {:induction false} EffectsMeetOracle(l: Funds, effects: seq<Effect>, submitter: nat, takerReserve: Reserve,
                                             reserve: Reserver, payout: U64, k: nat)
    requires SettleEffects(l, effects, submitter, takerReserve, reserve).Ok?
    requires forall e <- effects :: Economic(e, payout)
    requires k < |l.seats|
    ensures var after := SettleEffects(l, effects, submitter, takerReserve, reserve).value.ledger;
            var d := OracleDeltas(effects, k, payout);
            |after.seats| == |l.seats| && after.accounted == l.accounted
            && Moved(l.seats[k], after.seats[k], d.cash, d.yes, d.no)
    decreases |effects|
  {
    if effects != [] {
      EffectMeetsOracle(l, effects[0], submitter, takerReserve, reserve, payout, k);
      var first := SettleEffect(l, effects[0], submitter, takerReserve, reserve).value;
      EffectsMeetOracle(first.ledger, effects[1..], submitter, first.takerReserve, reserve, payout, k);
      DeltasThen(effects[0], effects[1..], k, payout);
      assert [effects[0]] + effects[1..] == effects;
    }
  }

  /** A whole placement moves each seat by the oracle's deltas and raises no nonce but the submitter's. */
  lemma PlacementMeetsOracle(l: Funds, effects: seq<Effect>, required: Reserve, final: Reserve, submitter: nat,
                             nonceAfter: U64,
                             reserve: Reserver, payout: U64, k: nat)
    requires submitter < |l.seats| && k < |l.seats|
    requires SettlePlacement(l, effects, required, final, submitter, nonceAfter, reserve).Ok?
    requires forall e <- effects :: Economic(e, payout)
    ensures var after := SettlePlacement(l, effects, required, final, submitter, nonceAfter, reserve).value;
            var d := OracleDeltas(effects, k, payout);
            && |after.seats| == |l.seats| && after.accounted == l.accounted
            && Cash(after.seats[k]) == Cash(l.seats[k]) + d.cash
            && after.seats[k].yes == l.seats[k].yes + d.yes && after.seats[k].no == l.seats[k].no + d.no
            && after.seats[k].wallet == l.seats[k].wallet
            && after.seats[k].nextNonce == if k == submitter then nonceAfter else l.seats[k].nextNonce
  {
    LockMovesNothing(l.seats[submitter], required);
    var locked := WithSeat(l, submitter, Lock(l.seats[submitter], required).value);
    EffectsMeetOracle(locked, effects, submitter, required, reserve, payout, k);
    var step := SettleEffects(locked, effects, submitter, required, reserve).value;
    UnlockMovesNothing(step.ledger.seats[submitter], step.takerReserve);
    LockMovesNothing(Unlock(step.ledger.seats[submitter], step.takerReserve).value, final);
  }

  /** The sweep's own fills are economic. */
  lemma FairFillIsEconomic(f: Fill, r: Rules)
    requires FairFill(f, r)
    ensures Economic(Filled(f), r.payout)
  {
  }

  // ---------- Removing one resting order ----------

  /** The seat gets exactly this reserve back and nothing else about it changes but the nonce. */
  predicate Refunded(before: Seat, after: Seat, released: Reserve, nonceAfter: U64) {
    && after.availableCash == before.availableCash + released.cash
    && before.reservedCash == after.reservedCash + released.cash
    && before.reservedYes == after.reservedYes + released.yes && before.reservedNo == after.reservedNo + released.no
    && after == before.(availableCash := after.availableCash, reservedCash := after.reservedCash,
                        reservedYes := after.reservedYes, reservedNo := after.reservedNo, nextNonce := nonceAfter)
  }

  /** Taking one resting order out refunds its current reserve, whatever part of it has traded, and backs the rest. */
  lemma RemovalRefunds(l: Funds, sides: Sides, side: Side, o: Order, nonceAfter: U64, payout: U64, feeBps: nat)
    requires SidesOk(sides, payout) && feeBps <= Fees.MAX_FEE_BPS && o in sides.Of(side)
    requires AtRest(l, sides.All(), payout, AtRate(feeBps))
    ensures o.owner < |l.seats| && ReserveOf(o, feeBps).Ok?
    ensures var freed := Unlock(l.seats[o.owner], ReserveOf(o, feeBps).value);
            && freed.Ok? && Refunded(l.seats[o.owner], freed.value.(nextNonce := nonceAfter),
                                     ReserveOf(o, feeBps).value, nonceAfter)
            && AtRest(WithSeat(l, o.owner, freed.value.(nextNonce := nonceAfter)),
                      sides.With(side, sides.Of(side) - {o}).All(),
                      payout, AtRate(feeBps))
  {
    var reserve := AtRate(feeBps);
    SoundReserve(o, payout, feeBps);
    assert o in sides.All();
    RemovalSettles(l, sides.All(), o, SEAT_CAPACITY, Nothing(), payout, reserve);
    var freed := Unlock(l.seats[o.owner], ReserveOf(o, feeBps).value).value;
    assert sides.With(side, sides.Of(side) - {o}).All() == sides.All() - {o};
    NonceAside(WithSeat(l, o.owner, freed), sides.All() - {o}, o.owner, nonceAfter, payout, reserve);
    WithSeatTwice(l, o.owner, freed, freed.(nextNonce := nonceAfter));
  }

  // ---------- Money in and out, and new seats ----------

  /** Cash that enters a seat and the vault together keeps the ledger backed. */
  lemma CashMovesBacked(l: Funds, live: set<Order>, i: nat, s: Seat, accounted: U64, payout: U64, reserve: Reserver)
    requires AtRest(l, live, payout, reserve) && i < |l.seats|
    requires s == l.seats[i].(availableCash := s.availableCash, nextNonce := s.nextNonce)
    requires accounted - l.accounted == s.availableCash - l.seats[i].availableCash
    ensures AtRest(WithSeat(l, i, s).(accounted := accounted), live, payout, reserve)
  {
    TotalsUpdate(l.seats, i, s);
  }

  /** A new seat holds nothing, and no live order is its own. */
  lemma SeatJoins(l: Funds, live: set<Order>, wallet: nat, payout: U64, reserve: Reserver)
    requires AtRest(l, live, payout, reserve) && |l.seats| < SEAT_CAPACITY
    ensures AtRest(l.(seats := l.seats + [NewSeat(wallet)]), live, payout, reserve)
  {
    TotalsAppend(l.seats, NewSeat(wallet));
    HeldByNobody(live, |l.seats|, reserve);
  }

  // ---------- The taker's fees over a whole sweep ----------

  function TakerFees(effects: seq<Effect>): nat {
    if effects == [] then 0 else
    (if effects[0].Filled? then effects[0].fill.takerFee else 0) + TakerFees(effects[1..])
  }

  /** What one fill is worth to its taker. */
  function TakerPrincipal(f: Fill, payout: U64): int {
    UnitPrice(f.takerBefore, f.price, payout) * f.quantity
  }

  function TakerNotional(effects: seq<Effect>, payout: U64): int {
    if effects == [] then 0 else
    (if effects[0].Filled? then TakerPrincipal(effects[0].fill, payout) else 0) + TakerNotional(effects[1..], payout)
  }

  lemma TakerSumsThen(e: Effect, later: seq<Effect>, payout: U64)
    ensures TakerFees([e] + later) == (if e.Filled? then e.fill.takerFee else 0) + TakerFees(later)
    ensures TakerNotional([e] + later, payout) ==
            (if e.Filled? then TakerPrincipal(e.fill, payout) else 0) + TakerNotional(later, payout)
  {
    assert ([e] + later)[1..] == later;
  }

  /** The charge for one effect, as part of its taker's fee chain. */
  ghost predicate FeeStep(taker: Order, e: Effect, next: Order, r: Rules) {
    match e
    case Removed(_, _) => next == taker
    case Filled(f) =>
      && f.takerBefore == taker && 0 <= TakerPrincipal(f, r.payout)
      && next.chainNotional == taker.chainNotional + TakerPrincipal(f, r.payout)
      && f.takerFee == Fees.Charge(taker.chainNotional, TakerPrincipal(f, r.payout), r.feeBps)
  }

  lemma TouchCharges(maker: Order, taker: Order, touched: nat, r: Rules)
    requires r.feeBps <= Fees.MAX_FEE_BPS && Sound(maker, r.payout) && Sound(taker, r.payout)
    requires maker.intent.Side() != taker.intent.Side()
    ensures var t := TouchOf(maker, taker, touched, r);
            && (t.effects == [] ==> t.taker == taker)
            && (t.effects != [] ==> |t.effects| == 1 && FeeStep(taker, t.effects[0], t.taker, r))
  {
    var t := TouchOf(maker, taker, touched, r);
    if t.effects != [] && t.effects[0].Filled? {
      var price := maker.Price(r.payout);
      PlanFillSucceeds(maker, taker, price, r.payout, r.feeBps);
      TradedSide(taker, Min(maker.remaining, taker.remaining), price, r.payout, r.feeBps);
      var p := PlanFill(maker, taker, price, r.payout, r.feeBps).value;
      assert t == Touch(Continue, [Filled(p.fill)], p.maker.remaining == 0, p.maker, p.taker, touched + 1);
    }
  }

  /** Consecutive charges of one chain add up. */
  lemma ChargesAdd(previous: nat, first: nat, second: nat, feeBps: nat)
    ensures Fees.Charge(previous, first, feeBps) + Fees.Charge(previous + first, second, feeBps) ==
            Fees.Charge(previous, first + second, feeBps)
  {
    assert previous + first + second == previous + (first + second);
  }

  lemma GoCharges(makers: set<Order>, taker: Order, touched: nat, r: Rules)
    requires SideBook(makers, Opposite(taker.intent.Side()), r.payout) && makers != {}
    requires r.feeBps <= Fees.MAX_FEE_BPS && Sound(taker, r.payout)
    requires NextOf(Best(makers, r.payout), taker, touched, r).Go?
    ensures var go := NextOf(Best(makers, r.payout), taker, touched, r);
            FeeStep(taker, go.effect, go.taker, r) && (go.taker.remaining > 0 ==> Sound(go.taker, r.payout))
  {
    var maker := Best(makers, r.payout);
    TouchCharges(maker, taker, touched, r);
    TouchStaysSound(maker, taker, touched, r);
  }

  /** The taker has paid the fee of everything it traded. */
  ghost predicate PaidInFull(taker: Order, s: Swept, r: Rules) {
    var total := TakerNotional(s.effects, r.payout);
    && 0 <= total && s.taker.chainNotional == taker.chainNotional + total
    && TakerFees(s.effects) == Fees.Charge(taker.chainNotional, total, r.feeBps)
  }

  lemma HaltCharges(makers: set<Order>, taker: Order, touched: nat, r: Rules)
    requires SideBook(makers, Opposite(taker.intent.Side()), r.payout) && makers != {} && taker.remaining > 0
    requires r.feeBps <= Fees.MAX_FEE_BPS && Sound(taker, r.payout)
    requires NextOf(Best(makers, r.payout), taker, touched, r).Halt?
    requires Sweep(makers, taker, touched, r).Ok?
    ensures PaidInFull(taker, Sweep(makers, taker, touched, r).value, r)
  {
    var maker := Best(makers, r.payout);
    var t := TouchOf(maker, taker, touched, r);
    SweepStep(makers, taker, touched, r);
    TouchCharges(maker, taker, touched, r);
    if t.effects != [] {
      assert t.effects == [t.effects[0]] + [];
      TakerSumsThen(t.effects[0], [], r.payout);
    }
  }

  lemma ChargedThenPaid(taker: Order, e: Effect, next: Order, later: Swept, r: Rules)
    requires FeeStep(taker, e, next, r) && PaidInFull(next, later, r)
    ensures PaidInFull(taker, later.(effects := [e] + later.effects), r)
  {
    TakerSumsThen(e, later.effects, r.payout);
    if e.Filled? {
      ChargesAdd(taker.chainNotional, TakerPrincipal(e.fill, r.payout), TakerNotional(later.effects, r.payout),
        r.feeBps);
    }
  }

  /**
   Telescoping over the fills that actually happen: however many makers a taker meets, and
   whatever is removed in between, it pays exactly the fee of its total notional.
   */
  lemma {:induction false} SweepTelescopes(makers: set<Order>, taker: Order, touched: nat, r: Rules)
    requires SideBook(makers, Opposite(taker.intent.Side()), r.payout)
    requires r.feeBps <= Fees.MAX_FEE_BPS && (taker.remaining > 0 ==> Sound(taker, r.payout))
    requires Sweep(makers, taker, touched, r).Ok?
    ensures PaidInFull(taker, Sweep(makers, taker, touched, r).value, r)
    decreases |makers|
  {
    if taker.remaining != 0 && makers != {} {
      var maker := Best(makers, r.payout);
      SweepUnfolds(makers, taker, touched, r);
      match NextOf(maker, taker, touched, r)
      case Halt =>
        HaltCharges(makers, taker, touched, r);
      case Go(effect, next) =>
        GoCharges(makers, taker, touched, r);
        SweepTelescopes(makers - {maker}, next, touched + 1, r);
        ChargedThenPaid(taker, effect, next, Sweep(makers - {maker}, next, touched + 1, r).value, r);
    }
  }
}
