/**
 One placement against a whole book: validation, the sweep, and what happens to the
 remainder. `Place` is the specification the array-backed planner is proved to compute.
 */
module Placing {
  import opened Wrappers
  import opened Words
  import Fees
  import opened Orders
  import opened Matching

  datatype Disposition =
    | Complete | Resting | PartiallyFilledAndResting | Canceled | PartiallyFilledAndCanceled
    | SelfTradePrevented | PostOnlyWouldTrade | FokNotFillable

  /** The resting orders of both sides. */
  datatype Sides = Sides(bids: set<Order>, asks: set<Order>) {
    function Of(side: Side): set<Order> {
      if side.Bid? then bids else asks
    }

    function With(side: Side, orders: set<Order>): Sides {
      if side.Bid? then Sides(orders, asks) else Sides(bids, orders)
    }

    function All(): set<Order> {
      bids + asks
    }
  }

  datatype Terms = Terms(payout: U64, feeBps: nat, capacity: nat)

  datatype Placement = Placement(
    disposition: Disposition, effects: seq<Effect>, sides: Sides, admitted: bool,
    filled: nat, canceled: nat, rested: nat, touched: nat,
    taker: Order, requiredReserve: Reserve, finalReserve: Reserve)

  /** A rejection reports the whole quantity canceled and keeps the book as it was. */
  function Rejected(order: Order, disposition: Disposition, sides: Sides, touched: nat, required: Reserve): Placement {
    Placement(disposition, [], sides, false, 0, order.remaining, 0, touched, order, required, NoReserve())
  }

  /** The checks made before any order is looked at; the error order is the program's. */
  function Admission(incoming: Incoming, now: int, touchLimit: nat, nextSequence: U64, t: Terms): Option<Error> {
    var order := incoming.order;
    var invalid := ValidateOrder(order, t.payout);
    if invalid.Some? then invalid
    else if order.sequence != nextSequence || order.id != order.sequence then Some(InvalidSequence)
    else if touchLimit == 0 || touchLimit > MAX_TOUCHES then Some(InvalidWorkLimit)
    else if (incoming.postOnly || order.expiresAt.Some?) && !incoming.timeInForce.Gtc? then Some(InvalidOptions)
    else if order.Expired(now) then Some(ExpiredIncoming)
    else None
  }

  function RulesFor(incoming: Incoming, now: int, touchLimit: nat, limit: U64, t: Terms): Rules {
    Rules(now, touchLimit, t.payout, t.feeBps, limit, incoming.timeInForce, incoming.postOnly, incoming.selfTrade)
  }

  ghost predicate SidesOk(s: Sides, payout: U64) {
    && SideBook(s.bids, Bid, payout) && SideBook(s.asks, Ask, payout)
    && (forall a <- s.bids, b <- s.asks :: a.id != b.id)
  }

  /** What is to become of the taker: the whole plan is dropped, or the remainder is, or it rests. */
  datatype Ending = Reject(why: Disposition) | Close(how: Disposition) | Rest(how: Disposition)

  function EndingOf(incoming: Incoming, taker: Order, stop: Stop): Ending {
    var partly := taker.remaining < incoming.order.remaining;
    if stop.WouldTrade? then Reject(PostOnlyWouldTrade)
    else if incoming.timeInForce.Fok? && taker.remaining > 0 then Reject(FokNotFillable)
    else if taker.remaining == 0 then Close(Complete)
    else if stop.SelfTradeStop? then Close(if partly then PartiallyFilledAndCanceled else SelfTradePrevented)
    else if incoming.timeInForce.Gtc? then Rest(if partly then PartiallyFilledAndResting else Resting)
    else Close(if partly then PartiallyFilledAndCanceled else Canceled)
  }

  /** What the program answers, and how it leaves both sides; `final` is the reserve of the remainder should it rest. */
  function Finish(incoming: Incoming, swept: Swept, sides: Sides, required: Reserve, final: Result<Reserve, Error>,
                  capacity: nat)
    : Result<Placement, Error>
    requires swept.taker.remaining <= incoming.order.remaining
  {
    var taker := swept.taker;
    var side := incoming.order.intent.Side();
    var after := sides.With(Opposite(side), swept.makers);
    var filled := incoming.order.remaining - taker.remaining;
    match EndingOf(incoming, taker, swept.stop)
    case Reject(why) => Ok(Rejected(incoming.order, why, sides, swept.touched, required))
    case Close(how) =>
      Ok(Placement(how, swept.effects, after, true, filled, taker.remaining, 0, swept.touched, taker, required,
                   NoReserve()))
    case Rest(how) =>
      if |after.bids| + |after.asks| >= capacity then Err(BookFull) else
      var reserve :- final;
      Ok(Placement(how, swept.effects, after.With(side, after.Of(side) + {taker}), true,
                   filled, 0, taker.remaining, swept.touched, taker, required, reserve))
  }

  /** The sweep and the rest of an admitted placement. */
  ghost function SweepAndFinish(sides: Sides, incoming: Incoming, now: int, touchLimit: nat, required: Reserve,
                                t: Terms)
    : Result<Placement, Error>
    requires SidesOk(sides, t.payout) && ValidPrice(incoming.order.limitPrice, t.payout)
  {
    var order := incoming.order;
    var limit := order.intent.CanonicalPrice(order.limitPrice, t.payout).value;
    var rules := RulesFor(incoming, now, touchLimit, limit, t);
    var swept :- Sweep(sides.Of(Opposite(order.intent.Side())), order, 0, rules);
    SweepConserves(sides.Of(Opposite(order.intent.Side())), order, 0, rules);
    Finish(incoming, swept, sides, required, ReserveOf(swept.taker, t.feeBps), t.capacity)
  }

  ghost function Place(sides: Sides, incoming: Incoming, now: int, touchLimit: nat,
                       revision: U64, nextSequence: U64, t: Terms): Result<Placement, Error>
    requires SidesOk(sides, t.payout)
  {
    var order := incoming.order;
    var refused := Admission(incoming, now, touchLimit, nextSequence, t);
    if refused.Some? then Err(refused.value) else
    var required :- ReserveOf(order, t.feeBps);
    var placed :- SweepAndFinish(sides, incoming, now, touchLimit, required, t);
    if placed.admitted && (revision + 1 >= TWO_64 || nextSequence + 1 >= TWO_64) then Err(ArithmeticOverflow) else
    Ok(placed)
  }

  /** No bid reaches any ask. */
  ghost predicate Uncrossed(s: Sides, payout: U64) {
    forall bid <- s.bids, ask <- s.asks :: bid.Price(payout) < ask.Price(payout)
  }

  /** A book as the exchange keeps it between commands. */
  ghost predicate BookOk(s: Sides, nextSequence: U64, payout: U64) {
    && SidesOk(s, payout)
    && (forall o <- s.All() :: o.id < nextSequence)
    && Uncrossed(s, payout)
  }

  /** The sweep behind an accepted placement. */
  ghost function SweepOf(sides: Sides, incoming: Incoming, now: int, touchLimit: nat, t: Terms): Result<Swept, Error>
    requires SidesOk(sides, t.payout) && ValidPrice(incoming.order.limitPrice, t.payout)
  {
    var order := incoming.order;
    var limit := order.intent.CanonicalPrice(order.limitPrice, t.payout).value;
    Sweep(sides.Of(Opposite(order.intent.Side())), order, 0, RulesFor(incoming, now, touchLimit, limit, t))
  }

  /**
   A new order's quantity is always accounted for as filled, canceled or rested; what was
   filled is exactly the sum of its fills; and its disposition says which.
   */
  lemma PlacementConserves(sides: Sides, incoming: Incoming, now: int, touchLimit: nat,
                           revision: U64, nextSequence: U64, t: Terms)
    requires SidesOk(sides, t.payout)
    requires Place(sides, incoming, now, touchLimit, revision, nextSequence, t).Ok?
    ensures var p := Place(sides, incoming, now, touchLimit, revision, nextSequence, t).value;
            && p.filled + p.canceled + p.rested == incoming.order.remaining
            && p.filled == FilledQuantity(p.effects)
            && |p.effects| <= p.touched <= touchLimit <= MAX_TOUCHES
            && (p.canceled == 0 || p.rested == 0)
            && (p.disposition.Complete? <==> p.filled == incoming.order.remaining)
            && (p.disposition in {Resting, PartiallyFilledAndResting} <==> p.rested > 0)
            && (p.admitted <==> p.disposition !in {PostOnlyWouldTrade, FokNotFillable})
  {
    PlaceShape(sides, incoming, now, touchLimit, revision, nextSequence, t);
    var swept := SweepOf(sides, incoming, now, touchLimit, t).value;
    var limit := incoming.order.intent.CanonicalPrice(incoming.order.limitPrice, t.payout).value;
    SweepConserves(sides.Of(Opposite(incoming.order.intent.Side())), incoming.order, 0,
                   RulesFor(incoming, now, touchLimit, limit, t));
    FinishCounts(incoming, swept, sides,
                 Place(sides, incoming, now, touchLimit, revision, nextSequence, t).value.requiredReserve,
                 ReserveOf(swept.taker, t.feeBps), t.capacity);
  }

  lemma FinishCounts(incoming: Incoming, swept: Swept, sides: Sides, required: Reserve, final: Result<Reserve, Error>,
                     capacity: nat)
    requires incoming.order.remaining > 0
    requires FilledQuantity(swept.effects) + swept.taker.remaining == incoming.order.remaining
    requires Finish(incoming, swept, sides, required, final, capacity).Ok?
    ensures var p := Finish(incoming, swept, sides, required, final, capacity).value;
            && p.filled + p.canceled + p.rested == incoming.order.remaining
            && p.filled == FilledQuantity(p.effects)
            && (p.canceled == 0 || p.rested == 0)
            && (p.disposition.Complete? <==> p.filled == incoming.order.remaining)
            && (p.disposition in {Resting, PartiallyFilledAndResting} <==> p.rested > 0)
            && (p.admitted <==> p.disposition !in {PostOnlyWouldTrade, FokNotFillable})
            && p.touched == swept.touched && |p.effects| <= |swept.effects|
  {
  }

  /**
   Time in force: fill-or-kill fills completely or changes nothing, tentative removals of
   expired makers included; an immediate order never rests; a post-only order never trades;
   and a rejection of any kind leaves both sides exactly as they were.
   */
  lemma TimeInForceHonoured(sides: Sides, incoming: Incoming, now: int, touchLimit: nat,
                            revision: U64, nextSequence: U64, t: Terms)
    requires SidesOk(sides, t.payout)
    requires Place(sides, incoming, now, touchLimit, revision, nextSequence, t).Ok?
    ensures var p := Place(sides, incoming, now, touchLimit, revision, nextSequence, t).value;
            && (incoming.timeInForce.Fok? ==>
                  p.filled == incoming.order.remaining || (p.sides == sides && p.effects == []))
            && (!incoming.timeInForce.Gtc? ==> p.rested == 0)
            && (incoming.postOnly ==> p.filled == 0)
            && (!p.admitted ==> p.sides == sides && p.effects == [] && p.filled == 0)
            && (p.rested > 0 ==> p.taker in p.sides.Of(incoming.order.intent.Side()) && p.taker.remaining == p.rested)
            && SameOrder(p.taker, incoming.order)
  {
    var opposing := sides.Of(Opposite(incoming.order.intent.Side()));
    var limit := incoming.order.intent.CanonicalPrice(incoming.order.limitPrice, t.payout).value;
    var rules := RulesFor(incoming, now, touchLimit, limit, t);
    SweepConserves(opposing, incoming.order, 0, rules);
    if incoming.postOnly {
      PostOnlyNeverFills(opposing, incoming.order, 0, rules);
    }
  }

  lemma {:induction false} PostOnlyNeverFills(makers: set<Order>, taker: Order, touched: nat, r: Rules)
    requires SideBook(makers, Opposite(taker.intent.Side()), r.payout)
    requires r.postOnly && Sweep(makers, taker, touched, r).Ok?
    ensures Sweep(makers, taker, touched, r).value.taker == taker
    ensures forall e <- Sweep(makers, taker, touched, r).value.effects :: e.Removed? && e.reason.Expired?
    decreases |makers|
  {
    if taker.remaining != 0 && makers != {} {
      var maker := Best(makers, r.payout);
      var t := TouchOf(maker, taker, touched, r);
      SweepStep(makers, taker, touched, r);
      PostOnlyTouch(maker, taker, touched, r);
      if t.verdict.Continue? && t.pop {
        PostOnlyNeverFills(makers - {maker}, t.taker, t.touched, r);
      }
    }
  }

  lemma PostOnlyTouch(maker: Order, taker: Order, touched: nat, r: Rules)
    requires Sound(maker, r.payout) && r.postOnly
    ensures var t := TouchOf(maker, taker, touched, r);
            t.taker == taker && forall e <- t.effects :: e.Removed? && e.reason.Expired?
  {
  }

  /** Orders of one side that descend from uncrossed ones stay uncrossed. */
  lemma StaysUncrossed(before: Sides, side: Side, makers: set<Order>, payout: U64)
    requires Uncrossed(before, payout) && forall o <- makers :: Descends(o, before.Of(side))
    ensures Uncrossed(before.With(side, makers), payout)
  {
    var after := before.With(side, makers);
    forall bid <- after.bids, ask <- after.asks ensures bid.Price(payout) < ask.Price(payout) {
      var o := if side.Bid? then bid else ask;
      assert Descends(o, before.Of(side));
      var was :| was in before.Of(side) && SameOrder(o, was);
      assert was.Price(payout) == o.Price(payout);
    }
  }

  /**
   Every accepted placement keeps the whole book in order. In particular the book is never
   left crossed, although a sweep may stop on expired orders, self-trades or its touch limit.
   */
  lemma PlacementKeepsBook(sides: Sides, incoming: Incoming, now: int, touchLimit: nat,
                           revision: U64, nextSequence: U64, t: Terms)
    requires BookOk(sides, nextSequence, t.payout) && t.feeBps <= Fees.MAX_FEE_BPS
    requires Sound(incoming.order, t.payout)
    requires Place(sides, incoming, now, touchLimit, revision, nextSequence, t).Ok?
    ensures var p := Place(sides, incoming, now, touchLimit, revision, nextSequence, t).value;
            && BookOk(p.sides, if p.admitted then nextSequence + 1 else nextSequence, t.payout)
            && (p.rested > 0 ==> |p.sides.bids| + |p.sides.asks| <= t.capacity)
            && |p.sides.bids| + |p.sides.asks| <= |sides.bids| + |sides.asks| + 1
  {
    PlaceShape(sides, incoming, now, touchLimit, revision, nextSequence, t);
    var swept := SweepOf(sides, incoming, now, touchLimit, t).value;
    SweptKeepsBook(sides, incoming, now, touchLimit, nextSequence, t);
    FinishKeepsBook(sides, incoming, swept, Place(sides, incoming, now, touchLimit, revision, nextSequence, t).value,
      nextSequence, t);
  }

  lemma PlaceShape(sides: Sides, incoming: Incoming, now: int, touchLimit: nat,
                   revision: U64, nextSequence: U64, t: Terms)
    requires SidesOk(sides, t.payout)
    requires Place(sides, incoming, now, touchLimit, revision, nextSequence, t).Ok?
    ensures ValidPrice(incoming.order.limitPrice, t.payout)
    ensures SweepOf(sides, incoming, now, touchLimit, t).Ok?
    ensures var p := Place(sides, incoming, now, touchLimit, revision, nextSequence, t).value;
            && SweepOf(sides, incoming, now, touchLimit, t).value.taker.remaining <= incoming.order.remaining
            && Finish(incoming, SweepOf(sides, incoming, now, touchLimit, t).value, sides, p.requiredReserve,
                      ReserveOf(SweepOf(sides, incoming, now, touchLimit, t).value.taker, t.feeBps), t.capacity) ==
                      Ok(p)
            && FinishedAs(incoming, SweepOf(sides, incoming, now, touchLimit, t).value, sides, p, t.capacity)
            && Admission(incoming, now, touchLimit, nextSequence, t).None?
            && incoming.order.id == incoming.order.sequence == nextSequence
            && (p.admitted ==> revision + 1 < TWO_64 && nextSequence + 1 < TWO_64)
  {
    var swept := SweepOf(sides, incoming, now, touchLimit, t).value;
    var limit := incoming.order.intent.CanonicalPrice(incoming.order.limitPrice, t.payout).value;
    SweepConserves(sides.Of(Opposite(incoming.order.intent.Side())), incoming.order, 0,
                   RulesFor(incoming, now, touchLimit, limit, t));
    FinishShape(incoming, swept, sides, ReserveOf(incoming.order, t.feeBps).value, ReserveOf(swept.taker, t.feeBps),
      t.capacity);
  }

  /** The book once the sweep has stopped, before the remainder is rested. */
  lemma SweptKeepsBook(sides: Sides, incoming: Incoming, now: int, touchLimit: nat, nextSequence: U64, t: Terms)
    requires BookOk(sides, nextSequence, t.payout) && t.feeBps <= Fees.MAX_FEE_BPS
    requires Sound(incoming.order, t.payout)
    requires SweepOf(sides, incoming, now, touchLimit, t).Ok?
    ensures var swept := SweepOf(sides, incoming, now, touchLimit, t).value;
            var after := sides.With(Opposite(incoming.order.intent.Side()), swept.makers);
            && BookOk(after, nextSequence, t.payout)
            && |after.bids| + |after.asks| <= |sides.bids| + |sides.asks|
            && SameOrder(swept.taker, incoming.order) && swept.taker.remaining <= incoming.order.remaining
            && (swept.taker.remaining > 0 ==> Sound(swept.taker, t.payout))
            && (swept.taker.remaining > 0 && swept.stop.Open? && incoming.timeInForce.Gtc? ==>
                  forall o <- swept.makers ::
                    !Crosses(incoming.order.intent, incoming.order.Price(t.payout), o.Price(t.payout)))
  {
    var order := incoming.order;
    var opposing := sides.Of(Opposite(order.intent.Side()));
    var limit := order.intent.CanonicalPrice(order.limitPrice, t.payout).value;
    var rules := RulesFor(incoming, now, touchLimit, limit, t);
    var swept := SweepOf(sides, incoming, now, touchLimit, t).value;
    SweepConserves(opposing, order, 0, rules);
    SweepKeepsSide(opposing, order, 0, rules);
    SweepNeverOverflows(opposing, order, 0, rules);
    SweepLeavesNothingCrossing(opposing, order, 0, rules);
    DescendantsKeepBook(sides, Opposite(order.intent.Side()), swept.makers, nextSequence, t.payout);
    SidesCount(sides, Opposite(order.intent.Side()), swept.makers);
  }

  lemma SidesCount(sides: Sides, side: Side, makers: set<Order>)
    requires |makers| <= |sides.Of(side)|
    ensures var after := sides.With(side, makers); |after.bids| + |after.asks| <= |sides.bids| + |sides.asks|
  {
  }

  /** The three things that can become of the book. */
  ghost predicate FinishedAs(incoming: Incoming, swept: Swept, sides: Sides, p: Placement, capacity: nat) {
    var side := incoming.order.intent.Side();
    var after := sides.With(Opposite(side), swept.makers);
    || (p.rested == 0 && !p.admitted && p.sides == sides)
    || (p.rested == 0 && p.admitted && p.sides == after)
    || (&& p.rested == swept.taker.remaining > 0 && p.admitted
        && incoming.timeInForce.Gtc? && swept.stop.Open?
        && |after.bids| + |after.asks| < capacity
        && p.sides == after.With(side, after.Of(side) + {swept.taker}))
  }

  lemma FinishShape(incoming: Incoming, swept: Swept, sides: Sides, required: Reserve, final: Result<Reserve, Error>,
                    capacity: nat)
    requires swept.taker.remaining <= incoming.order.remaining
    requires Finish(incoming, swept, sides, required, final, capacity).Ok?
    ensures FinishedAs(incoming, swept, sides, Finish(incoming, swept, sides, required, final, capacity).value,
                       capacity)
  {
  }

  lemma FinishKeepsBook(sides: Sides, incoming: Incoming, swept: Swept, p: Placement, nextSequence: U64, t: Terms)
    requires BookOk(sides, nextSequence, t.payout)
    requires FinishedAs(incoming, swept, sides, p, t.capacity)
    requires SameOrder(swept.taker, incoming.order)
    requires incoming.order.id == incoming.order.sequence == nextSequence
    requires swept.taker.remaining > 0 ==> Sound(swept.taker, t.payout)
    requires BookOk(sides.With(Opposite(incoming.order.intent.Side()), swept.makers), nextSequence, t.payout)
    requires var after := sides.With(Opposite(incoming.order.intent.Side()), swept.makers);
             |after.bids| + |after.asks| <= |sides.bids| + |sides.asks|
    requires swept.taker.remaining > 0 && swept.stop.Open? && incoming.timeInForce.Gtc? ==>
               forall o <- swept.makers ::
                 !Crosses(incoming.order.intent, incoming.order.Price(t.payout), o.Price(t.payout))
    requires p.admitted ==> nextSequence + 1 < TWO_64
    ensures BookOk(p.sides, if p.admitted then nextSequence + 1 else nextSequence, t.payout)
    ensures p.rested > 0 ==> |p.sides.bids| + |p.sides.asks| <= t.capacity
    ensures |p.sides.bids| + |p.sides.asks| <= |sides.bids| + |sides.asks| + 1
  {
    var side := incoming.order.intent.Side();
    var after := sides.With(Opposite(side), swept.makers);
    if p.rested > 0 {
      RestKeepsBook(after, swept.taker, nextSequence, t.payout);
      assert |after.Of(side) + {swept.taker}| <= |after.Of(side)| + 1;
    }
  }

  lemma DescendantsKeepBook(sides: Sides, side: Side, makers: set<Order>, nextSequence: U64, payout: U64)
    requires BookOk(sides, nextSequence, payout)
    requires SideBook(makers, side, payout) && forall o <- makers :: Descends(o, sides.Of(side))
    ensures BookOk(sides.With(side, makers), nextSequence, payout)
  {
    StaysUncrossed(sides, side, makers, payout);
    var after := sides.With(side, makers);
    forall o <- makers ensures exists was <- sides.Of(side) :: was.id == o.id {
      assert Descends(o, sides.Of(side));
      var was :| was in sides.Of(side) && SameOrder(o, was);
      assert was.id == o.id;
    }
  }

  /** Resting an order that crosses nothing keeps the book in order. */
  lemma RestKeepsBook(sides: Sides, taker: Order, nextSequence: U64, payout: U64)
    requires BookOk(sides, nextSequence, payout) && nextSequence + 1 < TWO_64
    requires Sound(taker, payout) && taker.id == taker.sequence == nextSequence
    requires forall o <- sides.Of(Opposite(taker.intent.Side())) ::
               !Crosses(taker.intent, taker.Price(payout), o.Price(payout))
    ensures BookOk(sides.With(taker.intent.Side(), sides.Of(taker.intent.Side()) + {taker}), nextSequence + 1, payout)
  {
    var side := taker.intent.Side();
    var after := sides.With(side, sides.Of(side) + {taker});
    assert after.Of(side) == sides.Of(side) + {taker};
    assert forall o <- after.All() :: o == taker || o in sides.All();
  }

  // ---------- What an answer tells ----------

  /** What the program asks of an order before it looks at the book. */
  predicate Admissible(incoming: Incoming, now: int, touchLimit: nat, nextSequence: U64, payout: U64) {
    var order := incoming.order;
    && 2 <= payout <= 1_000_000 && 0 < order.limitPrice < payout && 1 <= order.remaining <= 10_000_000
    && order.id == order.sequence == nextSequence && 1 <= touchLimit <= 16
    && (incoming.postOnly || order.expiresAt.Some? ==> incoming.timeInForce == Gtc)
    && (order.expiresAt.Some? ==> now < order.expiresAt.value)
  }

  /** What each refusal of an order says about it. */
  predicate Amiss(error: Error, incoming: Incoming, now: int, touchLimit: nat, nextSequence: U64, payout: U64) {
    var order := incoming.order;
    match error
    case InvalidPrice => !(2 <= payout <= 1_000_000 && 0 < order.limitPrice < payout)
    case InvalidQuantity => !(1 <= order.remaining <= 10_000_000)
    case InvalidSequence => !(order.id == order.sequence == nextSequence)
    case InvalidWorkLimit => !(1 <= touchLimit <= 16)
    case InvalidOptions => incoming.timeInForce != Gtc && (incoming.postOnly || order.expiresAt.Some?)
    case ExpiredIncoming => order.expiresAt.Some? && order.expiresAt.value <= now
    case _ => false
  }

  /** Of several things amiss, the one that is named comes first here. */
  function Turn(error: Error): nat {
    match error
    case InvalidPrice => 0
    case InvalidQuantity => 1
    case InvalidSequence => 2
    case InvalidWorkLimit => 3
    case InvalidOptions => 4
    case _ => 5
  }

  /** Exactly the admissible orders are let through, and a refusal names the first thing that is wrong. */
  lemma AdmittedExactly(incoming: Incoming, now: int, touchLimit: nat, nextSequence: U64, t: Terms)
    ensures var refused := Admission(incoming, now, touchLimit, nextSequence, t);
            && (refused.None? <==> Admissible(incoming, now, touchLimit, nextSequence, t.payout))
            && (refused.Some? ==> Amiss(refused.value, incoming, now, touchLimit, nextSequence, t.payout))
            && (refused.Some? ==>
                  forall e :: Amiss(e, incoming, now, touchLimit, nextSequence, t.payout) ==>
                    Turn(refused.value) <= Turn(e))
  {
  }

  /** An order of the submitter's own ended the matching. */
  ghost predicate EndedByOwn(incoming: Incoming, effects: seq<Effect>, left: set<Order>, r: Rules) {
    match incoming.selfTrade
    case CancelResting => false
    case CancelBoth => effects != [] && OwnRemoval(effects[|effects| - 1])
    case CancelAggressor =>
      left != {} && InReach(Best(left, r.payout), incoming.order, r)
      && Best(left, r.payout).owner == incoming.order.owner
  }

  /** What becomes of the submitter's own resting orders. */
  ghost predicate OwnOrdersSpared(incoming: Incoming, p: Placement) {
    && (forall e <- p.effects :: e.Filled? ==> e.fill.makerBefore.owner != incoming.order.owner)
    && forall i :: 0 <= i < |p.effects| && OwnRemoval(p.effects[i]) ==>
         && p.effects[i].order.owner == incoming.order.owner
         && match incoming.selfTrade
            case CancelResting => true
            case CancelBoth =>
              i == |p.effects| - 1 && p.rested == 0 && p.canceled > 0
              && p.disposition in {SelfTradePrevented, PartiallyFilledAndCanceled}
            case CancelAggressor => false
  }

  /** The word for a placement agrees with its numbers and with the reason it ended. */
  ghost predicate WellNamed(sides: Sides, incoming: Incoming, p: Placement, r: Rules) {
    var order, resting := incoming.order, sides.Of(Opposite(incoming.order.intent.Side()));
    var left := p.sides.Of(Opposite(order.intent.Side()));
    && (p.disposition in {PartiallyFilledAndResting, PartiallyFilledAndCanceled} <==> 0 < p.filled < order.remaining)
    && (p.disposition.PostOnlyWouldTrade? <==> incoming.postOnly && exists o <- resting :: InReach(o, order, r))
    && (p.disposition.FokNotFillable? <==> incoming.timeInForce.Fok? && p.filled < order.remaining)
    && (p.disposition.SelfTradePrevented? ==> EndedByOwn(incoming, p.effects, left, r))
    && (p.disposition.Canceled? ==> incoming.timeInForce.Ioc?)
    && (p.admitted && p.canceled > 0 ==>
          || EndedByOwn(incoming, p.effects, left, r)
          || (&& incoming.timeInForce.Ioc?
              && (left == {} || OutOfReach(Best(left, r.payout), order, r) || p.touched == r.touchLimit)))
  }

  /**
   The submitter's own orders are kept out of the way as the submitter asked, nothing is
   canceled without a reason, and the answer is called what it is.
   */
  lemma PlacementTells(sides: Sides, incoming: Incoming, now: int, touchLimit: nat,
                       revision: U64, nextSequence: U64, t: Terms)
    requires SidesOk(sides, t.payout)
    requires Place(sides, incoming, now, touchLimit, revision, nextSequence, t).Ok?
    ensures ValidPrice(incoming.order.limitPrice, t.payout)
    ensures var p := Place(sides, incoming, now, touchLimit, revision, nextSequence, t).value;
            OwnOrdersSpared(incoming, p) && WellNamed(sides, incoming, p, RulesOf(incoming, now, touchLimit, t))
  {
    PlaceShape(sides, incoming, now, touchLimit, revision, nextSequence, t);
    var s, r := SweepOf(sides, incoming, now, touchLimit, t).value, RulesOf(incoming, now, touchLimit, t);
    SweepTells(sides.Of(Opposite(incoming.order.intent.Side())), incoming, s, r);
    FinishTells(sides, incoming, s, Place(sides, incoming, now, touchLimit, revision, nextSequence, t).value,
      ReserveOf(s.taker, t.feeBps), r, t.capacity);
  }

  /** What a sweep shows of its own orders and of a post-only one. */
  ghost predicate Telling(makers: set<Order>, incoming: Incoming, s: Swept, r: Rules) {
    && StopsRightly(s, incoming.order, r) && OwnOrdersGo(s, incoming.order, r)
    && (forall e <- s.effects :: e.Filled? ==> e.fill.makerBefore.owner != incoming.order.owner)
    && (s.stop.WouldTrade? ==> incoming.postOnly)
    && (incoming.postOnly ==> (s.stop.WouldTrade? <==> exists o <- makers :: InReach(o, incoming.order, r)))
  }

  lemma SweepTells(makers: set<Order>, incoming: Incoming, s: Swept, r: Rules)
    requires SideBook(makers, Opposite(incoming.order.intent.Side()), r.payout) && incoming.order.remaining > 0
    requires Sweep(makers, incoming.order, 0, r) == Ok(s)
    requires r.postOnly == incoming.postOnly && (incoming.postOnly ==> !r.timeInForce.Ioc?)
    ensures Telling(makers, incoming, s, r)
  {
    var order := incoming.order;
    SweepStopsRightly(makers, order, 0, r);
    SweepIsFair(makers, order, 0, r);
    SweepLeavesRest(makers, order, 0, r);
    ForeignFills(makers, order, s, r);
    if incoming.postOnly {
      PostOnlyNeverFills(makers, order, 0, r);
      PostOnlyStops(makers, incoming, s, r);
    }
  }

  /** The rules an order is matched under. */
  function RulesOf(incoming: Incoming, now: int, touchLimit: nat, t: Terms): Rules
    requires ValidPrice(incoming.order.limitPrice, t.payout)
  {
    RulesFor(incoming, now, touchLimit, incoming.order.intent.CanonicalPrice(incoming.order.limitPrice, t.payout).value,
             t)
  }

  /** A post-only order stops at the first order in its reach, if there is any. */
  lemma PostOnlyStops(makers: set<Order>, incoming: Incoming, s: Swept, r: Rules)
    requires SideBook(makers, Opposite(incoming.order.intent.Side()), r.payout)
    requires r.postOnly && !r.timeInForce.Ioc? && s.taker == incoming.order && incoming.order.remaining > 0
    requires StopsRightly(s, incoming.order, r) && LeavesRest(s, makers, r.payout)
    requires forall e <- s.effects :: e.Removed? && Justified(e, makers, incoming.order, r) && e.reason.Expired?
    ensures s.stop.WouldTrade? <==> exists o <- makers :: InReach(o, incoming.order, r)
  {
    assert forall o <- s.makers :: o in makers;
    if s.stop.WouldTrade? {
      var o := Best(s.makers, r.payout);
      assert o in makers && InReach(o, incoming.order, r);
    } else {
      forall o <- makers ensures !InReach(o, incoming.order, r) {
        if InReach(o, incoming.order, r) {
          assert !Touched(o, s.effects) && o in s.makers;
          WorseDoesNotCross(Best(s.makers, r.payout), s.makers, incoming.order.intent, r);
        }
      }
    }
  }

  lemma ForeignFills(makers: set<Order>, taker: Order, s: Swept, r: Rules)
    requires TakerRuns(s, taker) && forall e <- s.effects :: Justified(e, makers, taker, r)
    ensures forall e <- s.effects :: e.Filled? ==> e.fill.makerBefore.owner != taker.owner
  {
    forall i | 0 <= i < |s.effects| && s.effects[i].Filled?
      ensures s.effects[i].fill.makerBefore.owner != taker.owner
    {
      assert Justified(s.effects[i], makers, taker, r);
    }
  }

  lemma FinishTells(sides: Sides, incoming: Incoming, s: Swept, p: Placement, final: Result<Reserve, Error>, r: Rules,
                    capacity: nat)
    requires s.taker.remaining <= incoming.order.remaining && incoming.order.remaining > 0
    requires Finish(incoming, s, sides, p.requiredReserve, final, capacity) == Ok(p)
    requires r.timeInForce == incoming.timeInForce && r.postOnly == incoming.postOnly
    requires r.selfTrade == incoming.selfTrade
    requires Telling(sides.Of(Opposite(incoming.order.intent.Side())), incoming, s, r)
    requires incoming.postOnly ==> incoming.timeInForce.Gtc?
    ensures OwnOrdersSpared(incoming, p) && WellNamed(sides, incoming, p, r)
  {
    var side := incoming.order.intent.Side();
    var after := sides.With(Opposite(side), s.makers);
    assert after.Of(Opposite(side)) == s.makers;
    match EndingOf(incoming, s.taker, s.stop)
    case Reject(_) =>
    case Close(_) => assert p.sides == after && p.effects == s.effects;
    case Rest(_) =>
      assert p.sides.Of(Opposite(side)) == s.makers && p.effects == s.effects;
  }

  /** The sweep of an order that takes what it can get, whatever kind it is of. */
  ghost function LenientSweep(sides: Sides, incoming: Incoming, now: int, touchLimit: nat, t: Terms)
    : Result<Swept, Error>
    requires SidesOk(sides, t.payout) && ValidPrice(incoming.order.limitPrice, t.payout)
  {
    Sweep(sides.Of(Opposite(incoming.order.intent.Side())), incoming.order, 0,
          Lenient(RulesOf(incoming, now, touchLimit, t)))
  }

  /** Something of the order is left to rest, and there is no slot for it. */
  ghost predicate NoRoom(sides: Sides, incoming: Incoming, s: Swept, capacity: nat) {
    && s.taker.remaining > 0 && s.stop.Open? && incoming.timeInForce.Gtc?
    && |s.makers| + |sides.Of(incoming.order.intent.Side())| >= capacity
  }

  /** The order may not trade as it asks. */
  predicate Unwanted(incoming: Incoming, s: Swept) {
    s.stop.WouldTrade? || (incoming.timeInForce.Fok? && s.taker.remaining > 0)
  }

  /**
   An admissible order is refused exactly if it runs out of touches without being immediate,
   if there is no room for its remainder, or if the counters are full; in that order.
   */
  lemma PlacementRefusals(sides: Sides, incoming: Incoming, now: int, touchLimit: nat, revision: U64,
                          nextSequence: U64, t: Terms)
    requires SidesOk(sides, t.payout) && t.feeBps <= Fees.MAX_FEE_BPS
    requires Admissible(incoming, now, touchLimit, nextSequence, t.payout) && Sound(incoming.order, t.payout)
    ensures LenientSweep(sides, incoming, now, touchLimit, t).Ok?
    ensures var s := LenientSweep(sides, incoming, now, touchLimit, t).value;
            var placed := Place(sides, incoming, now, touchLimit, revision, nextSequence, t);
            if !incoming.timeInForce.Ioc? && OutOfTouches(s, RulesOf(incoming, now, touchLimit, t))
            then placed == Err(MatchLimitExceeded)
            else if !Unwanted(incoming, s) && NoRoom(sides, incoming, s, t.capacity) then placed == Err(BookFull)
            else if !Unwanted(incoming, s) && (revision == TWO_64 - 1 || nextSequence == TWO_64 - 1)
            then placed == Err(ArithmeticOverflow)
            else placed.Ok? && (placed.value.admitted <==> !Unwanted(incoming, s))
  {
    var order, r := incoming.order, RulesOf(incoming, now, touchLimit, t);
    var makers := sides.Of(Opposite(order.intent.Side()));
    AdmittedExactly(incoming, now, touchLimit, nextSequence, t);
    SoundReserve(order, t.payout, t.feeBps);
    LimitIsTheOnlyError(makers, order, 0, r);
    var s := LenientSweep(sides, incoming, now, touchLimit, t).value;
    if Sweep(makers, order, 0, r).Ok? {
      SweepConserves(makers, order, 0, r);
      SweepNeverOverflows(makers, order, 0, r);
      if s.taker.remaining > 0 {
        SoundReserve(s.taker, t.payout, t.feeBps);
      }
      FinishRefuses(incoming, s, sides, ReserveOf(order, t.feeBps).value, ReserveOf(s.taker, t.feeBps), t.capacity);
    }
  }

  /** An order is refused for its touches only if it asks for none, or for more than sixteen. */
  lemma WorkLimitIsMeant(sides: Sides, incoming: Incoming, now: int, touchLimit: nat, revision: U64,
                         nextSequence: U64, t: Terms)
    requires SidesOk(sides, t.payout) && t.feeBps <= Fees.MAX_FEE_BPS && incoming.order.chainNotional == 0
    requires Place(sides, incoming, now, touchLimit, revision, nextSequence, t) == Err(InvalidWorkLimit)
    ensures !(1 <= touchLimit <= 16)
  {
    var order := incoming.order;
    if Admissible(incoming, now, touchLimit, nextSequence, t.payout) {
      Fees.ProductMonotone(order.remaining, MAX_QUANTITY, t.payout);
      assert t.payout * order.remaining <= t.payout * MAX_QUANTITY;
      PlacementRefusals(sides, incoming, now, touchLimit, revision, nextSequence, t);
    } else {
      AdmittedExactly(incoming, now, touchLimit, nextSequence, t);
    }
  }

  lemma FinishRefuses(incoming: Incoming, s: Swept, sides: Sides, required: Reserve, final: Result<Reserve, Error>,
                      capacity: nat)
    requires s.taker.remaining <= incoming.order.remaining && (s.taker.remaining > 0 ==> final.Ok?)
    ensures var finished := Finish(incoming, s, sides, required, final, capacity);
            if !Unwanted(incoming, s) && NoRoom(sides, incoming, s, capacity) then finished == Err(BookFull)
            else finished.Ok? && (finished.value.admitted <==> !Unwanted(incoming, s))
  {
  }

  /** An admitted placement takes orders off the top of the other side, and adds to its own side what is left of it. */
  lemma PlacementLeaves(sides: Sides, incoming: Incoming, now: int, touchLimit: nat, revision: U64,
                        nextSequence: U64, t: Terms)
    requires SidesOk(sides, t.payout) && t.feeBps <= Fees.MAX_FEE_BPS && Sound(incoming.order, t.payout)
    requires var placed := Place(sides, incoming, now, touchLimit, revision, nextSequence, t);
             placed.Ok? && placed.value.admitted
    ensures SweepOf(sides, incoming, now, touchLimit, t).Ok?
    ensures var p := Place(sides, incoming, now, touchLimit, revision, nextSequence, t).value;
            var s := SweepOf(sides, incoming, now, touchLimit, t).value;
            var side := incoming.order.intent.Side();
            && p.effects == s.effects && p.taker == s.taker && p.touched == s.touched
            && p.sides.Of(Opposite(side)) == s.makers
            && p.sides.Of(side) == sides.Of(side) + (if p.rested > 0 then {p.taker} else {})
            && LeavesRest(s, sides.Of(Opposite(side)), t.payout) && TakerRuns(s, incoming.order)
            && TouchesShow(s, 0, RulesOf(incoming, now, touchLimit, t))
  {
    PlaceShape(sides, incoming, now, touchLimit, revision, nextSequence, t);
    var s := SweepOf(sides, incoming, now, touchLimit, t).value;
    FinishLeaves(incoming, s, sides, Place(sides, incoming, now, touchLimit, revision, nextSequence, t).value,
      ReserveOf(s.taker, t.feeBps), t.capacity);
    SweepIsAccountable(sides.Of(Opposite(incoming.order.intent.Side())), incoming.order, s,
      RulesOf(incoming, now, touchLimit, t));
  }

  lemma FinishLeaves(incoming: Incoming, s: Swept, sides: Sides, p: Placement, final: Result<Reserve, Error>,
                     capacity: nat)
    requires s.taker.remaining <= incoming.order.remaining && p.admitted
    requires Finish(incoming, s, sides, p.requiredReserve, final, capacity) == Ok(p)
    ensures var side := incoming.order.intent.Side();
            && p.effects == s.effects && p.taker == s.taker && p.touched == s.touched
            && p.sides.Of(Opposite(side)) == s.makers
            && p.sides.Of(side) == sides.Of(side) + (if p.rested > 0 then {p.taker} else {})
  {
  }

  lemma SweepIsAccountable(makers: set<Order>, taker: Order, s: Swept, r: Rules)
    requires SideBook(makers, Opposite(taker.intent.Side()), r.payout) && Sweep(makers, taker, 0, r) == Ok(s)
    requires r.feeBps <= Fees.MAX_FEE_BPS && Sound(taker, r.payout)
    ensures LeavesRest(s, makers, r.payout) && TakerRuns(s, taker) && TouchesShow(s, 0, r)
  {
    SweepLeavesRest(makers, taker, 0, r);
    LimitIsTheOnlyError(makers, taker, 0, r);
  }
}
