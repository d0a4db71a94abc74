/**
 Matching as a pure function of the set of resting orders on the opposing side. The
 array-backed planner is proved to compute exactly this; the properties of placement
 are proved here.
 */
module Matching {
  import opened Wrappers
  import opened Words
  import Fees
  import opened Orders

  // ---------- Price-time priority ----------

  /** The comparison of the program: better price first, then smaller (sequence, id). */
  predicate Better(a: Order, b: Order, payout: U64) {
    if a.Price(payout) != b.Price(payout) then
      if a.intent.Side().Bid? then a.Price(payout) > b.Price(payout) else a.Price(payout) < b.Price(payout)
    else if a.sequence != b.sequence then a.sequence < b.sequence
    else a.id < b.id
  }

  /** Priority as one number; smaller trades first. */
  function Key(o: Order, payout: U64): int {
    (if o.intent.Side().Bid? then -o.Price(payout) else o.Price(payout)) * 0x1_0000_0000_0000_0000_0000_0000_0000_0000
    + o.sequence * 0x1_0000_0000_0000_0000 + o.id
  }

  lemma BetterIsKey(a: Order, b: Order, payout: U64)
    requires a.intent.Side() == b.intent.Side()
    ensures Better(a, b, payout) <==> Key(a, payout) < Key(b, payout)
  {
  }

  lemma KeyInjective(a: Order, b: Order, payout: U64)
    requires a.intent.Side() == b.intent.Side() && Key(a, payout) == Key(b, payout)
    ensures a.Price(payout) == b.Price(payout) && a.sequence == b.sequence && a.id == b.id
  {
    BetterIsKey(a, b, payout);
    BetterIsKey(b, a, payout);
  }

  /** One side of a book: sound orders of that side whose identifiers are their sequence numbers. */
  ghost predicate SideBook(orders: set<Order>, side: Side, payout: U64) {
    && ValidPayout(payout)
    && (forall o <- orders :: o.intent.Side() == side && Sound(o, payout) && o.id == o.sequence)
    && (forall a <- orders, b <- orders :: a.id == b.id ==> a == b)
  }

  ghost predicate IsBest(best: Order, orders: set<Order>, payout: U64) {
    best in orders && forall o <- orders :: Key(best, payout) <= Key(o, payout)
  }

  lemma BestExists(orders: set<Order>, payout: U64)
    requires orders != {}
    ensures exists best :: IsBest(best, orders, payout)
  {
    var o :| o in orders;
    if orders == {o} {
      assert IsBest(o, orders, payout);
    } else {
      var rest := orders - {o};
      BestExists(rest, payout);
      var b :| IsBest(b, rest, payout);
      assert orders == rest + {o};
      assert IsBest(if Key(b, payout) <= Key(o, payout) then b else o, orders, payout);
    }
  }

  ghost function Best(orders: set<Order>, payout: U64): (best: Order)
    requires orders != {}
    ensures IsBest(best, orders, payout)
  {
    BestExists(orders, payout);
    var best :| IsBest(best, orders, payout);
    best
  }

  lemma BestIsUnique(a: Order, b: Order, orders: set<Order>, side: Side, payout: U64)
    requires SideBook(orders, side, payout) && IsBest(a, orders, payout) && IsBest(b, orders, payout)
    ensures a == b
  {
    KeyInjective(a, b, payout);
  }

  // ---------- The sweep over opposing orders ----------

  datatype Removal = Expired | SelfTraded

  datatype Effect = Filled(fill: Fill) | Removed(order: Order, reason: Removal)

  /** Why matching stopped: the book was left open, a self-trade, or a post-only order would trade. */
  datatype Stop = Open | SelfTradeStop | WouldTrade

  datatype Swept = Swept(effects: seq<Effect>, makers: set<Order>, taker: Order, touched: nat, stop: Stop)

  datatype Rules = Rules(
    now: int, touchLimit: nat, payout: U64, feeBps: nat, limit: U64,
    timeInForce: TimeInForce, postOnly: bool, selfTrade: SelfTrade)

  function Prepend(effects: seq<Effect>, r: Result<Swept, Error>): Result<Swept, Error> {
    match r
    case Ok(swept) => Ok(swept.(effects := effects + swept.effects))
    case Err(_) => r
  }

  function Opposite(side: Side): Side {
    if side.Bid? then Ask else Bid
  }

  datatype Verdict = Continue | Halted(stop: Stop) | Failed(error: Error)

  /** What happens to the best order: removed or kept as `maker`, with the effects and the taker afterwards. */
  datatype Touch = Touch(verdict: Verdict, effects: seq<Effect>, pop: bool, maker: Order, taker: Order, touched: nat)

  /** The loop body, in the order of the program's tests. */
  function TouchOf(maker: Order, taker: Order, touched: nat, r: Rules): (t: Touch)
    requires ValidPayout(r.payout) && ValidPrice(maker.limitPrice, r.payout)
    ensures t.verdict.Continue? ==> |t.effects| == 1 && t.touched == touched + 1
    ensures t.taker.intent == taker.intent
    ensures touched <= t.touched <= touched + 1 && (t.touched > touched ==> touched != r.touchLimit)
    ensures t.pop ==> t.touched == touched + 1 && t.effects != []
  {
    var expired := maker.Expired(r.now);
    var crosses := Crosses(taker.intent, r.limit, maker.Price(r.payout));
    var none := Touch(Halted(Open), [], false, maker, taker, touched);
    if !expired && !crosses then none
    else if touched == r.touchLimit then
      if r.timeInForce.Ioc? then none else none.(verdict := Failed(MatchLimitExceeded))
    else
      var next := none.(touched := touched + 1);
      if expired then next.(verdict := Continue, effects := [Removed(maker, Expired)], pop := true)
      else if r.postOnly then next.(verdict := Halted(WouldTrade))
      else if maker.owner == taker.owner then
        match r.selfTrade
        case CancelAggressor => next.(verdict := Halted(SelfTradeStop))
        case CancelBoth => next.(verdict := Halted(SelfTradeStop), effects := [Removed(maker, SelfTraded)], pop := true)
        case CancelResting => next.(verdict := Continue, effects := [Removed(maker, SelfTraded)], pop := true)
      else
        match PlanFill(maker, taker, maker.Price(r.payout), r.payout, r.feeBps)
        case Err(e) => next.(verdict := Failed(e))
        case Ok(p) => next.(verdict := Continue, effects := [Filled(p.fill)], pop := p.maker.remaining == 0,
                            maker := p.maker, taker := p.taker)
  }

  /** The opposing orders left after touching `maker`. */
  function MakersAfter(makers: set<Order>, maker: Order, t: Touch): set<Order> {
    if t.pop then makers - {maker} else makers - {maker} + {t.maker}
  }

  /**
   The sweep as the snapshot model runs it: always touch the best order that is left. A
   partial fill of a maker exhausts the taker, so the sweep is then over.
   */
  ghost function Sweep(makers: set<Order>, taker: Order, touched: nat, r: Rules): Result<Swept, Error>
    requires SideBook(makers, Opposite(taker.intent.Side()), r.payout)
    decreases |makers|
  {
    if taker.remaining == 0 || makers == {} then Ok(Swept([], makers, taker, touched, Open)) else
    var maker := Best(makers, r.payout);
    var t := TouchOf(maker, taker, touched, r);
    var after := MakersAfter(makers, maker, t);
    match t.verdict
    case Failed(e) => Err(e)
    case Halted(stop) => Ok(Swept(t.effects, after, t.taker, t.touched, stop))
    case Continue =>
      if t.pop then Prepend(t.effects, Sweep(after, t.taker, t.touched, r))
      else Ok(Swept(t.effects, after, t.taker, t.touched, Open))
  }

  function FilledQuantity(effects: seq<Effect>): nat {
    if effects == [] then 0 else
    (if effects[0].Filled? then effects[0].fill.quantity else 0) + FilledQuantity(effects[1..])
  }

  lemma FilledQuantityPrepend(e: Effect, rest: seq<Effect>)
    ensures FilledQuantity([e] + rest) == (if e.Filled? then e.fill.quantity else 0) + FilledQuantity(rest)
  {
    assert ([e] + rest)[1..] == rest;
  }

  function MakerOf(e: Effect): Order {
    if e.Filled? then e.fill.makerBefore else e.order
  }

  /** Effects happen in strict price-time order. */
  ghost predicate InPriority(effects: seq<Effect>, payout: U64) {
    forall i, j :: 0 <= i < j < |effects| ==>
      Key(MakerOf(effects[i]), payout) < Key(MakerOf(effects[j]), payout)
  }

  /**
   A fill takes the maker's price, which the taker's limit accepts, as much as both orders allow, and
   settles as planned.
   */
  predicate FairFill(f: Fill, r: Rules) {
    && f.price == f.makerBefore.Price(r.payout)
    && Crosses(f.takerBefore.intent, r.limit, f.price)
    && f.quantity == Min(f.makerBefore.remaining, f.takerBefore.remaining)
    && f.makerBefore.owner != f.takerBefore.owner
    && (f.makerBefore.expiresAt.None? || r.now < f.makerBefore.expiresAt.value)
    && PlanFill(f.makerBefore, f.takerBefore, f.price, r.payout, r.feeBps).Ok?
    && f == PlanFill(f.makerBefore, f.takerBefore, f.price, r.payout, r.feeBps).value.fill
  }

  /** Every order the sweep touched was resting, and the sweep justified touching it. */
  ghost predicate Justified(e: Effect, makers: set<Order>, taker: Order, r: Rules) {
    && MakerOf(e) in makers
    && match e
       case Filled(f) => FairFill(f, r)
       case Removed(o, Expired) => o.expiresAt.Some? && o.expiresAt.value <= r.now
       case Removed(o, SelfTraded) => o.owner == taker.owner && !r.selfTrade.CancelAggressor?
  }

  predicate SameOrder(a: Order, b: Order) {
    a == b.(remaining := a.remaining, chainNotional := a.chainNotional)
  }

  /** The outcome of PlanFill, as far as the sweep relies on it. */
  lemma FillShape(maker: Order, taker: Order, price: U64, payout: U64, feeBps: nat)
    requires PlanFill(maker, taker, price, payout, feeBps).Ok?
    ensures var p := PlanFill(maker, taker, price, payout, feeBps).value;
            && p.fill.makerBefore == maker && p.fill.takerBefore == taker && p.fill.price == price
            && p.fill.quantity == Min(maker.remaining, taker.remaining) > 0
            && p.maker.remaining == maker.remaining - p.fill.quantity
            && p.taker.remaining == taker.remaining - p.fill.quantity
            && SameOrder(p.maker, maker) && SameOrder(p.taker, taker)
  {
  }

  /** Does the sweep continue past the best order, and with which effect and taker? */
  datatype Next = Halt | Go(effect: Effect, taker: Order)

  ghost function NextOf(maker: Order, taker: Order, touched: nat, r: Rules): Next
    requires ValidPayout(r.payout) && Sound(maker, r.payout)
  {
    var t := TouchOf(maker, taker, touched, r);
    if t.verdict.Continue? && t.pop then Go(t.effects[0], t.taker) else Halt
  }

  /** The sweep either ends at the best order or continues without it. */
  lemma SweepUnfolds(makers: set<Order>, taker: Order, touched: nat, r: Rules)
    requires SideBook(makers, Opposite(taker.intent.Side()), r.payout)
    requires taker.remaining != 0 && makers != {}
    ensures var maker := Best(makers, r.payout);
            match NextOf(maker, taker, touched, r)
            case Halt => true
            case Go(effect, next) =>
              && MakerOf(effect) == maker && Justified(effect, makers, taker, r)
              && next.intent == taker.intent && SameOrder(next, taker) && touched != r.touchLimit
              && taker.remaining == next.remaining + (if effect.Filled? then effect.fill.quantity else 0)
              && Sweep(makers, taker, touched, r) == Prepend([effect], Sweep(makers - {maker}, next, touched + 1, r))
  {
  }

  /** What a touch after which nothing else is touched does. */
  lemma HaltingTouch(maker: Order, taker: Order, touched: nat, r: Rules)
    requires ValidPayout(r.payout) && Sound(maker, r.payout)
    requires taker.remaining != 0 && touched <= r.touchLimit
    requires NextOf(maker, taker, touched, r).Halt? && !TouchOf(maker, taker, touched, r).verdict.Failed?
    ensures var t := TouchOf(maker, taker, touched, r);
            && |t.effects| <= 1 && touched + |t.effects| <= t.touched <= r.touchLimit
            && SameOrder(t.taker, taker) && FilledQuantity(t.effects) + t.taker.remaining == taker.remaining
            && (|t.effects| == 1 ==> MakerOf(t.effects[0]) == maker && Justified(t.effects[0], {maker}, taker, r))
            && (t.taker.remaining > 0 && !(t.verdict.Halted? && !t.verdict.stop.Open?)
                && !(r.timeInForce.Ioc? && t.touched == r.touchLimit) ==>
                  !t.pop && t.maker == maker && !Crosses(taker.intent, r.limit, maker.Price(r.payout)))
  {
    var t := TouchOf(maker, taker, touched, r);
    if t.verdict.Continue? {
      FillShape(maker, taker, maker.Price(r.payout), r.payout, r.feeBps);
    }
    if t.effects != [] {
      FilledQuantityPrepend(t.effects[0], []);
    }
  }

  /** What a sweep that ends at the best order leaves. */
  lemma SweepHalts(makers: set<Order>, taker: Order, touched: nat, r: Rules)
    requires SideBook(makers, Opposite(taker.intent.Side()), r.payout)
    requires taker.remaining != 0 && makers != {} && touched <= r.touchLimit
    requires NextOf(Best(makers, r.payout), taker, touched, r).Halt?
    requires Sweep(makers, taker, touched, r).Ok?
    ensures var maker := Best(makers, r.payout);
            var s := Sweep(makers, taker, touched, r).value;
            && |s.effects| <= 1 && touched + |s.effects| <= s.touched <= r.touchLimit
            && SameOrder(s.taker, taker)
            && FilledQuantity(s.effects) + s.taker.remaining == taker.remaining
            && (|s.effects| == 1 ==> MakerOf(s.effects[0]) == maker && Justified(s.effects[0], makers, taker, r))
            && (s.taker.remaining > 0 && s.stop.Open? && !(r.timeInForce.Ioc? && s.touched == r.touchLimit) ==>
                  s.makers == makers && !Crosses(taker.intent, r.limit, maker.Price(r.payout)))
  {
    var maker := Best(makers, r.payout);
    SweepStep(makers, taker, touched, r);
    HaltingTouch(maker, taker, touched, r);
    assert makers - {maker} + {maker} == makers;
  }

  /** A sweep conserves quantity and works at most once per effect within its touch limit. */
  lemma {:induction false} SweepConserves(makers: set<Order>, taker: Order, touched: nat, r: Rules)
    requires SideBook(makers, Opposite(taker.intent.Side()), r.payout)
    requires touched <= r.touchLimit
    requires Sweep(makers, taker, touched, r).Ok?
    ensures var s := Sweep(makers, taker, touched, r).value;
            && FilledQuantity(s.effects) + s.taker.remaining == taker.remaining
            && SameOrder(s.taker, taker)
            && touched + |s.effects| <= s.touched <= r.touchLimit
    decreases |makers|
  {
    if taker.remaining != 0 && makers != {} {
      var maker := Best(makers, r.payout);
      SweepUnfolds(makers, taker, touched, r);
      match NextOf(maker, taker, touched, r)
      case Halt =>
        SweepHalts(makers, taker, touched, r);
      case Go(effect, next) =>
        SweepConserves(makers - {maker}, next, touched + 1, r);
        var later := Sweep(makers - {maker}, next, touched + 1, r).value;
        FilledQuantityPrepend(effect, later.effects);
        assert Sweep(makers, taker, touched, r).value == later.(effects := [effect] + later.effects);
    }
  }

  /** A sweep that touches nothing, or ends at the best order, is fair: it has at most the effect on that order. */
  lemma HaltIsFair(makers: set<Order>, taker: Order, touched: nat, r: Rules)
    requires SideBook(makers, Opposite(taker.intent.Side()), r.payout)
    requires touched <= r.touchLimit && Sweep(makers, taker, touched, r).Ok?
    requires taker.remaining == 0 || makers == {} || NextOf(Best(makers, r.payout), taker, touched, r).Halt?
    ensures var s := Sweep(makers, taker, touched, r).value;
            (forall e <- s.effects :: Justified(e, makers, taker, r)) && InPriority(s.effects, r.payout)
  {
    if taker.remaining == 0 || makers == {} {
      assert Sweep(makers, taker, touched, r).value.effects == [];
    } else {
      SweepHalts(makers, taker, touched, r);
    }
  }

  /** Every effect of a sweep is justified, and effects follow strict price-time priority. */
  lemma {:induction false} SweepIsFair(makers: set<Order>, taker: Order, touched: nat, r: Rules)
    requires SideBook(makers, Opposite(taker.intent.Side()), r.payout)
    requires touched <= r.touchLimit
    requires Sweep(makers, taker, touched, r).Ok?
    ensures var s := Sweep(makers, taker, touched, r).value;
            && (forall e <- s.effects :: Justified(e, makers, taker, r))
            && InPriority(s.effects, r.payout)
    decreases |makers|
  {
    if taker.remaining == 0 || makers == {} || NextOf(Best(makers, r.payout), taker, touched, r).Halt? {
      HaltIsFair(makers, taker, touched, r);
    } else {
      var maker := Best(makers, r.payout);
      var go := NextOf(maker, taker, touched, r);
      SweepGoesOn(makers, taker, touched, r);
      SweepIsFair(makers - {maker}, go.taker, touched + 1, r);
      FirstEffect(go.effect, Sweep(makers - {maker}, go.taker, touched + 1, r).value.effects, makers, taker, go.taker,
        r);
    }
  }

  /** A sweep that goes on is its first effect and the sweep of what is left. */
  lemma SweepGoesOn(makers: set<Order>, taker: Order, touched: nat, r: Rules)
    requires SideBook(makers, Opposite(taker.intent.Side()), r.payout) && Sweep(makers, taker, touched, r).Ok?
    requires taker.remaining != 0 && makers != {} && NextOf(Best(makers, r.payout), taker, touched, r).Go?
    ensures var maker, go := Best(makers, r.payout), NextOf(Best(makers, r.payout), taker, touched, r);
            && MakerOf(go.effect) == maker && IsBest(maker, makers, r.payout) && maker in makers
            && Justified(go.effect, makers, taker, r)
            && go.taker.intent == taker.intent && SameOrder(go.taker, taker) && touched != r.touchLimit
            && SideBook(makers - {maker}, Opposite(go.taker.intent.Side()), r.payout)
            && |makers - {maker}| < |makers| && Sweep(makers - {maker}, go.taker, touched + 1, r).Ok?
            && Sweep(makers, taker, touched, r).value.effects ==
               [go.effect] + Sweep(makers - {maker}, go.taker, touched + 1, r).value.effects
  {
    SweepUnfolds(makers, taker, touched, r);
    var maker, go := Best(makers, r.payout), NextOf(Best(makers, r.payout), taker, touched, r);
    PrependedEffects(go.effect, Sweep(makers - {maker}, go.taker, touched + 1, r), Sweep(makers, taker, touched, r));
  }

  lemma PrependedEffects(effect: Effect, later: Result<Swept, Error>, whole: Result<Swept, Error>)
    requires later.Ok? && whole == Prepend([effect], later)
    ensures whole.Ok? && whole.value.effects == [effect] + later.value.effects
  {
  }

  /**
   A taker left unfinished on an open stop (other than an immediate order that ran out of
   touches) faces no order it could still trade with.
   */
  lemma {:induction false} SweepLeavesNothingCrossing(makers: set<Order>, taker: Order, touched: nat, r: Rules)
    requires SideBook(makers, Opposite(taker.intent.Side()), r.payout)
    requires touched <= r.touchLimit
    requires Sweep(makers, taker, touched, r).Ok?
    ensures var s := Sweep(makers, taker, touched, r).value;
            s.taker.remaining > 0 && s.stop.Open? && !(r.timeInForce.Ioc? && s.touched == r.touchLimit) ==>
              forall o <- s.makers :: !Crosses(taker.intent, r.limit, o.Price(r.payout))
    decreases |makers|
  {
    if taker.remaining != 0 && makers != {} {
      var maker := Best(makers, r.payout);
      SweepUnfolds(makers, taker, touched, r);
      match NextOf(maker, taker, touched, r)
      case Halt =>
        SweepHalts(makers, taker, touched, r);
        if !Crosses(taker.intent, r.limit, maker.Price(r.payout)) {
          WorseDoesNotCross(maker, makers, taker.intent, r);
        }
      case Go(effect, next) =>
        SweepLeavesNothingCrossing(makers - {maker}, next, touched + 1, r);
    }
  }

  /** If the best order does not cross, no order of the side does. */
  lemma WorseDoesNotCross(best: Order, makers: set<Order>, taker: Intent, r: Rules)
    requires SideBook(makers, Opposite(taker.Side()), r.payout) && IsBest(best, makers, r.payout)
    requires !Crosses(taker, r.limit, best.Price(r.payout))
    ensures forall o <- makers :: !Crosses(taker, r.limit, o.Price(r.payout))
  {
    forall o <- makers ensures !Crosses(taker, r.limit, o.Price(r.payout)) {
      assert Key(best, r.payout) <= Key(o, r.payout);
    }
  }

  /** Putting the effect on the best order in front of later effects keeps them justified and in priority. */
  lemma FirstEffect(e: Effect, later: seq<Effect>, makers: set<Order>, taker: Order, next: Order, r: Rules)
    requires SideBook(makers, Opposite(taker.intent.Side()), r.payout)
    requires next.owner == taker.owner
    requires IsBest(MakerOf(e), makers, r.payout) && Justified(e, makers, taker, r)
    requires forall x <- later :: Justified(x, makers - {MakerOf(e)}, next, r)
    requires InPriority(later, r.payout)
    ensures forall x <- [e] + later :: Justified(x, makers, taker, r)
    ensures InPriority([e] + later, r.payout)
    ensures FilledQuantity([e] + later) == (if e.Filled? then e.fill.quantity else 0) + FilledQuantity(later)
  {
    FilledQuantityPrepend(e, later);
    forall x <- later ensures Justified(x, makers, taker, r) && Key(MakerOf(e), r.payout) < Key(MakerOf(x), r.payout) {
      assert Justified(x, makers - {MakerOf(e)}, next, r);
      BestIsStrict(MakerOf(e), MakerOf(x), makers, Opposite(taker.intent.Side()), r.payout);
    }
  }

  lemma BestIsStrict(best: Order, other: Order, orders: set<Order>, side: Side, payout: U64)
    requires SideBook(orders, side, payout) && IsBest(best, orders, payout) && other in orders && other != best
    ensures Key(best, payout) < Key(other, payout)
  {
    if Key(best, payout) == Key(other, payout) {
      KeyInjective(best, other, payout);
    }
  }

  // ---------- Why a sweep stops ----------

  /** A resting order this taker would trade with, or find in the way of its own. */
  predicate InReach(maker: Order, taker: Order, r: Rules) {
    (maker.expiresAt.None? || r.now < maker.expiresAt.value) && Crosses(taker.intent, r.limit, maker.Price(r.payout))
  }

  /** A resting order the taker cannot trade with, and that has not lapsed either. */
  predicate OutOfReach(maker: Order, taker: Order, r: Rules) {
    (maker.expiresAt.None? || r.now < maker.expiresAt.value)
    && !Crosses(taker.intent, r.limit, maker.Price(r.payout))
  }

  predicate OwnRemoval(e: Effect) {
    e.Removed? && e.reason.SelfTraded?
  }

  /** Every way for a sweep to stop, by what is left of the taker and of the other side. */
  ghost predicate StopsRightly(s: Swept, taker: Order, r: Rules) {
    match s.stop
    case Open =>
      || s.taker.remaining == 0 || s.makers == {}
      || OutOfReach(Best(s.makers, r.payout), taker, r)
      || (r.timeInForce.Ioc? && s.touched == r.touchLimit)
    case WouldTrade =>
      s.taker.remaining > 0 && r.postOnly && s.makers != {} && InReach(Best(s.makers, r.payout), taker, r)
    case SelfTradeStop =>
      && s.taker.remaining > 0 && !r.postOnly
      && match r.selfTrade
         case CancelResting => false
         case CancelBoth => s.effects != [] && OwnRemoval(s.effects[|s.effects| - 1])
         case CancelAggressor =>
           && s.makers != {} && InReach(Best(s.makers, r.payout), taker, r)
           && Best(s.makers, r.payout).owner == taker.owner
  }

  /** Which of the taker's own orders go: all that are in reach, the first only, or none. */
  ghost predicate OwnOrdersGo(s: Swept, taker: Order, r: Rules) {
    forall i :: 0 <= i < |s.effects| && OwnRemoval(s.effects[i]) ==>
      && s.effects[i].order.owner == taker.owner && InReach(s.effects[i].order, taker, r)
      && match r.selfTrade
         case CancelResting => true
         case CancelBoth => i == |s.effects| - 1 && s.stop.SelfTradeStop?
         case CancelAggressor => false
  }

  /** What one touch at which the sweep ends shows of both. */
  lemma HaltStopsRightly(makers: set<Order>, taker: Order, touched: nat, r: Rules)
    requires SideBook(makers, Opposite(taker.intent.Side()), r.payout)
    requires taker.remaining != 0 && makers != {} && touched <= r.touchLimit
    requires NextOf(Best(makers, r.payout), taker, touched, r).Halt? && Sweep(makers, taker, touched, r).Ok?
    ensures var s := Sweep(makers, taker, touched, r).value;
            StopsRightly(s, taker, r) && OwnOrdersGo(s, taker, r)
  {
    SweepStep(makers, taker, touched, r);
    var maker := Best(makers, r.payout);
    var t := TouchOf(maker, taker, touched, r);
    if t.verdict.Continue? {
      FillShape(maker, taker, maker.Price(r.payout), r.payout, r.feeBps);
    } else if !t.pop {
      assert makers - {maker} + {maker} == makers;
    }
  }

  /** A sweep stops for a reason it may stop for, and removes the taker's own orders as the taker asked. */
  lemma {:induction false} SweepStopsRightly(makers: set<Order>, taker: Order, touched: nat, r: Rules)
    requires SideBook(makers, Opposite(taker.intent.Side()), r.payout)
    requires touched <= r.touchLimit && Sweep(makers, taker, touched, r).Ok?
    ensures var s := Sweep(makers, taker, touched, r).value;
            StopsRightly(s, taker, r) && OwnOrdersGo(s, taker, r)
    decreases |makers|
  {
    if taker.remaining != 0 && makers != {} {
      var maker := Best(makers, r.payout);
      var go := NextOf(maker, taker, touched, r);
      if go.Halt? {
        HaltStopsRightly(makers, taker, touched, r);
      } else {
        SweepUnfolds(makers, taker, touched, r);
        SweepStopsRightly(makers - {maker}, go.taker, touched + 1, r);
        GoStopsRightly(makers, taker, touched, r);
      }
    }
  }

  lemma GoStopsRightly(makers: set<Order>, taker: Order, touched: nat, r: Rules)
    requires SideBook(makers, Opposite(taker.intent.Side()), r.payout) && Sweep(makers, taker, touched, r).Ok?
    requires taker.remaining != 0 && makers != {} && NextOf(Best(makers, r.payout), taker, touched, r).Go?
    requires var maker, go := Best(makers, r.payout), NextOf(Best(makers, r.payout), taker, touched, r);
             && SideBook(makers - {maker}, Opposite(go.taker.intent.Side()), r.payout)
             && Sweep(makers - {maker}, go.taker, touched + 1, r).Ok?
             && StopsRightly(Sweep(makers - {maker}, go.taker, touched + 1, r).value, go.taker, r)
             && OwnOrdersGo(Sweep(makers - {maker}, go.taker, touched + 1, r).value, go.taker, r)
    ensures var s := Sweep(makers, taker, touched, r).value;
            StopsRightly(s, taker, r) && OwnOrdersGo(s, taker, r)
  {
    var maker, go := Best(makers, r.payout), NextOf(Best(makers, r.payout), taker, touched, r);
    var later := Sweep(makers - {maker}, go.taker, touched + 1, r).value;
    SweepUnfolds(makers, taker, touched, r);
    GoingOnIsNoStop(maker, taker, touched, r);
    ThenStopsRightly(go.effect, later, Sweep(makers, taker, touched, r).value, taker, go.taker, r);
  }

  lemma ThenStopsRightly(e: Effect, later: Swept, s: Swept, taker: Order, next: Order, r: Rules)
    requires s == later.(effects := [e] + later.effects)
    requires next.owner == taker.owner && next.intent == taker.intent
    requires OwnRemoval(e) ==> e.order.owner == taker.owner && InReach(e.order, taker, r) && r.selfTrade.CancelResting?
    requires StopsRightly(later, next, r) && OwnOrdersGo(later, next, r)
    ensures StopsRightly(s, taker, r) && OwnOrdersGo(s, taker, r)
  {
    assert later.effects != [] ==> s.effects[|s.effects| - 1] == later.effects[|later.effects| - 1];
    forall i | 0 <= i < |s.effects| && OwnRemoval(s.effects[i])
      ensures s.effects[i].order.owner == taker.owner && InReach(s.effects[i].order, taker, r)
      ensures r.selfTrade.CancelBoth? ==> i == |s.effects| - 1 && s.stop.SelfTradeStop?
      ensures !r.selfTrade.CancelAggressor?
    {
      if i > 0 {
        assert s.effects[i] == later.effects[i - 1];
      }
    }
  }

  /** Going on past an order of one's own is only for those who cancel their resting orders. */
  lemma GoingOnIsNoStop(maker: Order, taker: Order, touched: nat, r: Rules)
    requires ValidPayout(r.payout) && Sound(maker, r.payout) && NextOf(maker, taker, touched, r).Go?
    ensures var go := NextOf(maker, taker, touched, r);
            && go.taker.owner == taker.owner && go.taker.intent == taker.intent
            && (OwnRemoval(go.effect) ==>
                  go.effect.order == maker && maker.owner == taker.owner && InReach(maker, taker, r)
                  && r.selfTrade.CancelResting?)
  {
  }

  // ---------- What a sweep leaves ----------

  ghost predicate Touched(o: Order, effects: seq<Effect>) {
    exists e <- effects :: MakerOf(e) == o
  }

  /** Only the last effect can leave something of the order it touches. */
  ghost predicate LeavesPart(o: Order, effects: seq<Effect>, payout: U64) {
    && effects != [] && effects[|effects| - 1].Filled?
    && var f := effects[|effects| - 1].fill;
       f.quantity < f.makerBefore.remaining && CarriesOn(o, f.makerBefore, f.quantity, f.price, payout)
  }

  /**
   Exactly the orders touched are gone, all of them better than any that was not touched, but
   for what is left of an order that the taker could not use up.
   */
  ghost predicate LeavesRest(s: Swept, makers: set<Order>, payout: U64) {
    && (forall o <- makers :: o in s.makers <==> !Touched(o, s.effects))
    && (forall o <- makers, e <- s.effects :: !Touched(o, s.effects) ==> Key(MakerOf(e), payout) < Key(o, payout))
    && (forall o <- s.makers :: o in makers || LeavesPart(o, s.effects, payout))
    && (forall i :: 0 <= i < |s.effects| && s.effects[i].Filled?
                    && s.effects[i].fill.quantity < s.effects[i].fill.makerBefore.remaining ==>
                      i == |s.effects| - 1 && s.taker.remaining == 0
                      && exists o <- s.makers :: LeavesPart(o, s.effects, payout))
  }

  /** Each fill finds the taker as the fills before it left it. */
  ghost predicate TakerRuns(s: Swept, taker: Order) {
    forall i :: 0 <= i < |s.effects| && s.effects[i].Filled? ==>
      && SameOrder(s.effects[i].fill.takerBefore, taker)
      && s.effects[i].fill.takerBefore.remaining == taker.remaining - FilledQuantity(s.effects[..i])
  }

  lemma TouchFills(maker: Order, taker: Order, touched: nat, r: Rules)
    requires ValidPayout(r.payout) && Sound(maker, r.payout)
    requires var t := TouchOf(maker, taker, touched, r); t.effects != [] && t.effects[0].Filled?
    ensures var planned := PlanFill(maker, taker, maker.Price(r.payout), r.payout, r.feeBps);
            && planned.Ok?
            && TouchOf(maker, taker, touched, r) ==
               Touch(Continue, [Filled(planned.value.fill)], planned.value.maker.remaining == 0, planned.value.maker,
                     planned.value.taker, touched + 1)
  {
  }

  /** A fill either uses the maker up or leaves a part of it, and then the taker is done. */
  lemma FillLeaves(maker: Order, taker: Order, touched: nat, r: Rules)
    requires ValidPayout(r.payout) && Sound(maker, r.payout)
    requires var t := TouchOf(maker, taker, touched, r); t.effects != [] && t.effects[0].Filled?
    ensures var t := TouchOf(maker, taker, touched, r);
            var f := t.effects[0].fill;
            && |t.effects| == 1 && t.verdict.Continue? && f.makerBefore == maker && f.takerBefore == taker
            && (t.pop <==> f.quantity == maker.remaining)
            && (!t.pop ==> t.taker.remaining == 0 && t.maker != maker && LeavesPart(t.maker, t.effects, r.payout))
  {
    TouchFills(maker, taker, touched, r);
    FillCarriesOn(maker, taker, maker.Price(r.payout), r.payout, r.feeBps);
  }

  /** The best order is ahead of every other. */
  lemma BestIsAhead(makers: set<Order>, side: Side, payout: U64)
    requires SideBook(makers, side, payout) && makers != {}
    ensures forall o <- makers :: o == Best(makers, payout) || Key(Best(makers, payout), payout) < Key(o, payout)
  {
    forall o <- makers | o != Best(makers, payout) ensures Key(Best(makers, payout), payout) < Key(o, payout) {
      BestIsStrict(Best(makers, payout), o, makers, side, payout);
    }
  }

  lemma TouchedOne(e: Effect, later: seq<Effect>)
    ensures forall o :: Touched(o, [e] + later) <==> o == MakerOf(e) || Touched(o, later)
  {
    forall o ensures Touched(o, [e] + later) <==> o == MakerOf(e) || Touched(o, later) {
      assert ([e] + later)[0] == e;
      if Touched(o, later) {
        var x :| x in later && MakerOf(x) == o;
        assert x in [e] + later;
      }
    }
  }

  lemma HaltLeavesRest(makers: set<Order>, taker: Order, touched: nat, r: Rules)
    requires SideBook(makers, Opposite(taker.intent.Side()), r.payout)
    requires taker.remaining != 0 && makers != {}
    requires NextOf(Best(makers, r.payout), taker, touched, r).Halt? && Sweep(makers, taker, touched, r).Ok?
    ensures var s := Sweep(makers, taker, touched, r).value;
            LeavesRest(s, makers, r.payout) && TakerRuns(s, taker)
  {
    SweepStep(makers, taker, touched, r);
    BestIsAhead(makers, Opposite(taker.intent.Side()), r.payout);
    var maker := Best(makers, r.payout);
    var t := TouchOf(maker, taker, touched, r);
    if t.effects == [] {
      assert makers - {maker} + {maker} == makers;
    } else {
      assert t.effects == [t.effects[0]] + [];
      TouchedOne(t.effects[0], []);
      assert forall o :: !Touched(o, []);
      if t.effects[0].Filled? {
        FillLeaves(maker, taker, touched, r);
        PartialLeavesRest(makers, taker, maker, t, Sweep(makers, taker, touched, r).value, r);
      }
    }
  }

  lemma PartialLeavesRest(makers: set<Order>, taker: Order, maker: Order, t: Touch, s: Swept, r: Rules)
    requires SideBook(makers, Opposite(taker.intent.Side()), r.payout) && maker in makers
    requires forall o <- makers :: o == maker || Key(maker, r.payout) < Key(o, r.payout)
    requires |t.effects| == 1 && t.effects[0].Filled? && t.effects[0].fill.makerBefore == maker
    requires t.effects[0].fill.takerBefore == taker && t.taker.remaining == 0
    requires LeavesPart(t.maker, t.effects, r.payout) && t.maker != maker
    requires s.effects == t.effects && s.makers == makers - {maker} + {t.maker} && s.taker == t.taker
    requires forall o :: Touched(o, s.effects) <==> o == maker
    ensures LeavesRest(s, makers, r.payout) && TakerRuns(s, taker)
  {
    assert t.maker.id == maker.id && t.maker != maker;
    assert t.maker in s.makers;
  }

  lemma GoKeepsRunning(taker: Order, s: Swept, later: Swept, e: Effect, next: Order)
    requires SameOrder(next, taker) && TakerRuns(later, next)
    requires taker.remaining == next.remaining + (if e.Filled? then e.fill.quantity else 0)
    requires e.Filled? ==> e.fill.takerBefore == taker
    requires s == later.(effects := [e] + later.effects)
    ensures TakerRuns(s, taker)
  {
    forall i | 0 <= i < |s.effects| && s.effects[i].Filled?
      ensures SameOrder(s.effects[i].fill.takerBefore, taker)
      ensures s.effects[i].fill.takerBefore.remaining == taker.remaining - FilledQuantity(s.effects[..i])
    {
      if i > 0 {
        assert s.effects[i] == later.effects[i - 1];
        assert s.effects[..i] == [e] + later.effects[..i - 1];
        FilledQuantityPrepend(e, later.effects[..i - 1]);
      }
    }
  }

  lemma GoLeavesRest(makers: set<Order>, s: Swept, later: Swept, e: Effect, payout: U64)
    requires MakerOf(e) in makers
    requires forall o <- makers :: o == MakerOf(e) || Key(MakerOf(e), payout) < Key(o, payout)
    requires forall a <- makers, b <- makers :: a.id == b.id ==> a == b
    requires e.Filled? ==> e.fill.quantity == e.fill.makerBefore.remaining
    requires LeavesRest(later, makers - {MakerOf(e)}, payout)
    requires forall x <- later.effects :: MakerOf(x) in makers - {MakerOf(e)}
    requires s == later.(effects := [e] + later.effects)
    ensures LeavesRest(s, makers, payout)
  {
    TouchedOne(e, later.effects);
    forall o ensures LeavesPart(o, later.effects, payout) ==> LeavesPart(o, s.effects, payout) {
    }
    forall o <- s.makers ensures o != MakerOf(e) && (o in makers || LeavesPart(o, s.effects, payout)) {
      if LeavesPart(o, later.effects, payout) {
        assert later.effects[|later.effects| - 1] in later.effects;
      }
    }
    forall i | 0 <= i < |s.effects| && s.effects[i].Filled?
               && s.effects[i].fill.quantity < s.effects[i].fill.makerBefore.remaining
      ensures i == |s.effects| - 1 && s.taker.remaining == 0
      ensures exists o <- s.makers :: LeavesPart(o, s.effects, payout)
    {
      assert s.effects[i] == later.effects[i - 1];
    }
  }

  /** A sweep takes makers off the top, in order and completely, and leaves every other order as it was. */
  lemma {:induction false} SweepLeavesRest(makers: set<Order>, taker: Order, touched: nat, r: Rules)
    requires SideBook(makers, Opposite(taker.intent.Side()), r.payout)
    requires touched <= r.touchLimit && Sweep(makers, taker, touched, r).Ok?
    ensures var s := Sweep(makers, taker, touched, r).value;
            LeavesRest(s, makers, r.payout) && TakerRuns(s, taker)
    decreases |makers|
  {
    if taker.remaining != 0 && makers != {} {
      var maker := Best(makers, r.payout);
      var go := NextOf(maker, taker, touched, r);
      if go.Halt? {
        HaltLeavesRest(makers, taker, touched, r);
      } else {
        SweepUnfolds(makers, taker, touched, r);
        var later := Sweep(makers - {maker}, go.taker, touched + 1, r).value;
        SweepLeavesRest(makers - {maker}, go.taker, touched + 1, r);
        SweepIsFair(makers - {maker}, go.taker, touched + 1, r);
        GoUsesUp(maker, taker, touched, r);
        BestIsAhead(makers, Opposite(taker.intent.Side()), r.payout);
        GoKeepsRunning(taker, Sweep(makers, taker, touched, r).value, later, go.effect, go.taker);
        GoLeavesRest(makers, Sweep(makers, taker, touched, r).value, later, go.effect, r.payout);
      }
    }
  }

  lemma GoUsesUp(maker: Order, taker: Order, touched: nat, r: Rules)
    requires ValidPayout(r.payout) && Sound(maker, r.payout) && NextOf(maker, taker, touched, r).Go?
    ensures var e := NextOf(maker, taker, touched, r).effect;
            e.Filled? ==> e.fill.takerBefore == taker && e.fill.quantity == e.fill.makerBefore.remaining
  {
    if NextOf(maker, taker, touched, r).effect.Filled? {
      FillLeaves(maker, taker, touched, r);
    }
  }

  // ---------- How far a sweep may go ----------

  /** Every touch shows: as an effect, or as the order the sweep stopped at. */
  predicate TouchesShow(s: Swept, touched: nat, r: Rules) {
    s.touched == touched + |s.effects|
      + (if s.stop.WouldTrade? || (s.stop.SelfTradeStop? && r.selfTrade.CancelAggressor?) then 1 else 0)
  }

  /** Touches have run out in front of an order that would have to be touched. */
  ghost predicate OutOfTouches(s: Swept, r: Rules) {
    && s.stop.Open? && s.taker.remaining > 0 && s.touched == r.touchLimit && s.makers != {}
    && !OutOfReach(Best(s.makers, r.payout), s.taker, r)
  }

  /** The same rules for an order that takes what it can get. */
  function Lenient(r: Rules): Rules {
    r.(timeInForce := Ioc)
  }

  /** The sweep is the lenient one, unless that is out of touches and the order is not immediate. */
  ghost predicate OnlyLimited(makers: set<Order>, taker: Order, touched: nat, r: Rules)
    requires SideBook(makers, Opposite(taker.intent.Side()), r.payout)
  {
    var lenient := Sweep(makers, taker, touched, Lenient(r));
    && lenient.Ok? && TouchesShow(lenient.value, touched, r)
    && Sweep(makers, taker, touched, r) ==
       if !r.timeInForce.Ioc? && OutOfTouches(lenient.value, r) then Err(MatchLimitExceeded) else lenient
  }

  /**
   The kind of order makes no difference to the sweep, except that running out of touches is
   an error unless the order is immediate; every touch shows.
   */
  lemma {:induction false} LimitIsTheOnlyError(makers: set<Order>, taker: Order, touched: nat, r: Rules)
    requires SideBook(makers, Opposite(taker.intent.Side()), r.payout)
    requires r.feeBps <= Fees.MAX_FEE_BPS && touched <= r.touchLimit
    requires taker.remaining > 0 ==> Sound(taker, r.payout)
    ensures OnlyLimited(makers, taker, touched, r)
    decreases |makers|
  {
    if taker.remaining == 0 || makers == {} {
      NothingToLimit(makers, taker, touched, r);
    } else {
      var maker := Best(makers, r.payout);
      TouchStaysSound(maker, taker, touched, Lenient(r));
      LenientTouch(maker, taker, touched, r);
      var t := TouchOf(maker, taker, touched, Lenient(r));
      if t.verdict.Continue? && t.pop {
        LimitIsTheOnlyError(makers - {maker}, t.taker, t.touched, r);
        LimitGoesOn(makers, taker, touched, r);
      } else {
        LimitHalts(makers, taker, touched, r);
      }
    }
  }

  lemma NothingToLimit(makers: set<Order>, taker: Order, touched: nat, r: Rules)
    requires SideBook(makers, Opposite(taker.intent.Side()), r.payout) && (taker.remaining == 0 || makers == {})
    ensures OnlyLimited(makers, taker, touched, r)
  {
  }

  lemma LimitHalts(makers: set<Order>, taker: Order, touched: nat, r: Rules)
    requires SideBook(makers, Opposite(taker.intent.Side()), r.payout) && makers != {} && taker.remaining != 0
    requires r.feeBps <= Fees.MAX_FEE_BPS && touched <= r.touchLimit && Sound(taker, r.payout)
    requires NextOf(Best(makers, r.payout), taker, touched, Lenient(r)).Halt?
    ensures OnlyLimited(makers, taker, touched, r)
  {
    var maker := Best(makers, r.payout);
    LenientTouch(maker, taker, touched, r);
    SweepStep(makers, taker, touched, r);
    SweepStep(makers, taker, touched, Lenient(r));
    assert makers - {maker} + {maker} == makers;
  }

  lemma LimitGoesOn(makers: set<Order>, taker: Order, touched: nat, r: Rules)
    requires SideBook(makers, Opposite(taker.intent.Side()), r.payout) && makers != {} && taker.remaining != 0
    requires r.feeBps <= Fees.MAX_FEE_BPS && touched <= r.touchLimit && Sound(taker, r.payout)
    requires var t := TouchOf(Best(makers, r.payout), taker, touched, Lenient(r));
             && t.verdict.Continue? && t.pop && t.taker.intent == taker.intent
             && OnlyLimited(makers - {Best(makers, r.payout)}, t.taker, t.touched, r)
    ensures OnlyLimited(makers, taker, touched, r)
  {
    var maker := Best(makers, r.payout);
    LenientTouch(maker, taker, touched, r);
    SweepStep(makers, taker, touched, r);
    SweepStep(makers, taker, touched, Lenient(r));
  }

  /** One touch by rules that differ in the kind of order only. */
  lemma LenientTouch(maker: Order, taker: Order, touched: nat, r: Rules)
    requires Sound(maker, r.payout) && maker.intent.Side() != taker.intent.Side()
    requires r.feeBps <= Fees.MAX_FEE_BPS && Sound(taker, r.payout) && touched <= r.touchLimit
    ensures var t := TouchOf(maker, taker, touched, Lenient(r));
            && !t.verdict.Failed?
            && (t.verdict.Continue? ==>
                  |t.effects| == 1 && t.touched == touched + 1 && (!t.pop ==> t.taker.remaining == 0))
            && (t.verdict.Halted? ==> t.taker == taker)
            && (t.verdict.Halted? && !t.pop ==> t.maker == maker && t.effects == [])
            && (t.verdict.Halted? ==>
                  t.touched == touched + |t.effects|
                    + (if t.verdict.stop.WouldTrade? || (t.verdict.stop.SelfTradeStop? && r.selfTrade.CancelAggressor?)
                       then 1 else 0))
            && TouchOf(maker, taker, touched, r) ==
               if !r.timeInForce.Ioc? && touched == r.touchLimit && !OutOfReach(maker, taker, r)
               then t.(verdict := Failed(MatchLimitExceeded)) else t
  {
    PlanFillSucceeds(maker, taker, maker.Price(r.payout), r.payout, r.feeBps);
    FillShape(maker, taker, maker.Price(r.payout), r.payout, r.feeBps);
  }

  /** Between sound orders a touch can only fail for want of touches, and leaves sound orders. */
  lemma TouchStaysSound(maker: Order, taker: Order, touched: nat, r: Rules)
    requires Sound(maker, r.payout) && maker.intent.Side() != taker.intent.Side()
    requires r.feeBps <= Fees.MAX_FEE_BPS && Sound(taker, r.payout)
    ensures var t := TouchOf(maker, taker, touched, r);
            && (t.verdict.Failed? ==> t.verdict.error == MatchLimitExceeded)
            && (t.taker.remaining > 0 ==> Sound(t.taker, r.payout))
            && (!t.pop ==> Sound(t.maker, r.payout))
            && SameOrder(t.maker, maker) && t.taker.intent == taker.intent
  {
    PlanFillSucceeds(maker, taker, maker.Price(r.payout), r.payout, r.feeBps);
    FillShape(maker, taker, maker.Price(r.payout), r.payout, r.feeBps);
  }

  /** One unfolding of the sweep. */
  lemma SweepStep(makers: set<Order>, taker: Order, touched: nat, r: Rules)
    requires SideBook(makers, Opposite(taker.intent.Side()), r.payout)
    requires taker.remaining != 0 && makers != {}
    ensures var maker := Best(makers, r.payout);
            var t := TouchOf(maker, taker, touched, r);
            var after := MakersAfter(makers, maker, t);
            Sweep(makers, taker, touched, r) ==
            match t.verdict
            case Failed(e) => Err(e)
            case Halted(stop) => Ok(Swept(t.effects, after, t.taker, t.touched, stop))
            case Continue =>
              if t.pop then Prepend(t.effects, Sweep(makers - {maker}, t.taker, t.touched, r))
              else Ok(Swept(t.effects, after, t.taker, t.touched, Open))
  {
  }

  /**
   Sound orders never fail to match for arithmetic reasons: the only error a sweep can
   report is running out of touches.
   */
  lemma {:induction false} SweepNeverOverflows(makers: set<Order>, taker: Order, touched: nat, r: Rules)
    requires SideBook(makers, Opposite(taker.intent.Side()), r.payout)
    requires r.feeBps <= Fees.MAX_FEE_BPS
    requires taker.remaining > 0 ==> Sound(taker, r.payout)
    ensures var swept := Sweep(makers, taker, touched, r);
            && (swept.Err? ==> swept.error == MatchLimitExceeded)
            && (swept.Ok? ==> swept.value.taker.remaining > 0 ==> Sound(swept.value.taker, r.payout))
    decreases |makers|
  {
    if taker.remaining != 0 && makers != {} {
      var maker := Best(makers, r.payout);
      TouchStaysSound(maker, taker, touched, r);
      SweepStep(makers, taker, touched, r);
      var t := TouchOf(maker, taker, touched, r);
      if t.verdict.Continue? && t.pop {
        SweepNeverOverflows(makers - {maker}, t.taker, t.touched, r);
      }
    }
  }

  /** `o` is one of `orders`, possibly smaller than it was. */
  ghost predicate Descends(o: Order, orders: set<Order>) {
    exists before <- orders :: SameOrder(o, before)
  }

  lemma SubsetDescends(some: set<Order>, orders: set<Order>)
    requires some <= orders
    ensures forall o <- some :: Descends(o, orders)
  {
    forall o <- some ensures Descends(o, orders) {
      assert SameOrder(o, o);
    }
  }

  /** Shrinking one order in place keeps a side well formed. */
  lemma ReplaceKeepsSide(orders: set<Order>, maker: Order, after: Order, side: Side, payout: U64)
    requires SideBook(orders, side, payout) && maker in orders
    requires SameOrder(after, maker) && Sound(after, payout)
    ensures SideBook(orders - {maker} + {after}, side, payout)
    ensures |orders - {maker} + {after}| == |orders|
    ensures forall o <- orders - {maker} + {after} :: Descends(o, orders)
  {
    SubsetDescends(orders - {maker}, orders);
    assert Descends(after, orders);
    assert after !in orders - {maker};
  }

  /** What stays resting on the swept side is still a well-formed side of orders that rested before. */
  lemma {:induction false} SweepKeepsSide(makers: set<Order>, taker: Order, touched: nat, r: Rules)
    requires SideBook(makers, Opposite(taker.intent.Side()), r.payout)
    requires r.feeBps <= Fees.MAX_FEE_BPS
    requires taker.remaining > 0 ==> Sound(taker, r.payout)
    requires Sweep(makers, taker, touched, r).Ok?
    ensures var s := Sweep(makers, taker, touched, r).value;
            && SideBook(s.makers, Opposite(taker.intent.Side()), r.payout)
            && |s.makers| <= |makers|
            && (forall o <- s.makers :: Descends(o, makers))
    decreases |makers|
  {
    SubsetDescends(makers, makers);
    if taker.remaining != 0 && makers != {} {
      var maker := Best(makers, r.payout);
      var t := TouchOf(maker, taker, touched, r);
      TouchStaysSound(maker, taker, touched, r);
      SweepStep(makers, taker, touched, r);
      if t.verdict.Continue? && t.pop {
        SweepKeepsSide(makers - {maker}, t.taker, t.touched, r);
        DescendsFromMore(Sweep(makers - {maker}, t.taker, t.touched, r).value.makers, makers - {maker}, makers);
      } else {
        TouchKeepsSide(makers, maker, t, Opposite(taker.intent.Side()), r.payout);
      }
    }
  }

  lemma TouchKeepsSide(makers: set<Order>, maker: Order, t: Touch, side: Side, payout: U64)
    requires SideBook(makers, side, payout) && maker in makers
    requires SameOrder(t.maker, maker) && (!t.pop ==> Sound(t.maker, payout))
    ensures var after := MakersAfter(makers, maker, t);
            && SideBook(after, side, payout) && |after| <= |makers|
            && (forall o <- after :: Descends(o, makers))
  {
    if t.pop {
      SubsetDescends(makers - {maker}, makers);
    } else {
      ReplaceKeepsSide(makers, maker, t.maker, side, payout);
    }
  }

  lemma DescendsFromMore(some: set<Order>, fewer: set<Order>, more: set<Order>)
    requires fewer <= more && forall o <- some :: Descends(o, fewer)
    ensures forall o <- some :: Descends(o, more)
  {
  }
}
