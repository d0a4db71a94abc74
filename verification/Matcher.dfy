/**
 Planning one placement over the stored book. The loop reads the root of the opposing heap
 through the patches, as the program does; its outcome is proved to be the set-level
 specification `Place`, so everything proved about `Place` holds of the arrays.
 */
module Matcher {
  import opened Wrappers
  import opened Words
  import Fees
  import opened Orders
  import opened Matching
  import opened Placing
  import opened Slab
  import opened Planner

  /** What a plan reports besides its patches. */
  datatype Report = Report(
    disposition: Disposition, effects: seq<Effect>, admitted: bool,
    filled: nat, canceled: nat, rested: nat, touched: nat,
    taker: Order, requiredReserve: Reserve, finalReserve: Reserve)

  function ReportOf(p: Placement): Report {
    Report(p.disposition, p.effects, p.admitted, p.filled, p.canceled, p.rested, p.touched,
           p.taker, p.requiredReserve, p.finalReserve)
  }

  /** The whole sweep is what has happened so far followed by the sweep of what is left. */
  ghost predicate Sweeping(whole: Result<Swept, Error>, effects: seq<Effect>, makers: set<Order>, taker: Order,
                           touched: nat, r: Rules) {
    && SideBook(makers, Opposite(taker.intent.Side()), r.payout)
    && whole == Prepend(effects, Sweep(makers, taker, touched, r))
  }

  /** The sweep has ended this way. */
  ghost predicate SweptTo(whole: Result<Swept, Error>, effects: seq<Effect>, makers: set<Order>, taker: Order,
                          touched: nat, stop: Stop) {
    whole == Ok(Swept(effects, makers, taker, touched, stop))
  }

  lemma PrependTwice(a: seq<Effect>, b: seq<Effect>, r: Result<Swept, Error>)
    ensures Prepend(a, Prepend(b, r)) == Prepend(a + b, r)
  {
    if r.Ok? {
      assert a + (b + r.value.effects) == a + b + r.value.effects;
    }
  }

  /** The loop body and the specification take the same step. */
  lemma TouchIsSweepStep(makers: set<Order>, maker: Order, taker: Order, touched: nat, r: Rules)
    requires SideBook(makers, Opposite(taker.intent.Side()), r.payout) && r.feeBps <= Fees.MAX_FEE_BPS
    requires taker.remaining > 0 && IsBest(maker, makers, r.payout)
    ensures var t := TouchOf(maker, taker, touched, r);
            var after := MakersAfter(makers, maker, t);
            var sweep := Sweep(makers, taker, touched, r);
            match t.verdict
            case Failed(e) => sweep == Err(e)
            case Halted(stop) => sweep == Ok(Swept(t.effects, after, t.taker, t.touched, stop))
            case Continue =>
              && t.taker.intent == taker.intent
              && SideBook(after, Opposite(taker.intent.Side()), r.payout)
              && sweep == Prepend(t.effects, Sweep(after, t.taker, t.touched, r))
  {
    BestIsUnique(maker, Best(makers, r.payout), makers, Opposite(taker.intent.Side()), r.payout);
    var t := TouchOf(maker, taker, touched, r);
    MakerStaysSound(maker, taker, touched, r);
    if t.verdict.Continue? {
      TouchKeepsSide(makers, maker, t, Opposite(taker.intent.Side()), r.payout);
    }
    SweepTouches(makers, maker, taker, touched, r, t);
  }

  lemma SweepTouches(makers: set<Order>, maker: Order, taker: Order, touched: nat, r: Rules, t: Touch)
    requires SideBook(makers, Opposite(taker.intent.Side()), r.payout)
    requires taker.remaining > 0 && makers != {} && maker == Best(makers, r.payout)
    requires t == TouchOf(maker, taker, touched, r)
    requires t.verdict.Continue? ==>
               && t.taker.intent == taker.intent && (!t.pop ==> t.taker.remaining == 0)
               && SideBook(MakersAfter(makers, maker, t), Opposite(taker.intent.Side()), r.payout)
    ensures var after := MakersAfter(makers, maker, t);
            var sweep := Sweep(makers, taker, touched, r);
            match t.verdict
            case Failed(e) => sweep == Err(e)
            case Halted(stop) => sweep == Ok(Swept(t.effects, after, t.taker, t.touched, stop))
            case Continue => sweep == Prepend(t.effects, Sweep(after, t.taker, t.touched, r))
  {
    if t.verdict.Continue? && !t.pop {
      assert t.effects + [] == t.effects;
    }
  }

  /**
   Whatever the taker's history, a touched maker that stays is sound and only smaller; it stays only if the
   taker is done.
   */
  lemma MakerStaysSound(maker: Order, taker: Order, touched: nat, r: Rules)
    requires Sound(maker, r.payout) && r.feeBps <= Fees.MAX_FEE_BPS && taker.remaining > 0
    ensures var t := TouchOf(maker, taker, touched, r);
            && SameOrder(t.maker, maker) && SameOrder(t.taker, taker) && (!t.pop ==> Sound(t.maker, r.payout))
            && (t.verdict.Continue? && !t.pop ==> t.taker.remaining == 0)
            && (!t.verdict.Continue? && !t.pop ==> t.maker == maker)
  {
    var price := maker.Price(r.payout);
    if PlanFill(maker, taker, price, r.payout, r.feeBps).Ok? {
      FillShape(maker, taker, price, r.payout, r.feeBps);
      TradedSide(maker, Min(maker.remaining, taker.remaining), price, r.payout, r.feeBps);
    }
  }

  /** The plan's opposing side after a touch of `maker`; the taker's own side is left alone. */
  ghost predicate Touched(before: Sides, opposing: Side, maker: Order, t: Touch, after: Sides) {
    after == before.With(opposing, MakersAfter(before.Of(opposing), maker, t))
  }

  /** Reads the root of the opposing heap: the best order of its side. */
  method ReadRoot(plan: Plan, opposing: Side) returns (index: nat, maker: Order)
    requires plan.Valid() && plan.Len(opposing) > 0
    ensures plan.view.Cells(opposing) != [] && index == plan.view.Cells(opposing)[0] < |plan.view.slots|
    ensures plan.view.slots[index] == Live(maker) && LiveOn(plan.view.slots, index, opposing)
    ensures IsBest(maker, SidesOf(plan.view).Of(opposing), plan.payout) && Sound(maker, plan.payout)
  {
    RootHoldsBest(plan.view, plan.free, opposing, plan.payout);
    EntriesAreLive(plan.view, plan.free, opposing, plan.payout);
    index := plan.Cell(opposing, 0);
    var slot := plan.SlotAt(index);
    maker := slot.order;
  }

  /** Reads the root of the opposing heap and does to it what the loop body decides. */
  method TouchRoot(plan: Plan, opposing: Side, taker: Order, touched: nat, r: Rules)
    returns (t: Touch, ghost maker: Order)
    requires plan.Valid() && plan.Len(opposing) > 0 && r.payout == plan.payout
    requires taker.remaining > 0 && r.feeBps <= Fees.MAX_FEE_BPS
    requires touched != r.touchLimit ==>
               |plan.heapPatches| + CELLS_PER_REMOVAL <= plan.heapRoom && |plan.slotPatches| < plan.slotRoom
    modifies plan
    ensures plan.Valid()
    ensures IsBest(maker, old(SidesOf(plan.view)).Of(opposing), r.payout) && Sound(maker, r.payout)
    ensures t == TouchOf(maker, taker, touched, r)
    ensures Touched(old(SidesOf(plan.view)), opposing, maker, t, SidesOf(plan.view))
    ensures t.effects == [] ==> plan.view == old(plan.view)
    ensures |plan.heapPatches| <= old(|plan.heapPatches|) + CELLS_PER_REMOVAL * (t.touched - touched)
    ensures |plan.slotPatches| <= old(|plan.slotPatches|) + (t.touched - touched)
  {
    ghost var before := SidesOf(plan.view);
    var index, root := ReadRoot(plan, opposing);
    maker := root;
    t := TouchOf(root, taker, touched, r);
    MakerStaysSound(maker, taker, touched, r);
    assert before.Of(opposing) - {maker} + {maker} == before.Of(opposing);
    if t.pop {
      plan.Pop(opposing);
    } else if t.verdict.Continue? {
      plan.Shrink(opposing, index, t.maker);
    }
  }

  datatype Sweeped = Sweeped(effects: seq<Effect>, taker: Order, touched: nat, stop: Stop)

  /** What the loop reports and leaves in the plan, against the specification of the whole sweep. */
  ghost predicate SweepComputed(whole: Result<Swept, Error>, out: Result<Sweeped, Error>, sides: Sides, opposing: Side,
                                after: Sides) {
    match whole
    case Err(e) => out == Err(e)
    case Ok(s) => out == Ok(Sweeped(s.effects, s.taker, s.touched, s.stop)) && after == sides.With(opposing, s.makers)
  }

  /** One iteration: the root is touched, and the sweep is that touch followed by the sweep of what is left. */
  method SweepOnce(plan: Plan, opposing: Side, taker: Order, touched: nat, r: Rules,
                   ghost whole: Result<Swept, Error>, ghost effects: seq<Effect>, ghost makers: set<Order>,
                   ghost sides: Sides)
    returns (t: Touch, ghost after: set<Order>)
    requires plan.Valid() && plan.Len(opposing) > 0 && r.payout == plan.payout
    requires taker.remaining > 0 && r.feeBps <= Fees.MAX_FEE_BPS && opposing == Opposite(taker.intent.Side())
    requires SidesOf(plan.view) == sides.With(opposing, makers) && Sweeping(whole, effects, makers, taker, touched, r)
    requires touched <= r.touchLimit
    requires plan.heapRoom == r.touchLimit * CELLS_PER_REMOVAL + CELLS_PER_INSERTION
    requires plan.slotRoom == r.touchLimit + 1
    requires |plan.heapPatches| <= touched * CELLS_PER_REMOVAL && |plan.slotPatches| <= touched
    modifies plan
    ensures plan.Valid() && SidesOf(plan.view) == sides.With(opposing, after)
    ensures |t.effects| == 0 ==> plan.view == old(plan.view)
    ensures t.touched <= r.touchLimit && |plan.heapPatches| <= t.touched * CELLS_PER_REMOVAL
    ensures |plan.slotPatches| <= t.touched
    ensures match t.verdict
            case Failed(e) => whole == Err(e)
            case Halted(stop) => SweptTo(whole, effects + t.effects, after, t.taker, t.touched, stop)
            case Continue =>
              && t.touched > touched && t.taker.intent == taker.intent
              && Sweeping(whole, effects + t.effects, after, t.taker, t.touched, r)
  {
    ghost var maker;
    t, maker := TouchRoot(plan, opposing, taker, touched, r);
    TouchIsSweepStep(makers, maker, taker, touched, r);
    after := MakersAfter(makers, maker, t);
    if t.verdict.Continue? {
      PrependTwice(effects, t.effects, Sweep(after, t.taker, t.touched, r));
    }
  }

  /** Nothing left to trade, or nobody left to trade with. */
  lemma SweepEnds(whole: Result<Swept, Error>, effects: seq<Effect>, makers: set<Order>, taker: Order, touched: nat,
                  r: Rules)
    requires Sweeping(whole, effects, makers, taker, touched, r) && (taker.remaining == 0 || makers == {})
    ensures SweptTo(whole, effects, makers, taker, touched, Open)
  {
    assert effects + [] == effects;
  }

  /** The matching loop. Each touch writes at most a removal's worth of cells, so the patch lists never run out. */
  method SweepBook(plan: Plan, order: Order, opposing: Side, r: Rules, ghost sides: Sides)
    returns (out: Result<Sweeped, Error>)
    requires plan.Valid() && plan.heapPatches == [] && plan.slotPatches == [] && SidesOf(plan.view) == sides
    requires plan.heapRoom == r.touchLimit * CELLS_PER_REMOVAL + CELLS_PER_INSERTION
    requires plan.slotRoom == r.touchLimit + 1
    requires opposing == Opposite(order.intent.Side()) && r.payout == plan.payout && r.feeBps <= Fees.MAX_FEE_BPS
    requires SideBook(sides.Of(opposing), opposing, r.payout)
    modifies plan
    ensures plan.Valid()
    ensures SweepComputed(Sweep(sides.Of(opposing), order, 0, r), out, sides, opposing, SidesOf(plan.view))
    ensures out.Ok? && out.value.effects == [] ==> plan.view == old(plan.view)
    ensures |plan.heapPatches| + CELLS_PER_INSERTION <= plan.heapRoom && |plan.slotPatches| < plan.slotRoom
  {
    ghost var whole := Sweep(sides.Of(opposing), order, 0, r);
    ghost var makers := sides.Of(opposing);
    var taker, touched, effects, verdict := order, 0, [], Continue;
    PrependNothing(whole);
    while verdict.Continue? && taker.remaining > 0 && plan.Len(opposing) > 0
      invariant plan.Valid() && SidesOf(plan.view) == sides.With(opposing, makers)
      invariant touched <= r.touchLimit && (verdict.Continue? ==> taker.intent == order.intent)
      invariant |plan.heapPatches| <= touched * CELLS_PER_REMOVAL && |plan.slotPatches| <= touched
      invariant SweepStands(whole, verdict, effects, makers, taker, touched, r)
      invariant |effects| == 0 ==> plan.view == old(plan.view)
      decreases verdict.Continue?, r.touchLimit - touched
    {
      var t, after := SweepOnce(plan, opposing, taker, touched, r, whole, effects, makers, sides);
      assert |effects + t.effects| == |effects| + |t.effects|;
      verdict, taker, touched, effects := t.verdict, t.taker, t.touched, effects + t.effects;
      makers := after;
    }
    if verdict.Continue? {
      NothingToTouch(plan.view, plan.free, opposing, plan.payout, whole, effects, makers, taker, touched, r, sides);
      verdict := Halted(Open);
    }
    out := if verdict.Failed? then Err(verdict.error) else Ok(Sweeped(effects, taker, touched, verdict.stop));
    SweepConcludes(whole, verdict, out, effects, makers, taker, touched, r, sides, opposing);
  }

  /** The loop ends by itself: the taker is done or nothing rests on the other side. */
  lemma NothingToTouch(v: View, free: seq<nat>, opposing: Side, payout: U64, whole: Result<Swept, Error>,
                       effects: seq<Effect>, makers: set<Order>, taker: Order, touched: nat, r: Rules, sides: Sides)
    requires WellFormed(v, free, payout) && SidesOf(v) == sides.With(opposing, makers)
    requires (taker.remaining == 0 || v.Len(opposing) == 0) && Sweeping(whole, effects, makers, taker, touched, r)
    ensures SweptTo(whole, effects, makers, taker, touched, Open)
  {
    EmptySide(v, free, opposing, payout);
    SweepEnds(whole, effects, makers, taker, touched, r);
  }

  lemma SweepConcludes(whole: Result<Swept, Error>, verdict: Verdict, out: Result<Sweeped, Error>,
                       effects: seq<Effect>, makers: set<Order>, taker: Order, touched: nat, r: Rules, sides: Sides,
                       opposing: Side)
    requires !verdict.Continue? && SweepStands(whole, verdict, effects, makers, taker, touched, r)
    requires out == if verdict.Failed? then Err(verdict.error) else Ok(Sweeped(effects, taker, touched, verdict.stop))
    ensures SweepComputed(whole, out, sides, opposing, sides.With(opposing, makers))
  {
  }

  /** What the loop has found out about the whole sweep. */
  ghost predicate SweepStands(whole: Result<Swept, Error>, verdict: Verdict, effects: seq<Effect>, makers: set<Order>,
                              taker: Order, touched: nat, r: Rules) {
    match verdict
    case Failed(e) => whole == Err(e)
    case Halted(stop) => SweptTo(whole, effects, makers, taker, touched, stop)
    case Continue => Sweeping(whole, effects, makers, taker, touched, r)
  }

  lemma PrependNothing(r: Result<Swept, Error>)
    ensures Prepend([], r) == r
  {
    if r.Ok? {
      assert [] + r.value.effects == r.value.effects;
    }
  }

  lemma EmptySide(v: View, free: seq<nat>, side: Side, payout: U64)
    requires WellFormed(v, free, payout)
    ensures v.Len(side) == 0 <==> SidesOf(v).Of(side) == {}
  {
    WellFormedSides(v, free, payout);
  }
}
