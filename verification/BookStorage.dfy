/**
 The stored book: header fields, a slab array and two heap arrays. Planning reads it
 without writing; committing applies the patches of one plan.
 */
module BookStorage {
  import opened Wrappers
  import opened Words
  import Fees
  import opened Orders
  import opened Matching
  import opened Placing
  import opened Heap
  import opened Slab
  import opened Planner
  import opened Matcher
  import R = HeapRemoval

  /** Whatever passes admission with this order may rest: a fresh order always may. */
  predicate FitsBook(order: Order, payout: U64) {
    ValidateOrder(order, payout).None? ==> Sound(order, payout)
  }

  class Storage {
    const payout: U64
    const feeBps: nat
    const slots: array<Slot>
    const bids: array<nat>
    const asks: array<nat>

    var bidLen: nat
    var askLen: nat
    var activeLen: nat
    var freeHead: nat
    var revision: U64
    var nextSequence: U64
    ghost var free: seq<nat>

    /** The stored layout as a value. */
    function Layout(): View
      reads this, slots, bids, asks
    {
      View(slots[..], bids[..], asks[..], bidLen, askLen, activeLen, freeHead)
    }

    ghost function Resting(): Sides
      reads this, slots, bids, asks
    {
      SidesOf(Layout())
    }

    function Limits(): Terms
      reads this
    {
      Terms(payout, feeBps, slots.Length)
    }

    /** The layout is in order and so is the book it holds. */
    ghost predicate Valid()
      reads this, slots, bids, asks
    {
      && bids != asks && feeBps <= Fees.MAX_FEE_BPS
      && WellFormed(Layout(), free, payout)
      && BookOk(Resting(), nextSequence, payout)
    }

    /** An empty book: every slot free in ascending order, every heap cell unused. */
    constructor (payout: U64, feeBps: nat, capacity: nat)
      requires ValidPayout(payout) && feeBps <= Fees.MAX_FEE_BPS && 0 < capacity <= MAX_ORDERS
      ensures Valid() && fresh(slots) && fresh(bids) && fresh(asks)
      ensures this.payout == payout && this.feeBps == feeBps && slots.Length == capacity
      ensures Resting() == Sides({}, {})
      ensures revision == 0 && nextSequence == 1 && freeHead == 0
    {
      this.payout, this.feeBps := payout, feeBps;
      slots := new Slot[capacity]((i: nat) => Free(if i + 1 < capacity then i + 1 else NONE));
      bids := new nat[capacity](_ => NONE);
      asks := new nat[capacity](_ => NONE);
      bidLen, askLen, activeLen, freeHead := 0, 0, 0, 0;
      revision, nextSequence := 0, 1;
      free := seq(capacity, i => i);
      new;
      EmptyBook(slots[..], bids[..], asks[..], free, payout);
    }

    /** Plans a placement. Nothing stored changes, whatever the outcome. */
    method Prepare(incoming: Incoming, now: int, touchLimit: nat) returns (r: Result<Report, Error>, plan: Plan)
      requires Valid() && FitsBook(incoming.order, payout)
      ensures fresh(plan) && plan.base == Layout() && plan.payout == payout
      ensures var placed := Place(Resting(), incoming, now, touchLimit, revision, nextSequence, Limits());
              && (placed.Err? ==> r == Err(placed.error))
              && (placed.Ok? ==>
                    r == Ok(ReportOf(placed.value)) && plan.Valid() && SidesOf(plan.view) == placed.value.sides)
      ensures r.Ok? && !r.value.admitted ==> plan.view == Layout() && plan.heapPatches == [] && plan.slotPatches == []
      ensures r.Ok? ==> ReusesHead(Layout(), r.value, plan.view)
    {
      WellFormedSides(Layout(), free, payout);
      plan := new Plan(Layout(), payout, touchLimit, free);
      var refused := Admission(incoming, now, touchLimit, nextSequence, Limits());
      var required := ReserveOf(incoming.order, feeBps);
      if refused.Some? {
        r := Err(refused.value);
      } else if required.Err? {
        r := Err(required.error);
      } else {
        r := MatchAdmitted(plan, incoming, now, touchLimit, required.value);
      }
    }

    /** An admitted order is matched; only then do the counters matter. */
    method MatchAdmitted(plan: Plan, incoming: Incoming, now: int, touchLimit: nat, required: Reserve)
      returns (r: Result<Report, Error>)
      requires Valid() && FitsBook(incoming.order, payout) && plan.Valid() && plan.payout == payout
      requires plan.base == plan.view == Layout() && plan.heapPatches == [] && plan.slotPatches == []
      requires plan.heapRoom == touchLimit * CELLS_PER_REMOVAL + CELLS_PER_INSERTION && plan.slotRoom == touchLimit + 1
      requires Admission(incoming, now, touchLimit, nextSequence, Limits()).None?
      requires ReserveOf(incoming.order, feeBps) == Ok(required) && SidesOk(Resting(), payout)
      modifies plan
      ensures var placed := Place(Resting(), incoming, now, touchLimit, revision, nextSequence, Limits());
              && (placed.Err? ==> r == Err(placed.error))
              && (placed.Ok? ==>
                    r == Ok(ReportOf(placed.value)) && plan.Valid() && SidesOf(plan.view) == placed.value.sides)
      ensures r.Ok? && !r.value.admitted ==> plan.view == Layout() && plan.heapPatches == [] && plan.slotPatches == []
      ensures r.Ok? ==> ReusesHead(Layout(), r.value, plan.view)
    {
      r := Match(plan, incoming, now, touchLimit, required, Resting(), free, nextSequence, Limits());
      if r.Ok? && r.value.admitted && (revision + 1 >= TWO_64 || nextSequence + 1 >= TWO_64) {
        r := Err(ArithmeticOverflow);
      }
    }

    /** Writes a plan made from the stored book, patch by patch; nothing can fail here. */
    method Commit(plan: Plan, admitted: bool)
      requires Valid() && plan.Valid() && plan.base == Layout() && plan.payout == payout
      requires admitted ==> revision + 1 < TWO_64 && nextSequence + 1 < TWO_64
      requires BookOk(SidesOf(plan.view), if admitted then nextSequence + 1 else nextSequence, payout)
      modifies this, slots, bids, asks
      ensures Layout() == plan.view && Valid()
      ensures revision == old(revision) + (if admitted then 1 else 0)
      ensures nextSequence == old(nextSequence) + (if admitted then 1 else 0)
    {
      ghost var listed := plan.free;
      WriteBack(plan);
      free := listed;
      if admitted {
        revision, nextSequence := revision + 1, nextSequence + 1;
      }
    }

    /** The stored layout becomes what the plan's patches mean. */
    method WriteBack(plan: Plan)
      requires plan.Consistent() && bids != asks && plan.base == Layout()
      modifies this`bidLen, this`askLen, this`activeLen, this`freeHead, slots, bids, asks
      ensures Layout() == plan.view
    {
      CommitCells(plan);
      CommitSlots(plan);
      bidLen, askLen, activeLen, freeHead := plan.bidLen, plan.askLen, plan.activeLen, plan.freeHead;
    }

    /**
     Takes the order at heap position `index` out of the book. Its slot becomes the first
     free one, and every other order rests exactly as before.
     */
    method Remove(side: Side, index: nat) returns (writes: nat)
      requires Valid() && index < Layout().Len(side) && revision + 1 < TWO_64
      modifies this, slots, bids, asks
      ensures Valid() && writes <= R.MAX_PATCHES
      ensures var slot := old(Layout()).Cells(side)[index];
              && slot < slots.Length && old(slots[..])[slot].Live? && freeHead == slot
              && Resting() == old(Resting()).With(side, old(Resting()).Of(side) - {old(slots[..])[slot].order})
              && slots[..] == old(slots[..])[slot := Free(old(freeHead))]
      ensures revision == old(revision) + 1 && nextSequence == old(nextSequence)
    {
      var was := Layout();
      RemovalReady(was, free, side, payout);
      var patches := R.PlanRemoval(was.slots, was.Cells(side), was.Len(side) - 1, index, side, payout,
                                   LiveSlots(was.slots, side), Keys(was.slots, payout));
      writes := |patches|;
      ghost var slot, cells := was.Cells(side)[index], R.Apply(was.Cells(side), patches);
      RemovingEntry(was, free, side, index, cells, nextSequence, payout);
      WriteRemoval(side, index, patches, Removing(was, side, slot, cells), [slot] + free);
    }

    /** Writes a planned removal that is known to leave the book in order. */
    method WriteRemoval(side: Side, index: nat, patches: seq<R.CellPatch>, ghost after: View, ghost afterFree: seq<nat>)
      requires bids != asks && revision + 1 < TWO_64 && 0 < activeLen && feeBps <= Fees.MAX_FEE_BPS
      requires index < Layout().Len(side) <= |Layout().Cells(side)| && Layout().Cells(side)[index] < slots.Length
      requires R.Faithful(Layout().Cells(side), patches)
      requires after == Removing(Layout(), side, Layout().Cells(side)[index], R.Apply(Layout().Cells(side), patches))
      requires WellFormed(after, afterFree, payout) && BookOk(SidesOf(after), nextSequence, payout)
      modifies this, slots, bids, asks
      ensures Valid() && Layout() == after
      ensures revision == old(revision) + 1 && nextSequence == old(nextSequence)
    {
      Unlink(side, index, patches);
      free := afterFree;
    }

    /** Writes a planned removal: the heap cells, the freed slot and the header. */
    method Unlink(side: Side, index: nat, patches: seq<R.CellPatch>)
      requires bids != asks && revision + 1 < TWO_64 && 0 < activeLen
      requires index < Layout().Len(side) <= |Layout().Cells(side)| && Layout().Cells(side)[index] < slots.Length
      requires R.Faithful(Layout().Cells(side), patches)
      modifies this`bidLen, this`askLen, this`activeLen, this`freeHead, this`revision, slots, bids, asks
      ensures Layout() == Removing(old(Layout()), side, old(Layout()).Cells(side)[index],
                                   R.Apply(old(Layout()).Cells(side), patches))
      ensures revision == old(revision) + 1
    {
      var slot: nat;
      if side.Bid? {
        slot := bids[index];
        ApplyCells(bids, patches);
        bidLen := bidLen - 1;
      } else {
        slot := asks[index];
        ApplyCells(asks, patches);
        askLen := askLen - 1;
      }
      slots[slot] := Free(freeHead);
      freeHead, activeLen, revision := slot, activeLen - 1, revision + 1;
    }

    /** Writes the patches of a removal in order. */
    method ApplyCells(heap: array<nat>, patches: seq<R.CellPatch>)
      requires forall p <- patches :: p.index < heap.Length
      modifies heap
      ensures heap[..] == R.Apply(old(heap[..]), patches)
    {
      ghost var was := heap[..];
      for k := 0 to |patches|
        invariant heap[..] == R.Apply(was, patches[..k])
      {
        assert patches[..k + 1] == patches[..k] + [patches[k]];
        R.ApplyAppend(was, patches[..k], patches[k]);
        heap[patches[k].index] := patches[k].after;
      }
      assert patches[..|patches|] == patches;
    }

    method CommitCells(plan: Plan)
      requires plan.Consistent() && bids != asks
      requires plan.base.bids == bids[..] && plan.base.asks == asks[..]
      modifies bids, asks
      ensures bids[..] == plan.view.bids && asks[..] == plan.view.asks
    {
      var patches := plan.heapPatches;
      for k := 0 to |patches|
        invariant forall i :: 0 <= i < bids.Length ==>
                    bids[i] == if CellPatched(patches[..k], Bid, i) then plan.view.bids[i] else plan.base.bids[i]
        invariant forall i :: 0 <= i < asks.Length ==>
                    asks[i] == if CellPatched(patches[..k], Ask, i) then plan.view.asks[i] else plan.base.asks[i]
      {
        PatchedNext(patches, k);
        var patch := patches[k];
        if patch.side.Bid? { bids[patch.index] := patch.after; } else { asks[patch.index] := patch.after; }
      }
      assert patches[..|patches|] == patches;
    }

    method CommitSlots(plan: Plan)
      requires plan.Consistent() && plan.base.slots == slots[..]
      modifies slots
      ensures slots[..] == plan.view.slots
    {
      var patches := plan.slotPatches;
      for k := 0 to |patches|
        invariant forall i :: 0 <= i < slots.Length ==>
                    slots[i] == if SlotPatched(patches[..k], i) then plan.view.slots[i] else plan.base.slots[i]
      {
        SlotPatchedNext(patches, k);
        slots[patches[k].index] := patches[k].after;
      }
      assert patches[..|patches|] == patches;
    }
  }

  /** The slot that was first free now holds `taker`. */
  ghost predicate HeadTaken(v: View, taker: Order, after: View) {
    v.freeHead < |after.slots| && after.slots[v.freeHead] == Live(taker)
  }

  /** A placement that rests without touching anyone takes the slot that was first free. */
  ghost predicate ReusesHead(v: View, report: Report, after: View) {
    report.rested > 0 && report.effects == [] ==> HeadTaken(v, report.taker, after)
  }

  /** The matching loop and what follows it, on a plan that has not written anything yet. */
  method Match(plan: Plan, incoming: Incoming, now: int, touchLimit: nat, required: Reserve,
               ghost sides: Sides, ghost free: seq<nat>, ghost nextSequence: U64, t: Terms)
    returns (r: Result<Report, Error>)
    requires plan.Valid() && plan.payout == t.payout && |plan.base.slots| == t.capacity && t.feeBps <= Fees.MAX_FEE_BPS
    requires plan.view == plan.base && plan.heapPatches == [] && plan.slotPatches == []
    requires plan.heapRoom == touchLimit * CELLS_PER_REMOVAL + CELLS_PER_INSERTION && plan.slotRoom == touchLimit + 1
    requires WellFormed(plan.base, free, t.payout) && SidesOf(plan.base) == sides
    requires BookOk(sides, nextSequence, t.payout)
    requires incoming.order.id == incoming.order.sequence == nextSequence && Sound(incoming.order, t.payout)
    modifies plan
    ensures var placed := SweepAndFinish(sides, incoming, now, touchLimit, required, t);
            && (placed.Err? ==> r == Err(placed.error))
            && (placed.Ok? ==>
                  r == Ok(ReportOf(placed.value)) && plan.Valid() && SidesOf(plan.view) == placed.value.sides)
    ensures r.Ok? && !r.value.admitted ==> plan.view == plan.base && plan.heapPatches == [] && plan.slotPatches == []
    ensures r.Ok? ==> ReusesHead(plan.base, r.value, plan.view)
  {
    var order := incoming.order;
    var limit := order.intent.CanonicalPrice(order.limitPrice, t.payout).value;
    var opposing := Opposite(order.intent.Side());
    var rules := RulesFor(incoming, now, touchLimit, limit, t);
    ghost var whole := Sweep(sides.Of(opposing), order, 0, rules);
    var swept := SweepBook(plan, order, opposing, rules, sides);
    if swept.Err? {
      r := Err(swept.error);
    } else {
      SweptKeepsBook(sides, incoming, now, touchLimit, nextSequence, t);
      r := Conclude(plan, incoming, swept.value, whole.value, required, ReserveOf(swept.value.taker, t.feeBps),
                    sides, free, nextSequence, t.payout, t.capacity);
    }
  }

  /** The sweep is over; `s` is what the loop reports of it. */
  method Conclude(plan: Plan, incoming: Incoming, s: Sweeped, ghost swept: Swept, required: Reserve,
                  final: Result<Reserve, Error>,
                  ghost sides: Sides, ghost free: seq<nat>, ghost nextSequence: U64, payout: U64, capacity: nat)
    returns (r: Result<Report, Error>)
    requires plan.Valid() && plan.payout == payout && |plan.base.slots| == capacity
    requires WellFormed(plan.base, free, payout) && SidesOf(plan.base) == sides
    requires s == Sweeped(swept.effects, swept.taker, swept.touched, swept.stop)
    requires swept.taker.remaining <= incoming.order.remaining && SameOrder(swept.taker, incoming.order)
    requires SidesOf(plan.view) == sides.With(Opposite(incoming.order.intent.Side()), swept.makers)
    requires forall o <- sides.With(Opposite(incoming.order.intent.Side()), swept.makers).All() :: o.id < nextSequence
    requires swept.taker.remaining > 0 ==> Sound(swept.taker, payout)
    requires swept.taker.id == swept.taker.sequence == nextSequence
    requires |plan.heapPatches| + CELLS_PER_INSERTION <= plan.heapRoom && |plan.slotPatches| < plan.slotRoom
    modifies plan
    ensures var placed := Finish(incoming, swept, sides, required, final, capacity);
            && (placed.Err? ==> r == Err(placed.error))
            && (placed.Ok? ==>
                  r == Ok(ReportOf(placed.value)) && plan.Valid() && SidesOf(plan.view) == placed.value.sides)
    ensures r.Ok? && !r.value.admitted ==> plan.view == plan.base && plan.heapPatches == [] && plan.slotPatches == []
    ensures r.Ok? && r.value.rested > 0 ==>
              HeadTaken(old(plan.view), r.value.taker, plan.view) && r.value.effects == swept.effects
  {
    if EndingOf(incoming, s.taker, s.stop).Rest? {
      r := SettleResting(plan, incoming, s, swept, required, final, sides, nextSequence, payout, capacity);
    } else {
      var report := Settle(plan, incoming, s, swept, required, final, sides, free, capacity);
      r := Ok(report);
    }
  }

  /** The remainder, if any, does not rest: the plan is dropped or stands as it is. */
  method Settle(plan: Plan, incoming: Incoming, s: Sweeped, ghost swept: Swept, required: Reserve,
                final: Result<Reserve, Error>,
                ghost sides: Sides, ghost free: seq<nat>, ghost capacity: nat)
    returns (report: Report)
    requires plan.Valid() && WellFormed(plan.base, free, plan.payout) && SidesOf(plan.base) == sides
    requires s == Sweeped(swept.effects, swept.taker, swept.touched, swept.stop)
    requires swept.taker.remaining <= incoming.order.remaining
    requires SidesOf(plan.view) == sides.With(Opposite(incoming.order.intent.Side()), swept.makers)
    requires !EndingOf(incoming, swept.taker, swept.stop).Rest?
    modifies plan
    ensures var placed := Finish(incoming, swept, sides, required, final, capacity);
            placed.Ok? && report == ReportOf(placed.value) && plan.Valid() && SidesOf(plan.view) == placed.value.sides
    ensures !report.admitted ==> plan.view == plan.base && plan.heapPatches == [] && plan.slotPatches == []
    ensures report.rested == 0
  {
    var order, taker := incoming.order, s.taker;
    match EndingOf(incoming, taker, s.stop)
    case Reject(why) =>
      plan.Reset(free);
      report := Report(why, [], false, 0, order.remaining, 0, s.touched, order, required, NoReserve());
    case Close(how) =>
      report := Report(how, s.effects, true, order.remaining - taker.remaining, taker.remaining, 0,
                       s.touched, taker, required, NoReserve());
  }

  /** The remainder rests, if the book has room. */
  method SettleResting(plan: Plan, incoming: Incoming, s: Sweeped, ghost swept: Swept, required: Reserve,
                       final: Result<Reserve, Error>,
                       ghost sides: Sides, ghost nextSequence: U64, payout: U64, capacity: nat)
    returns (r: Result<Report, Error>)
    requires plan.Valid() && plan.payout == payout && |plan.base.slots| == capacity
    requires s == Sweeped(swept.effects, swept.taker, swept.touched, swept.stop)
    requires swept.taker.remaining <= incoming.order.remaining && SameOrder(swept.taker, incoming.order)
    requires SidesOf(plan.view) == sides.With(Opposite(incoming.order.intent.Side()), swept.makers)
    requires forall o <- sides.With(Opposite(incoming.order.intent.Side()), swept.makers).All() :: o.id < nextSequence
    requires Sound(swept.taker, payout) && swept.taker.id == swept.taker.sequence == nextSequence
    requires |plan.heapPatches| + CELLS_PER_INSERTION <= plan.heapRoom && |plan.slotPatches| < plan.slotRoom
    requires EndingOf(incoming, swept.taker, swept.stop).Rest?
    modifies plan
    ensures var placed := Finish(incoming, swept, sides, required, final, capacity);
            && (placed.Err? ==> r == Err(placed.error))
            && (placed.Ok? ==>
                  r == Ok(ReportOf(placed.value)) && plan.Valid() && SidesOf(plan.view) == placed.value.sides)
    ensures r.Ok? ==> r.value.admitted && r.value.taker == swept.taker
    ensures r.Ok? ==> HeadTaken(old(plan.view), swept.taker, plan.view)
  {
    var taker, how := s.taker, EndingOf(incoming, s.taker, s.stop).how;
    ghost var after := sides.With(Opposite(incoming.order.intent.Side()), swept.makers);
    var reserve := RestTaker(plan, taker, final, after, nextSequence, payout, capacity);
    r := match reserve
         case Err(e) => Err(e)
         case Ok(kept) => Ok(Report(how, s.effects, true, incoming.order.remaining - taker.remaining, 0,
                                    taker.remaining,
                                    s.touched, taker, required, kept));
  }

  /** Rests what is left of the taker, unless the book is full. */
  method RestTaker(plan: Plan, taker: Order, final: Result<Reserve, Error>, ghost before: Sides,
                   ghost nextSequence: U64, payout: U64, capacity: nat)
    returns (r: Result<Reserve, Error>)
    requires plan.Valid() && plan.payout == payout && |plan.base.slots| == capacity
    requires SidesOf(plan.view) == before && forall o <- before.All() :: o.id < nextSequence
    requires Sound(taker, payout) && taker.id == taker.sequence == nextSequence
    requires |plan.heapPatches| + CELLS_PER_INSERTION <= plan.heapRoom && |plan.slotPatches| < plan.slotRoom
    modifies plan
    ensures var side := taker.intent.Side();
            if |before.bids| + |before.asks| >= capacity then r == Err(BookFull)
            else r == final && plan.Valid()
                 && SidesOf(plan.view) == before.With(side, before.Of(side) + {taker})
    ensures r.Ok? ==> HeadTaken(old(plan.view), taker, plan.view)
  {
    WellFormedSides(plan.view, plan.free, payout);
    if plan.activeLen >= capacity {
      return Err(BookFull);
    }
    FreshFromSides(plan.view, nextSequence);
    plan.Insert(taker);
    return final;
  }

  /** The stored cells of a non-empty side are ready for a removal plan. */
  lemma RemovalReady(v: View, free: seq<nat>, side: Side, payout: U64)
    requires WellFormed(v, free, payout) && v.Len(side) > 0
    ensures R.Stored(v.slots, v.Cells(side), v.Len(side) - 1, side, LiveSlots(v.slots, side), Keys(v.slots, payout),
                     payout)
  {
    WellFormedIsReady(v, free, side, payout);
  }

  /** What removing the entry at `index` makes of the layout. */
  lemma RemovingEntry(v: View, free: seq<nat>, side: Side, index: nat, cells: seq<nat>, nextSequence: U64, payout: U64)
    requires WellFormed(v, free, payout) && index < v.Len(side) && BookOk(SidesOf(v), nextSequence, payout)
    requires |cells| == |v.slots| == |v.Cells(side)|
    requires HeapRepaired(v.Cells(side), v.Len(side) - 1, index, cells, Keys(v.slots, payout), NONE)
    ensures LiveOn(v.slots, v.Cells(side)[index], side) && v.activeLen > 0
    ensures var k := v.Cells(side)[index];
            && WellFormed(Removing(v, side, k, cells), [k] + free, payout)
            && SidesOf(Removing(v, side, k, cells)) == SidesOf(v).With(side, SidesOf(v).Of(side) - {v.slots[k].order})
            && BookOk(SidesOf(Removing(v, side, k, cells)), nextSequence, payout)
  {
    HeapMembers(v.slots, v.Cells(side), v.Len(side), side, payout);
    RemovingKeepsBook(v, free, side, index, v.Cells(side)[index], cells, payout);
    RemovedKeepsBook(SidesOf(v), side, v.slots[v.Cells(side)[index]].order, nextSequence, payout);
  }

  lemma RemovedKeepsBook(sides: Sides, side: Side, order: Order, nextSequence: U64, payout: U64)
    requires BookOk(sides, nextSequence, payout)
    ensures BookOk(sides.With(side, sides.Of(side) - {order}), nextSequence, payout)
  {
    assert (sides.With(side, sides.Of(side) - {order})).All() <= sides.All();
  }

  lemma FreshFromSides(v: View, id: U64)
    requires forall o <- SidesOf(v).All() :: o.id < id
    ensures FreshId(v.slots, id)
  {
    forall j | 0 <= j < |v.slots| && v.slots[j].Live? ensures v.slots[j].order.id != id {
      var o := v.slots[j].order;
      assert LiveOn(v.slots, j, o.intent.Side());
      assert o in OrdersOn(v.slots, o.intent.Side());
      assert o in SidesOf(v).All();
    }
  }

  lemma EmptyBook(slots: seq<Slot>, bids: seq<nat>, asks: seq<nat>, free: seq<nat>, payout: U64)
    requires ValidPayout(payout)
    requires 0 < |slots| == |bids| == |asks| == |free| <= MAX_ORDERS
    requires forall i :: 0 <= i < |slots| ==> slots[i] == Free(if i + 1 < |slots| then i + 1 else NONE)
    requires forall i :: 0 <= i < |slots| ==> bids[i] == NONE && asks[i] == NONE && free[i] == i
    ensures var v := View(slots, bids, asks, 0, 0, 0, 0);
            && WellFormed(v, free, payout)
            && SidesOf(v) == Sides({}, {}) && BookOk(SidesOf(v), 1, payout)
  {
    AscendingChain(slots, 0, free);
    assert free[0..] == free;
    NothingLive(slots, bids, Bid, payout);
    NothingLive(slots, asks, Ask, payout);
  }

  lemma NothingLive(slots: seq<Slot>, cells: seq<nat>, side: Side, payout: U64)
    requires |cells| == |slots| && (forall i :: 0 <= i < |slots| ==> slots[i].Free?)
    requires forall i :: 0 <= i < |cells| ==> cells[i] == NONE
    ensures OrdersOn(slots, side) == {} && HeapOk(slots, cells, 0, side, payout)
  {
    assert LiveSlots(slots, side) == {};
    assert cells[..0] == [];
  }

  lemma {:induction false} AscendingChain(slots: seq<Slot>, from: nat, free: seq<nat>)
    requires |slots| == |free| && from < |slots|
    requires forall i :: 0 <= i < |slots| ==> slots[i] == Free(if i + 1 < |slots| then i + 1 else NONE) && free[i] == i
    ensures FreeChain(slots, from, free[from..])
    decreases |slots| - from
  {
    if from + 1 < |slots| {
      AscendingChain(slots, from + 1, free);
      assert free[from..][1..] == free[from + 1..];
    } else {
      assert free[from..][1..] == [];
    }
  }

  lemma PatchedNext(patches: seq<HeapPatch>, k: nat)
    requires k < |patches|
    ensures forall side, i :: CellPatched(patches[..k + 1], side, i) <==>
              CellPatched(patches[..k], side, i) || (patches[k].side == side && patches[k].index == i)
  {
    forall side, i
      ensures CellPatched(patches[..k + 1], side, i) <==>
              CellPatched(patches[..k], side, i) || (patches[k].side == side && patches[k].index == i)
    {
      if CellPatched(patches[..k], side, i) {
        var j :| 0 <= j < k && patches[..k][j].side == side && patches[..k][j].index == i;
        assert patches[..k + 1][j] == patches[..k][j];
      }
      if CellPatched(patches[..k + 1], side, i) {
        var j :| 0 <= j <= k && patches[..k + 1][j].side == side && patches[..k + 1][j].index == i;
        assert j < k ==> patches[..k][j] == patches[..k + 1][j];
      }
      assert patches[..k + 1][k] == patches[k];
    }
  }

  lemma SlotPatchedNext(patches: seq<SlotPatch>, k: nat)
    requires k < |patches|
    ensures forall i :: SlotPatched(patches[..k + 1], i) <==> SlotPatched(patches[..k], i) || patches[k].index == i
  {
    forall i
      ensures SlotPatched(patches[..k + 1], i) <==> SlotPatched(patches[..k], i) || patches[k].index == i
    {
      if SlotPatched(patches[..k], i) {
        var j :| 0 <= j < k && patches[..k][j].index == i;
        assert patches[..k + 1][j] == patches[..k][j];
      }
      if SlotPatched(patches[..k + 1], i) {
        var j :| 0 <= j <= k && patches[..k + 1][j].index == i;
        assert j < k ==> patches[..k][j] == patches[..k + 1][j];
      }
      assert patches[..k + 1][k] == patches[k];
    }
  }
}
