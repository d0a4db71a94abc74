/**
 The write-ahead planner: every change to the book goes into two short patch lists that
 are searched before the stored arrays are read. The ghost `view` is what the stored
 arrays would be after the patches are committed.
 */
module Planner {
  import opened Wrappers
  import opened Words
  import opened Orders
  import opened Matching
  import opened Placing
  import opened Heap
  import opened Slab

  datatype HeapPatch = HeapPatch(side: Side, index: nat, before: nat, after: nat)
  datatype SlotPatch = SlotPatch(index: nat, before: Slot, after: Slot)

  /** A root removal writes at most this many heap cells, an insertion at most one fewer. */
  const CELLS_PER_REMOVAL := 12
  const CELLS_PER_INSERTION := 11

  predicate SameShape(v: View, w: View) {
    |v.slots| == |v.bids| == |v.asks| == |w.slots| == |w.bids| == |w.asks|
  }

  /** Heap patches are distinct cells, record both values, and cover every cell that differs. */
  ghost predicate HeapPatchesOk(patches: seq<HeapPatch>, base: View, view: View)
    requires SameShape(base, view)
  {
    HeapPatchValues(patches, base, view) && HeapPatchesDistinct(patches) && HeapPatchesCover(patches, base, view)
  }

  ghost predicate HeapPatchValues(patches: seq<HeapPatch>, base: View, view: View)
    requires SameShape(base, view)
  {
    forall k :: 0 <= k < |patches| ==>
      && patches[k].index < |base.slots|
      && patches[k].before == base.Cells(patches[k].side)[patches[k].index]
      && patches[k].after == view.Cells(patches[k].side)[patches[k].index]
  }

  ghost predicate HeapPatchesDistinct(patches: seq<HeapPatch>) {
    forall j, k :: 0 <= j < k < |patches| ==>
      patches[j].side != patches[k].side || patches[j].index != patches[k].index
  }

  ghost predicate CellPatched(patches: seq<HeapPatch>, side: Side, i: int) {
    exists k :: 0 <= k < |patches| && patches[k].side == side && patches[k].index == i
  }

  ghost predicate HeapPatchesCover(patches: seq<HeapPatch>, base: View, view: View)
    requires SameShape(base, view)
  {
    forall side, i {:trigger CellPatched(patches, side, i)} ::
      0 <= i < |base.slots| && !CellPatched(patches, side, i) ==>
      view.Cells(side)[i] == base.Cells(side)[i]
  }

  ghost predicate SlotPatched(patches: seq<SlotPatch>, i: int) {
    exists k :: 0 <= k < |patches| && patches[k].index == i
  }

  ghost predicate SlotPatchesOk(patches: seq<SlotPatch>, base: View, view: View)
    requires SameShape(base, view)
  {
    && (forall k :: 0 <= k < |patches| ==>
          && patches[k].index < |base.slots|
          && patches[k].before == base.slots[patches[k].index]
          && patches[k].after == view.slots[patches[k].index])
    && (forall j, k :: 0 <= j < k < |patches| ==> patches[j].index != patches[k].index)
    && (forall i {:trigger SlotPatched(patches, i)} :: 0 <= i < |base.slots| && !SlotPatched(patches, i) ==>
          view.slots[i] == base.slots[i])
  }

  class Plan {
    const base: View
    const payout: U64
    const heapRoom: nat
    const slotRoom: nat

    var heapPatches: seq<HeapPatch>
    var slotPatches: seq<SlotPatch>
    var bidLen: nat
    var askLen: nat
    var activeLen: nat
    var freeHead: nat

    ghost var view: View
    ghost var free: seq<nat>

    /** The patches over the stored book mean `view`. */
    ghost predicate Consistent()
      reads this
    {
      && SameShape(base, view) && 0 < |base.slots| <= MAX_ORDERS
      && HeapPatchesOk(heapPatches, base, view)
      && SlotPatchesOk(slotPatches, base, view)
      && bidLen == view.bidLen && askLen == view.askLen
      && activeLen == view.activeLen && freeHead == view.freeHead
    }

    ghost predicate Valid()
      reads this
    {
      Consistent() && WellFormed(view, free, payout)
    }

    constructor (base: View, payout: U64, touchLimit: nat, ghost free: seq<nat>)
      requires WellFormed(base, free, payout)
      ensures Valid() && this.base == base && this.payout == payout && view == base && this.free == free
      ensures heapPatches == [] && slotPatches == []
      ensures heapRoom == touchLimit * CELLS_PER_REMOVAL + CELLS_PER_INSERTION && slotRoom == touchLimit + 1
    {
      this.base, this.payout := base, payout;
      heapRoom, slotRoom := touchLimit * CELLS_PER_REMOVAL + CELLS_PER_INSERTION, touchLimit + 1;
      heapPatches, slotPatches := [], [];
      bidLen, askLen, activeLen, freeHead := base.bidLen, base.askLen, base.activeLen, base.freeHead;
      view, this.free := base, free;
    }

    function Len(side: Side): nat
      reads this
    {
      if side.Bid? then bidLen else askLen
    }

    method SetLen(side: Side, len: nat)
      requires Consistent()
      modifies this`bidLen, this`askLen, this`view
      ensures Consistent() && view == old(view).WithLen(side, len)
    {
      if side.Bid? { bidLen := len; } else { askLen := len; }
      view := view.WithLen(side, len);
    }

    method Cell(side: Side, index: nat) returns (cell: nat)
      requires Consistent() && index < |base.slots|
      ensures cell == view.Cells(side)[index]
    {
      for k := 0 to |heapPatches|
        invariant forall j :: 0 <= j < k ==> heapPatches[j].side != side || heapPatches[j].index != index
      {
        if heapPatches[k].side == side && heapPatches[k].index == index {
          return heapPatches[k].after;
        }
      }
      assert !CellPatched(heapPatches, side, index);
      return base.Cells(side)[index];
    }

    method SlotAt(index: nat) returns (slot: Slot)
      requires Consistent() && index < |base.slots|
      ensures slot == view.slots[index]
    {
      for k := 0 to |slotPatches|
        invariant forall j :: 0 <= j < k ==> slotPatches[j].index != index
      {
        if slotPatches[k].index == index {
          return slotPatches[k].after;
        }
      }
      assert !SlotPatched(slotPatches, index);
      return base.slots[index];
    }

    /** The room the program checks for here is a precondition, so its capacity error cannot arise. */
    method SetCell(side: Side, index: nat, after: nat)
      requires Consistent() && index < |base.slots| && |heapPatches| < heapRoom
      modifies this`heapPatches, this`view
      ensures Consistent()
      ensures view == old(view).WithCells(side, old(view).Cells(side)[index := after])
      ensures |heapPatches| <= old(|heapPatches|) + 1
    {
      var k := 0;
      while k < |heapPatches| && !(heapPatches[k].side == side && heapPatches[k].index == index)
        invariant 0 <= k <= |heapPatches|
        invariant forall j :: 0 <= j < k ==> heapPatches[j].side != side || heapPatches[j].index != index
      {
        k := k + 1;
      }
      view := view.WithCells(side, view.Cells(side)[index := after]);
      if k < |heapPatches| {
        heapPatches := heapPatches[k := heapPatches[k].(after := after)];
      } else {
        heapPatches := heapPatches + [HeapPatch(side, index, base.Cells(side)[index], after)];
        assert heapPatches[k].side == side && heapPatches[k].index == index;
      }
      HeapPatchesUpdated(old(heapPatches), heapPatches, k, side, index, after, base, old(view), view);
    }

    method SetSlot(index: nat, after: Slot)
      requires Consistent() && index < |base.slots| && |slotPatches| < slotRoom
      modifies this`slotPatches, this`view
      ensures Consistent()
      ensures view == old(view).(slots := old(view).slots[index := after])
      ensures |slotPatches| <= old(|slotPatches|) + 1
    {
      var k := 0;
      while k < |slotPatches| && slotPatches[k].index != index
        invariant 0 <= k <= |slotPatches|
        invariant forall j :: 0 <= j < k ==> slotPatches[j].index != index
      {
        k := k + 1;
      }
      view := view.(slots := view.slots[index := after]);
      if k < |slotPatches| {
        slotPatches := slotPatches[k := slotPatches[k].(after := after)];
      } else {
        slotPatches := slotPatches + [SlotPatch(index, base.slots[index], after)];
      }
      SlotPatchesUpdated(old(slotPatches), slotPatches, k, index, after, base, old(view), view);
    }

    /** Price-time comparison of the orders in two slots. */
    method BetterSlot(side: Side, a: nat, b: nat, ghost keys: seq<int>) returns (better: bool)
      requires Consistent() && LiveOn(view.slots, a, side) && LiveOn(view.slots, b, side)
      requires Ranks(view.slots, payout, keys)
      ensures better == (keys[a] < keys[b])
    {
      var x := SlotAt(a);
      var y := SlotAt(b);
      better := Better(x.order, y.order, payout);
    }

    /** The better of the children of `hole`; there is at least one. */
    method BetterChild(side: Side, n: nat, hole: nat, ghost heap: seq<nat>, ghost members: set<nat>,
                       ghost keys: seq<int>)
      returns (child: nat)
      requires Consistent() && Ranks(view.slots, payout, keys)
      requires n <= |base.slots| && 2 * hole + 1 < n && |heap| == n
      requires forall i :: hole < i < n ==> heap[i] == view.Cells(side)[i]
      requires InRange(heap, keys) && AllIn(heap, members)
      requires forall k <- members :: LiveOn(view.slots, k, side)
      ensures BestChild(heap, keys, hole, child)
    {
      child := 2 * hole + 1;
      if child + 1 < n {
        var right := Cell(side, child + 1);
        var left := Cell(side, child);
        var rightBetter := BetterSlot(side, right, left, keys);
        if rightBetter { child := child + 1; }
      }
    }

    /** Moves the better child of `hole` up if it beats `x`. */
    method SinkOnce(side: Side, n: nat, x: nat, hole: nat, ghost was: View, ghost tail: seq<nat>,
                    ghost heap: seq<nat>, ghost members: set<nat>, ghost keys: seq<int>)
      returns (next: nat, sunk: bool, ghost moved: seq<nat>)
      requires Consistent() && Ranks(view.slots, payout, keys) && |heapPatches| < heapRoom
      requires forall k <- members :: LiveOn(view.slots, k, side)
      requires SiftedTo(side, was, view, n, tail, x, hole, heap) && 2 * hole + 1 < n
      requires AllIn(heap, members) && InRange(heap, keys) && OrderedAbove(heap, keys, hole)
      modifies this`heapPatches, this`view
      ensures Consistent() && SiftedTo(side, was, view, n, tail, x, next, moved)
      ensures multiset(moved) == multiset(heap) && AllIn(moved, members) && InRange(moved, keys)
      ensures OrderedAbove(moved, keys, next)
      ensures if sunk then next > 0 && Parent(next) == hole else next == hole && Ordered(moved, keys)
      ensures |heapPatches| <= old(|heapPatches|) + (if sunk then 1 else 0)
    {
      next, moved := hole, heap;
      var child := BetterChild(side, n, hole, heap, members, keys);
      var childSlot := Cell(side, child);
      assert childSlot == heap[child] && heap[hole] == x;
      sunk := BetterSlot(side, childSlot, x, keys);
      if sunk {
        DownMove(view.Cells(side), n, hole, x, heap, keys, child, members);
        SetCell(side, hole, childSlot);
        next, moved := child, Swap(heap, hole, child);
      } else {
        DownStop(view.Cells(side), n, hole, x, heap, keys);
      }
    }

    /** Moves the parent of `hole` down if `x` beats it. */
    method RaiseOnce(side: Side, n: nat, x: nat, hole: nat, ghost was: View, ghost tail: seq<nat>,
                     ghost heap: seq<nat>, ghost members: set<nat>, ghost keys: seq<int>)
      returns (raised: bool, ghost moved: seq<nat>)
      requires Consistent() && Ranks(view.slots, payout, keys) && |heapPatches| < heapRoom
      requires forall k <- members :: LiveOn(view.slots, k, side)
      requires SiftedTo(side, was, view, n, tail, x, hole, heap) && hole > 0
      requires AllIn(heap, members) && InRange(heap, keys) && OrderedBelow(heap, keys, hole)
      modifies this`heapPatches, this`view
      ensures Consistent() && SiftedTo(side, was, view, n, tail, x, if raised then Parent(hole) else hole, moved)
      ensures multiset(moved) == multiset(heap) && AllIn(moved, members) && InRange(moved, keys)
      ensures if raised then OrderedBelow(moved, keys, Parent(hole)) else Ordered(moved, keys)
      ensures |heapPatches| <= old(|heapPatches|) + (if raised then 1 else 0)
    {
      moved := heap;
      var parentSlot := Cell(side, Parent(hole));
      assert parentSlot == heap[Parent(hole)] && heap[hole] == x;
      raised := BetterSlot(side, x, parentSlot, keys);
      if raised {
        UpMove(view.Cells(side), n, hole, x, heap, keys, members);
        SetCell(side, hole, parentSlot);
        moved := Swap(heap, hole, Parent(hole));
      } else {
        UpStop(view.Cells(side), n, hole, x, heap, keys);
      }
    }

    /** Lets `x` sink from the root to its place among the first `n` cells. */
    method SiftDown(side: Side, n: nat, x: nat, ghost start: seq<nat>, ghost tail: seq<nat>,
                    ghost members: set<nat>, ghost keys: seq<int>)
      requires Consistent() && Ranks(view.slots, payout, keys)
      requires 0 < n < |base.slots| && |heapPatches| + 10 <= heapRoom
      requires forall k <- members :: LiveOn(view.slots, k, side)
      requires SiftedTo(side, view, view, n, tail, x, 0, start)
      requires AllIn(start, members) && InRange(start, keys) && OrderedAbove(start, keys, 0)
      modifies this`heapPatches, this`view
      ensures Consistent() && view == old(view).WithCells(side, view.Cells(side))
      ensures Placed(view.Cells(side), n, tail, start, keys)
      ensures |heapPatches| <= old(|heapPatches|) + 10
    {
      var hole := 0;
      ghost var was, heap := view, start;
      while 2 * hole + 1 < n
        invariant Consistent() && SiftedTo(side, was, view, n, tail, x, hole, heap)
        invariant multiset(heap) == multiset(start) && AllIn(heap, members)
        invariant InRange(heap, keys) && OrderedAbove(heap, keys, hole)
        invariant |heapPatches| <= old(|heapPatches|) + Depth(hole)
        decreases n - hole
      {
        BookDepth(hole);
        var next, sunk, moved := SinkOnce(side, n, x, hole, was, tail, heap, members, keys);
        heap := moved;
        if !sunk { break; }
        hole := next;
      }
      if 2 * hole + 1 >= n {
        DownStop(view.Cells(side), n, hole, x, heap, keys);
      }
      BookDepth(hole);
      PlaceLast(view.Cells(side), n, tail, x, hole, heap, start, keys);
      SetCell(side, hole, x);
    }

    /** Lets `x` rise from the last of the first `n` cells to its place. */
    method SiftUp(side: Side, n: nat, x: nat, ghost start: seq<nat>, ghost tail: seq<nat>,
                  ghost members: set<nat>, ghost keys: seq<int>)
      requires Consistent() && Ranks(view.slots, payout, keys)
      requires 0 < n <= |base.slots| && |heapPatches| + 11 <= heapRoom
      requires forall k <- members :: LiveOn(view.slots, k, side)
      requires SiftedTo(side, view, view, n, tail, x, n - 1, start)
      requires AllIn(start, members) && InRange(start, keys) && OrderedBelow(start, keys, n - 1)
      modifies this`heapPatches, this`view
      ensures Consistent() && view == old(view).WithCells(side, view.Cells(side))
      ensures Placed(view.Cells(side), n, tail, start, keys)
      ensures |heapPatches| <= old(|heapPatches|) + 11
    {
      var hole: nat := n - 1;
      ghost var was, heap := view, start;
      BookDepth(hole);
      while hole > 0
        invariant Consistent() && SiftedTo(side, was, view, n, tail, x, hole, heap)
        invariant multiset(heap) == multiset(start) && AllIn(heap, members)
        invariant InRange(heap, keys) && OrderedBelow(heap, keys, hole)
        invariant |heapPatches| + Depth(hole) <= old(|heapPatches|) + 10
      {
        var raised, moved := RaiseOnce(side, n, x, hole, was, tail, heap, members, keys);
        heap := moved;
        if !raised { break; }
        hole := Parent(hole);
      }
      if hole == 0 {
        UpStop(view.Cells(side), n, hole, x, heap, keys);
      }
      PlaceLast(view.Cells(side), n, tail, x, hole, heap, start, keys);
      SetCell(side, hole, x);
    }

    /** Takes the root out of the heap cells of a side. */
    method PopCells(side: Side, n: nat, ghost before: seq<nat>, ghost members: set<nat>, ghost keys: seq<int>)
      returns (removed: nat)
      requires n + 1 == view.Len(side) && before == view.Cells(side)
      requires Consistent() && HeapReady(view, side, members, keys, payout)
      requires |heapPatches| + CELLS_PER_REMOVAL <= heapRoom
      modifies this`heapPatches, this`view, this`bidLen, this`askLen
      ensures Consistent()
      ensures removed == before[0]
      ensures view == old(view).WithLen(side, n).WithCells(side, view.Cells(side))
      ensures HeapRepaired(before, n, 0, view.Cells(side), keys, NONE)
      ensures |heapPatches| <= old(|heapPatches|) + CELLS_PER_REMOVAL
    {
      ghost var entries := Entries(view, side);
      removed := Cell(side, 0);
      var last := Cell(side, n);
      assert last == entries[n];
      SetLen(side, n);
      SetCell(side, n, NONE);
      if n > 0 {
        HoleAtRoot(before, n, members, keys, NONE);
        SiftDown(side, n, last, WithoutEntry(entries, 0), view.Cells(side)[n..], members, keys);
      }
      RepairedHeap(before, n, 0, view.Cells(side), keys, NONE);
    }

    /** Puts a slot at the front of the free list. */
    method Release(slot: nat)
      requires Consistent() && slot < |base.slots| && activeLen > 0 && |slotPatches| < slotRoom
      modifies this`slotPatches, this`view, this`freeHead, this`activeLen, this`free
      ensures Consistent()
      ensures view == old(view).(slots := old(view).slots[slot := Free(old(freeHead))],
                                 freeHead := slot, activeLen := old(activeLen) - 1)
      ensures free == [slot] + old(free)
      ensures |slotPatches| <= old(|slotPatches|) + 1
    {
      SetSlot(slot, Free(freeHead));
      freeHead, activeLen := slot, activeLen - 1;
      view, free := view.(freeHead := slot, activeLen := view.activeLen - 1), [slot] + free;
    }

    /** Takes the root of a side out of its heap and frees its slot. */
    method RemoveRoot(side: Side, n: nat, ghost before: seq<nat>, ghost members: set<nat>, ghost keys: seq<int>)
      requires n + 1 == view.Len(side) && before == view.Cells(side) && activeLen > 0
      requires Consistent() && HeapReady(view, side, members, keys, payout) && before[0] < |base.slots|
      requires |heapPatches| + CELLS_PER_REMOVAL <= heapRoom && |slotPatches| < slotRoom
      modifies this
      ensures Consistent()
      ensures view == Removing(old(view), side, before[0], view.Cells(side))
      ensures free == [before[0]] + old(free)
      ensures HeapRepaired(before, n, 0, view.Cells(side), keys, NONE)
      ensures |heapPatches| <= old(|heapPatches|) + CELLS_PER_REMOVAL
      ensures |slotPatches| <= old(|slotPatches|) + 1
    {
      var removed := PopCells(side, n, before, members, keys);
      Release(removed);
    }

    /** Removes the best order of a side; its slot becomes the first free one. */
    method Pop(side: Side)
      requires Valid() && Len(side) > 0
      requires |heapPatches| + CELLS_PER_REMOVAL <= heapRoom && |slotPatches| < slotRoom
      modifies this
      ensures Valid() && Popped(old(view), old(free), side, view, free, payout)
      ensures |heapPatches| <= old(|heapPatches|) + CELLS_PER_REMOVAL
      ensures |slotPatches| <= old(|slotPatches|) + 1
    {
      ghost var v, was := view, free;
      PopReady(v, was, side, payout);
      RemoveRoot(side, Len(side) - 1, v.Cells(side), LiveSlots(v.slots, side), Keys(v.slots, payout));
      PoppedOutcome(v, was, side, view.Cells(side), payout);
    }

    /** Takes the first free slot for `order`. */
    method Occupy(order: Order) returns (slot: nat)
      requires Consistent() && freeHead < |base.slots| && view.slots[freeHead].Free? && |slotPatches| < slotRoom
      modifies this`slotPatches, this`view, this`freeHead, this`activeLen
      ensures Consistent()
      ensures slot == old(freeHead)
      ensures view == old(view).(slots := old(view).slots[slot := Live(order)],
                                 freeHead := old(view).slots[slot].next, activeLen := old(activeLen) + 1)
      ensures |slotPatches| <= old(|slotPatches|) + 1
    {
      slot := freeHead;
      var free := SlotAt(slot);
      SetSlot(slot, Live(order));
      freeHead, activeLen := free.next, activeLen + 1;
      view := view.(freeHead := free.next, activeLen := view.activeLen + 1);
    }

    /** Adds `x` to the heap cells of a side. */
    method PushCells(side: Side, n: nat, x: nat, ghost before: seq<nat>, ghost members: set<nat>, ghost keys: seq<int>)
      requires n == view.Len(side) + 1 && before == view.Cells(side)
      requires Consistent() && n <= |base.slots| && |heapPatches| + CELLS_PER_INSERTION <= heapRoom
      requires GrowReady(before, n, x, view.slots, side, members, keys, payout)
      modifies this`heapPatches, this`view, this`bidLen, this`askLen
      ensures Consistent()
      ensures view == old(view).WithCells(side, view.Cells(side)).WithLen(side, n)
      ensures HeapGrown(before, n, x, view.Cells(side), keys, NONE)
      ensures |heapPatches| <= old(|heapPatches|) + CELLS_PER_INSERTION
    {
      HoleAfterAppend(before, n, x);
      assert (before[..n - 1] + [x])[n - 1] == x;
      SiftUp(side, n, x, before[..n - 1] + [x], before[n..], members, keys);
      SetLen(side, n);
      GrownHeap(before, n, x, view.Cells(side), keys, NONE);
    }

    /** Takes the first free slot for `order` and lets it rise in the heap of its side. */
    method AddToHeap(order: Order, side: Side, n: nat, ghost before: seq<nat>, ghost after: seq<Slot>,
                     ghost members: set<nat>, ghost keys: seq<int>)
      requires Consistent() && freeHead < |base.slots| && view.slots[freeHead].Free?
      requires side == order.intent.Side() && n == view.Len(side) + 1 && before == view.Cells(side)
      requires after == view.slots[freeHead := Live(order)]
      requires GrowReady(before, n, freeHead, after, side, members, keys, payout)
      requires |heapPatches| + CELLS_PER_INSERTION <= heapRoom && |slotPatches| < slotRoom
      modifies this
      ensures Consistent() && free == old(free)
      ensures view == Inserting(old(view), order, view.Cells(side))
      ensures HeapGrown(before, n, old(freeHead), view.Cells(side), keys, NONE)
    {
      var slot := Occupy(order);
      PushCells(side, n, slot, before, members, keys);
    }

    /** Rests `order`; the caller has checked that a slot is free. */
    method Insert(order: Order)
      requires Valid() && activeLen < |base.slots|
      requires Sound(order, payout) && order.id == order.sequence && FreshId(view.slots, order.id)
      requires |heapPatches| + CELLS_PER_INSERTION <= heapRoom && |slotPatches| < slotRoom
      modifies this
      ensures Valid() && Inserted(old(view), order, view)
    {
      ghost var v, was := view, free;
      var side := order.intent.Side();
      ghost var after := v.slots[v.freeHead := Live(order)];
      FreeSlotExists(v, was, payout);
      InsertionStart(v, was, order, payout);
      AddToHeap(order, side, Len(side) + 1, v.Cells(side), after, LiveSlots(after, side), Keys(after, payout));
      InsertedOutcome(v, was, order, view.Cells(side), payout);
      free := was[1..];
    }

    /** Drops every patch: the plan is again the stored book. */
    method Reset(ghost listed: seq<nat>)
      requires WellFormed(base, listed, payout)
      modifies this
      ensures Valid() && view == base && free == listed
      ensures heapPatches == [] && slotPatches == []
    {
      heapPatches, slotPatches := [], [];
      bidLen, askLen, activeLen, freeHead := base.bidLen, base.askLen, base.activeLen, base.freeHead;
      view, free := base, listed;
    }

    /** Records a partial fill of the order in `slot`. */
    method Shrink(side: Side, slot: nat, order: Order)
      requires Valid() && LiveOn(view.slots, slot, side) && |slotPatches| < slotRoom
      requires SameOrder(order, view.slots[slot].order) && Sound(order, payout)
      modifies this`slotPatches, this`view
      ensures Valid()
      ensures SidesOf(view) == old(SidesOf(view)).With(side,
                old(SidesOf(view)).Of(side) - {old(view).slots[slot].order} + {order})
      ensures |slotPatches| <= old(|slotPatches|) + 1
    {
      ShrinkingKeepsBook(view, free, side, slot, order, payout);
      SetSlot(slot, Live(order));
    }
  }

  lemma PopReady(v: View, free: seq<nat>, side: Side, payout: U64)
    requires WellFormed(v, free, payout) && v.Len(side) > 0
    ensures HeapReady(v, side, LiveSlots(v.slots, side), Keys(v.slots, payout), payout)
    ensures v.activeLen > 0 && v.Cells(side)[0] < |v.slots|
  {
    WellFormedIsReady(v, free, side, payout);
    RootHoldsBest(v, free, side, payout);
  }

  lemma PoppedOutcome(v: View, free: seq<nat>, side: Side, cells: seq<nat>, payout: U64)
    requires WellFormed(v, free, payout) && 0 < v.Len(side) <= |v.Cells(side)| && v.Cells(side)[0] < |v.slots|
    requires v.activeLen > 0
    requires HeapRepaired(v.Cells(side), v.Len(side) - 1, 0, cells, Keys(v.slots, payout), NONE)
    ensures WellFormed(Removing(v, side, v.Cells(side)[0], cells), [v.Cells(side)[0]] + free, payout)
    ensures Popped(v, free, side, Removing(v, side, v.Cells(side)[0], cells), [v.Cells(side)[0]] + free, payout)
  {
    PoppingKeepsBook(v, free, side, cells, payout);
  }

  lemma FreeSlotExists(v: View, free: seq<nat>, payout: U64)
    requires WellFormed(v, free, payout) && v.activeLen < |v.slots|
    ensures free != [] && v.freeHead < |v.slots| && v.slots[v.freeHead].Free?
  {
  }

  /** The outcome of resting an order: it is in the first free slot and joins its side. */
  ghost predicate Inserted(v: View, order: Order, after: View) {
    && SidesOf(after) == SidesOf(v).With(order.intent.Side(), SidesOf(v).Of(order.intent.Side()) + {order})
    && v.freeHead < |after.slots| && after.slots[v.freeHead] == Live(order)
  }

  lemma InsertedOutcome(v: View, free: seq<nat>, order: Order, cells: seq<nat>, payout: U64)
    requires WellFormed(v, free, payout) && free != [] && v.freeHead < |v.slots| && v.slots[v.freeHead].Free?
    requires Sound(order, payout) && order.id == order.sequence && FreshId(v.slots, order.id)
    requires v.Len(order.intent.Side()) < |v.Cells(order.intent.Side())|
    requires HeapGrown(v.Cells(order.intent.Side()), v.Len(order.intent.Side()) + 1, v.freeHead, cells,
                       Keys(v.slots[v.freeHead := Live(order)], payout), NONE)
    ensures WellFormed(Inserting(v, order, cells), free[1..], payout)
    ensures Inserted(v, order, Inserting(v, order, cells))
  {
    InsertingKeepsBook(v, free, order, cells, payout);
  }

  /** The outcome of removing the best order of a side: that order is gone and its slot is first in line. */
  ghost predicate Popped(v: View, free: seq<nat>, side: Side, after: View, listed: seq<nat>, payout: U64) {
    && 0 < v.Len(side) <= |v.Cells(side)|
    && var root := v.Cells(side)[0];
    && LiveOn(v.slots, root, side)
    && SidesOf(after) == SidesOf(v).With(side, SidesOf(v).Of(side) - {v.slots[root].order})
    && after.freeHead == root && listed == [root] + free
    && after.Len(Opposite(side)) == v.Len(Opposite(side))
    && after.Len(side) == v.Len(side) - 1
  }

  /** Only the first `n` cells of one side have changed, and with `x` in the hole they are `heap`. */
  ghost predicate SiftedTo(side: Side, was: View, view: View, n: nat, tail: seq<nat>, x: nat, hole: nat,
                           heap: seq<nat>) {
    && view == was.WithCells(side, view.Cells(side))
    && |view.Cells(side)| == |was.Cells(side)|
    && n <= |view.Cells(side)| && view.Cells(side)[n..] == tail
    && Holed(view.Cells(side), n, hole, x, heap)
  }

  /** Rewriting or appending one slot patch keeps the patch list exact. */
  lemma SlotPatchesUpdated(before: seq<SlotPatch>, after: seq<SlotPatch>, k: nat, index: nat, value: Slot, base: View,
                           was: View, view: View)
    requires SameShape(base, was) && SlotPatchesOk(before, base, was) && index < |base.slots|
    requires view == was.(slots := was.slots[index := value])
    requires k <= |before| && forall j :: 0 <= j < k ==> before[j].index != index
    requires k < |before| ==> before[k].index == index
    requires after == if k < |before| then before[k := before[k].(after := value)]
                      else before + [SlotPatch(index, base.slots[index], value)]
    ensures SlotPatchesOk(after, base, view)
  {
    assert after[k].index == index;
    forall i | 0 <= i < |base.slots| && !SlotPatched(after, i) ensures view.slots[i] == base.slots[i] {
      SlotStaysUnpatched(before, after, i);
    }
  }

  lemma SlotStaysUnpatched(before: seq<SlotPatch>, after: seq<SlotPatch>, i: int)
    requires |before| <= |after| && forall j :: 0 <= j < |before| ==> after[j].index == before[j].index
    requires !SlotPatched(after, i)
    ensures !SlotPatched(before, i)
  {
    forall j | 0 <= j < |before| ensures before[j].index != i {
      assert after[j].index != i;
    }
  }

  /** Rewriting or appending one patch keeps the patch list exact. */
  lemma HeapPatchesUpdated(before: seq<HeapPatch>, after: seq<HeapPatch>, k: nat, side: Side, index: nat, value: nat,
                           base: View, was: View, view: View)
    requires SameShape(base, was) && SameShape(base, view) && index < |base.slots|
    requires HeapPatchesOk(before, base, was)
    requires view == was.WithCells(side, was.Cells(side)[index := value])
    requires k <= |before| && forall j :: 0 <= j < k ==> before[j].side != side || before[j].index != index
    requires k < |before| ==> before[k].side == side && before[k].index == index
    requires after == if k < |before| then before[k := before[k].(after := value)]
                      else before + [HeapPatch(side, index, base.Cells(side)[index], value)]
    ensures HeapPatchesOk(after, base, view)
  {
    assert HeapPatchesDistinct(after);
    PatchValuesUpdated(before, after, k, side, index, value, base, was, view);
    PatchCoverUpdated(before, after, k, side, index, base, was, view);
  }

  lemma PatchValuesUpdated(before: seq<HeapPatch>, after: seq<HeapPatch>, k: nat, side: Side, index: nat, value: nat,
                           base: View, was: View, view: View)
    requires SameShape(base, was) && SameShape(base, view) && index < |base.slots|
    requires HeapPatchValues(before, base, was) && HeapPatchesDistinct(after)
    requires view == was.WithCells(side, was.Cells(side)[index := value])
    requires k < |after| && after[k] == HeapPatch(side, index, base.Cells(side)[index], value)
    requires |before| <= |after| <= |before| + 1
    requires forall j :: 0 <= j < |after| && j != k ==> j < |before| && after[j] == before[j]
    ensures HeapPatchValues(after, base, view)
  {
    forall j | 0 <= j < |after| && j != k
      ensures after[j].index < |base.slots|
      ensures after[j].before == base.Cells(after[j].side)[after[j].index]
      ensures after[j].after == view.Cells(after[j].side)[after[j].index]
    {
      assert after[j] == before[j];
      assert after[j].side != side || after[j].index != index;
    }
  }

  lemma PatchCoverUpdated(before: seq<HeapPatch>, after: seq<HeapPatch>, k: nat, side: Side, index: nat,
                          base: View, was: View, view: View)
    requires SameShape(base, was) && SameShape(base, view) && index < |base.slots|
    requires HeapPatchesCover(before, base, was)
    requires view == was.WithCells(side, view.Cells(side)) && |was.Cells(side)| == |view.Cells(side)|
    requires forall i :: 0 <= i < |base.slots| && i != index ==> view.Cells(side)[i] == was.Cells(side)[i]
    requires k < |after| && after[k].side == side && after[k].index == index
    requires |before| <= |after|
    requires forall j ::
               0 <= j < |before| ==> after[j].side == before[j].side && after[j].index == before[j].index
    ensures HeapPatchesCover(after, base, view)
  {
    forall s, i | CellPatched(before, s, i) ensures CellPatched(after, s, i) {
      var j :| 0 <= j < |before| && before[j].side == s && before[j].index == i;
      assert after[j].side == s && after[j].index == i;
    }
    forall s, i | 0 <= i < |base.slots| && !CellPatched(after, s, i)
      ensures view.Cells(s)[i] == base.Cells(s)[i]
    {
      assert !CellPatched(before, s, i);
      assert s != side || i != index;
      assert view.Cells(s)[i] == was.Cells(s)[i];
    }
  }
}
