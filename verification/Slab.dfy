/**
 The persistent layout of a book: a slab of slots threaded by a free list, and two arrays
 of slot numbers holding the bid and ask heaps. A `View` is its value at one moment.
 */
module Slab {
  import opened Wrappers
  import opened Words
  import opened Orders
  import opened Matching
  import opened Placing
  import opened Heap

  /** End of the free list and content of unused heap cells. */
  const NONE: nat := 0xFFFF

  datatype Slot = Free(next: nat) | Live(order: Order)

  datatype View = View(
    slots: seq<Slot>, bids: seq<nat>, asks: seq<nat>,
    bidLen: nat, askLen: nat, activeLen: nat, freeHead: nat)
  {
    function Cells(side: Side): seq<nat> {
      if side.Bid? then bids else asks
    }

    function Len(side: Side): nat {
      if side.Bid? then bidLen else askLen
    }

    function WithCells(side: Side, cells: seq<nat>): View {
      if side.Bid? then this.(bids := cells) else this.(asks := cells)
    }

    function WithLen(side: Side, len: nat): View {
      if side.Bid? then this.(bidLen := len) else this.(askLen := len)
    }
  }

  // ---------- Free list ----------

  /** Following `next` from `head` visits exactly `free`, in order, and then stops. */
  ghost predicate FreeChain(slots: seq<Slot>, head: nat, free: seq<nat>)
    decreases |free|
  {
    if free == [] then head == NONE else
    && head == free[0] < |slots|
    && slots[head].Free?
    && FreeChain(slots, slots[head].next, free[1..])
  }

  lemma {:induction false} ChainIgnores(slots: seq<Slot>, head: nat, free: seq<nat>, k: nat, s: Slot)
    requires FreeChain(slots, head, free) && k < |slots| && k !in free
    ensures FreeChain(slots[k := s], head, free)
    decreases |free|
  {
    if free != [] {
      ChainIgnores(slots, slots[head].next, free[1..], k, s);
    }
  }

  // ---------- Live slots of a side ----------

  predicate LiveOn(slots: seq<Slot>, k: nat, side: Side) {
    k < |slots| && slots[k].Live? && slots[k].order.intent.Side() == side
  }

  ghost function LiveSlots(slots: seq<Slot>, side: Side): set<nat> {
    set k | 0 <= k < |slots| && LiveOn(slots, k, side)
  }

  ghost function OrdersOn(slots: seq<Slot>, side: Side): set<Order> {
    set k | 0 <= k < |slots| && LiveOn(slots, k, side) :: slots[k].order
  }

  ghost function SidesOf(v: View): Sides {
    Sides(OrdersOn(v.slots, Bid), OrdersOn(v.slots, Ask))
  }

  ghost function KeyOf(s: Slot, payout: U64): int {
    if s.Live? then Key(s.order, payout) else 0
  }

  ghost function Keys(slots: seq<Slot>, payout: U64): (keys: seq<int>)
    ensures |keys| == |slots|
  {
    seq(|slots|, i requires 0 <= i < |slots| => KeyOf(slots[i], payout))
  }

  /** `keys` orders the live slots of each side exactly as the program's comparison does. */
  ghost predicate Ranks(slots: seq<Slot>, payout: U64, keys: seq<int>) {
    && |keys| == |slots|
    && forall k, l {:trigger Better(slots[k].order, slots[l].order, payout)} ::
         0 <= k < |slots| && 0 <= l < |slots| && slots[k].Live? && slots[l].Live?
         && slots[k].order.intent.Side() == slots[l].order.intent.Side() ==>
           (Better(slots[k].order, slots[l].order, payout) <==> keys[k] < keys[l])
  }

  lemma KeysRank(slots: seq<Slot>, payout: U64)
    ensures Ranks(slots, payout, Keys(slots, payout))
  {
    var keys := Keys(slots, payout);
    forall k, l | 0 <= k < |slots| && 0 <= l < |slots| && slots[k].Live? && slots[l].Live?
                  && slots[k].order.intent.Side() == slots[l].order.intent.Side()
      ensures Better(slots[k].order, slots[l].order, payout) <==> keys[k] < keys[l]
    {
      BetterIsKey(slots[k].order, slots[l].order, payout);
    }
  }

  /** Live orders are sound and carry distinct identifiers. */
  ghost predicate SlotsOk(slots: seq<Slot>, payout: U64) {
    && ValidPayout(payout)
    && (forall k :: 0 <= k < |slots| && slots[k].Live? ==>
          Sound(slots[k].order, payout) && slots[k].order.id == slots[k].order.sequence)
    && (forall k, l :: 0 <= k < l < |slots| && slots[k].Live? && slots[l].Live? ==>
          slots[k].order.id != slots[l].order.id)
  }

  /** The heap of a side holds exactly its live slots, once each, locally ordered. */
  ghost predicate HeapOk(slots: seq<Slot>, cells: seq<nat>, len: nat, side: Side, payout: U64) {
    && len <= |cells| == |slots|
    && multiset(cells[..len]) == multiset(LiveSlots(slots, side))
    && InRange(cells[..len], Keys(slots, payout))
    && Ordered(cells[..len], Keys(slots, payout))
    && (forall i :: len <= i < |cells| ==> cells[i] == NONE)
  }

  ghost predicate FreeOk(slots: seq<Slot>, head: nat, free: seq<nat>, activeLen: nat) {
    && FreeChain(slots, head, free)
    && (forall k :: 0 <= k < |slots| ==> (k in free <==> slots[k].Free?))
    && (forall i, j :: 0 <= i < j < |free| ==> free[i] != free[j])
    && (forall i :: 0 <= i < |free| ==> free[i] < |slots|)
    && |free| + activeLen == |slots|
  }

  ghost predicate WellFormed(v: View, free: seq<nat>, payout: U64) {
    && 0 < |v.slots| <= MAX_ORDERS
    && v.bidLen + v.askLen == v.activeLen
    && SlotsOk(v.slots, payout)
    && FreeOk(v.slots, v.freeHead, free, v.activeLen)
    && HeapOk(v.slots, v.bids, v.bidLen, Bid, payout)
    && HeapOk(v.slots, v.asks, v.askLen, Ask, payout)
  }

  // ---------- What the heap means ----------

  lemma RepeatsCount(s: seq<nat>, i: nat, j: nat)
    requires i < j < |s|
    ensures s[i] == s[j] ==> multiset(s)[s[i]] >= 2
  {
    assert s == s[..i] + [s[i]] + s[i + 1..j] + [s[j]] + s[j + 1..];
  }

  lemma HeapMembers(slots: seq<Slot>, cells: seq<nat>, len: nat, side: Side, payout: U64)
    requires HeapOk(slots, cells, len, side, payout)
    ensures len == |LiveSlots(slots, side)|
    ensures forall i :: 0 <= i < len ==> LiveOn(slots, cells[i], side)
    ensures forall k :: LiveOn(slots, k, side) ==> exists i :: 0 <= i < len && cells[i] == k
    ensures forall i, j :: 0 <= i < j < len ==> cells[i] != cells[j]
  {
    var live := LiveSlots(slots, side);
    assert |multiset(cells[..len])| == len;
    forall i | 0 <= i < len ensures LiveOn(slots, cells[i], side) {
      assert cells[..len][i] in multiset(cells[..len]);
      assert cells[i] in live;
    }
    forall k | LiveOn(slots, k, side) ensures exists i :: 0 <= i < len && cells[i] == k {
      assert k in live;
      assert k in multiset(cells[..len]);
      assert k in cells[..len];
    }
    forall i, j | 0 <= i < j < len ensures cells[i] != cells[j] {
      RepeatsCount(cells[..len], i, j);
      assert cells[..len][i] == cells[i] && cells[..len][j] == cells[j];
    }
  }

  /**
   Soundness of the local check: if every heap entry merely respects its parent, the root
   is the best order of the whole side by price, then sequence.
   */
  lemma RootHoldsBest(v: View, free: seq<nat>, side: Side, payout: U64)
    requires WellFormed(v, free, payout) && v.Len(side) > 0
    ensures LiveOn(v.slots, v.Cells(side)[0], side)
    ensures IsBest(v.slots[v.Cells(side)[0]].order, SidesOf(v).Of(side), payout)
  {
    var cells := v.Cells(side);
    var len := v.Len(side);
    HeapMembers(v.slots, cells, len, side, payout);
    var root := v.slots[cells[0]].order;
    var keys := Keys(v.slots, payout);
    forall o <- OrdersOn(v.slots, side) ensures Key(root, payout) <= Key(o, payout) {
      var k :| 0 <= k < |v.slots| && LiveOn(v.slots, k, side) && v.slots[k].order == o;
      var i :| 0 <= i < len && cells[i] == k;
      RootIsBest(cells[..len], keys, i);
      assert keys[k] == Key(o, payout) && keys[cells[0]] == Key(root, payout);
    }
  }

  lemma WellFormedSides(v: View, free: seq<nat>, payout: U64)
    requires WellFormed(v, free, payout)
    ensures SidesOk(SidesOf(v), payout)
    ensures |SidesOf(v).bids| == v.bidLen && |SidesOf(v).asks| == v.askLen
  {
    HeapMembers(v.slots, v.bids, v.bidLen, Bid, payout);
    HeapMembers(v.slots, v.asks, v.askLen, Ask, payout);
    OrdersCount(v.slots, LiveSlots(v.slots, Bid), Bid, payout);
    OrdersCount(v.slots, LiveSlots(v.slots, Ask), Ask, payout);
    forall side: Side
      ensures (set k | k in LiveSlots(v.slots, side) && LiveOn(v.slots, k, side) :: v.slots[k].order) ==
              OrdersOn(v.slots, side)
    {
    }
  }

  lemma {:induction false} OrdersCount(slots: seq<Slot>, some: set<nat>, side: Side, payout: U64)
    requires SlotsOk(slots, payout) && forall k <- some :: LiveOn(slots, k, side)
    ensures |set k | k in some && LiveOn(slots, k, side) :: slots[k].order| == |some|
    decreases |some|
  {
    if some != {} {
      var k :| k in some;
      var rest := some - {k};
      OrdersCount(slots, rest, side, payout);
      var held := set j | j in rest && LiveOn(slots, j, side) :: slots[j].order;
      assert (set j | j in some && LiveOn(slots, j, side) :: slots[j].order) == held + {slots[k].order};
      assert slots[k].order !in held;
    }
  }

  // ---------- Slot updates ----------

  lemma FreeingRemovesOrder(slots: seq<Slot>, k: nat, next: nat, side: Side, payout: U64)
    requires SlotsOk(slots, payout) && LiveOn(slots, k, side)
    ensures SlotsOk(slots[k := Free(next)], payout)
    ensures LiveSlots(slots[k := Free(next)], side) == LiveSlots(slots, side) - {k}
    ensures OrdersOn(slots[k := Free(next)], side) == OrdersOn(slots, side) - {slots[k].order}
    ensures LiveSlots(slots[k := Free(next)], Opposite(side)) == LiveSlots(slots, Opposite(side))
    ensures OrdersOn(slots[k := Free(next)], Opposite(side)) == OrdersOn(slots, Opposite(side))
  {
    var after := slots[k := Free(next)];
    forall o ensures o in OrdersOn(after, side) <==> o in OrdersOn(slots, side) - {slots[k].order} {
      if o in OrdersOn(after, side) {
        var j :| 0 <= j < |after| && LiveOn(after, j, side) && after[j].order == o;
        assert LiveOn(slots, j, side) && slots[j].order == o;
      }
      if o in OrdersOn(slots, side) - {slots[k].order} {
        var j :| 0 <= j < |slots| && LiveOn(slots, j, side) && slots[j].order == o;
        assert LiveOn(after, j, side) && after[j].order == o;
      }
    }
    OtherSideSame(slots, after, k, Opposite(side));
  }

  /** A change to one slot that concerns only the other side is invisible on this side. */
  lemma OtherSideSame(slots: seq<Slot>, after: seq<Slot>, k: nat, side: Side)
    requires |after| == |slots| && k < |slots| && after == slots[k := after[k]]
    requires !LiveOn(slots, k, side) && !LiveOn(after, k, side)
    ensures LiveSlots(after, side) == LiveSlots(slots, side)
    ensures OrdersOn(after, side) == OrdersOn(slots, side)
  {
    assert forall j :: LiveOn(after, j, side) <==> LiveOn(slots, j, side);
    forall o ensures o in OrdersOn(after, side) <==> o in OrdersOn(slots, side) {
      if o in OrdersOn(after, side) {
        var j :| 0 <= j < |after| && LiveOn(after, j, side) && after[j].order == o;
        assert LiveOn(slots, j, side) && slots[j].order == o;
      }
      if o in OrdersOn(slots, side) {
        var j :| 0 <= j < |slots| && LiveOn(slots, j, side) && slots[j].order == o;
        assert LiveOn(after, j, side) && after[j].order == o;
      }
    }
  }

  lemma OccupyingAddsOrder(slots: seq<Slot>, k: nat, order: Order, payout: U64)
    requires SlotsOk(slots, payout) && k < |slots| && slots[k].Free?
    requires Sound(order, payout) && order.id == order.sequence
    requires forall j :: 0 <= j < |slots| && slots[j].Live? ==> slots[j].order.id != order.id
    ensures SlotsOk(slots[k := Live(order)], payout)
    ensures LiveSlots(slots[k := Live(order)], order.intent.Side()) == LiveSlots(slots, order.intent.Side()) + {k}
    ensures OrdersOn(slots[k := Live(order)], order.intent.Side()) == OrdersOn(slots, order.intent.Side()) + {order}
    ensures LiveSlots(slots[k := Live(order)], Opposite(order.intent.Side())) ==
            LiveSlots(slots, Opposite(order.intent.Side()))
    ensures OrdersOn(slots[k := Live(order)], Opposite(order.intent.Side())) ==
            OrdersOn(slots, Opposite(order.intent.Side()))
  {
    var after := slots[k := Live(order)];
    var side := order.intent.Side();
    forall o ensures o in OrdersOn(after, side) <==> o in OrdersOn(slots, side) + {order} {
      if o in OrdersOn(after, side) {
        var j :| 0 <= j < |after| && LiveOn(after, j, side) && after[j].order == o;
        assert j == k || (LiveOn(slots, j, side) && slots[j].order == o);
      }
      if o in OrdersOn(slots, side) {
        var j :| 0 <= j < |slots| && LiveOn(slots, j, side) && slots[j].order == o;
        assert LiveOn(after, j, side) && after[j].order == o;
      }
      assert LiveOn(after, k, side) && after[k].order == order;
    }
    OtherSideSame(slots, after, k, Opposite(side));
  }

  /** Shrinking an order in place changes nothing the heaps depend on. */
  lemma ShrinkingReplacesOrder(slots: seq<Slot>, k: nat, order: Order, side: Side, payout: U64)
    requires SlotsOk(slots, payout) && LiveOn(slots, k, side)
    requires SameOrder(order, slots[k].order) && Sound(order, payout)
    ensures SlotsOk(slots[k := Live(order)], payout)
    ensures Keys(slots[k := Live(order)], payout) == Keys(slots, payout)
    ensures LiveSlots(slots[k := Live(order)], side) == LiveSlots(slots, side)
    ensures OrdersOn(slots[k := Live(order)], side) == OrdersOn(slots, side) - {slots[k].order} + {order}
    ensures LiveSlots(slots[k := Live(order)], Opposite(side)) == LiveSlots(slots, Opposite(side))
    ensures OrdersOn(slots[k := Live(order)], Opposite(side)) == OrdersOn(slots, Opposite(side))
  {
    var after := slots[k := Live(order)];
    assert forall j :: LiveOn(after, j, side) <==> LiveOn(slots, j, side);
    forall o ensures o in OrdersOn(after, side) <==> o in OrdersOn(slots, side) - {slots[k].order} + {order} {
      if o in OrdersOn(after, side) {
        var j :| 0 <= j < |after| && LiveOn(after, j, side) && after[j].order == o;
        assert j == k || (LiveOn(slots, j, side) && slots[j].order == o);
      }
      if o in OrdersOn(slots, side) - {slots[k].order} {
        var j :| 0 <= j < |slots| && LiveOn(slots, j, side) && slots[j].order == o;
        assert LiveOn(after, j, side) && after[j].order == o;
      }
      assert LiveOn(after, k, side) && after[k].order == order;
    }
    OtherSideSame(slots, after, k, Opposite(side));
  }

  // ---------- Whole-book updates ----------

  /** A heap does not notice changes to slots it does not hold. */
  lemma HeapIgnores(slots: seq<Slot>, after: seq<Slot>, cells: seq<nat>, len: nat, side: Side, payout: U64)
    requires HeapOk(slots, cells, len, side, payout)
    requires |after| == |slots| && LiveSlots(after, side) == LiveSlots(slots, side)
    requires forall i ::
               0 <= i < |cells[..len]| ==>
                 KeyOf(after[cells[..len][i]], payout) == KeyOf(slots[cells[..len][i]], payout)
    ensures HeapOk(after, cells, len, side, payout)
  {
    assert |cells[..len]| == len;
    KeysAgree(cells[..len], Keys(slots, payout), Keys(after, payout));
  }

  lemma KeysAgree(heap: seq<nat>, key: seq<int>, other: seq<int>)
    requires InRange(heap, key) && Ordered(heap, key) && |other| == |key|
    requires forall i :: 0 <= i < |heap| ==> other[heap[i]] == key[heap[i]]
    ensures InRange(heap, other) && Ordered(heap, other)
  {
    forall i | 0 < i < |heap| ensures other[heap[Parent(i)]] <= other[heap[i]] {
      assert other[heap[Parent(i)]] == key[heap[Parent(i)]];
    }
  }

  /** The book after slot `k` of `side` is freed and its heap repaired into `cells`. */
  function Removing(v: View, side: Side, k: nat, cells: seq<nat>): View
    requires k < |v.slots| && v.Len(side) > 0 && v.activeLen > 0
  {
    v.(slots := v.slots[k := Free(v.freeHead)], freeHead := k, activeLen := v.activeLen - 1)
     .WithCells(side, cells).WithLen(side, v.Len(side) - 1)
  }

  /**
   Removing any live order, wherever it sits in its heap, keeps the whole layout in order,
   puts its slot first in the free list, and leaves every other order as it was.
   */
  lemma RemovingKeepsBook(v: View, free: seq<nat>, side: Side, index: nat, k: nat, cells: seq<nat>, payout: U64)
    requires WellFormed(v, free, payout) && LiveOn(v.slots, k, side)
    requires v.Len(side) > 0 && |cells| == |v.slots|
    requires index < v.Len(side) <= |v.Cells(side)| && v.Cells(side)[index] == k
    requires HeapRepaired(v.Cells(side), v.Len(side) - 1, index, cells, Keys(v.slots, payout), NONE)
    ensures WellFormed(Removing(v, side, k, cells), [k] + free, payout)
    ensures SidesOf(Removing(v, side, k, cells)) ==
            SidesOf(v).With(side, SidesOf(v).Of(side) - {v.slots[k].order})
  {
    var n := v.Len(side) - 1;
    var after := v.slots[k := Free(v.freeHead)];
    FreeingRemovesOrder(v.slots, k, v.freeHead, side, payout);
    RemovalHeap(v.slots, after, v.Cells(side), cells, n, side, k, payout);
    OtherHeap(v, free, after, k, Opposite(side), payout);
    FreeingExtendsFree(v.slots, v.freeHead, free, v.activeLen, k);
    var w := Removing(v, side, k, cells);
    assert w.slots == after && w.Cells(side) == cells && w.Len(side) == n;
    AssembleBook(w, [k] + free, side, payout);
  }

  /** The parts of a well-formed book, one side and the other. */
  lemma AssembleBook(v: View, free: seq<nat>, side: Side, payout: U64)
    requires 0 < |v.slots| <= MAX_ORDERS && v.bidLen + v.askLen == v.activeLen
    requires SlotsOk(v.slots, payout) && FreeOk(v.slots, v.freeHead, free, v.activeLen)
    requires HeapOk(v.slots, v.Cells(side), v.Len(side), side, payout)
    requires HeapOk(v.slots, v.Cells(Opposite(side)), v.Len(Opposite(side)), Opposite(side), payout)
    ensures WellFormed(v, free, payout)
  {
  }

  lemma FreeingExtendsFree(slots: seq<Slot>, head: nat, free: seq<nat>, activeLen: nat, k: nat)
    requires FreeOk(slots, head, free, activeLen) && k < |slots| && slots[k].Live? && activeLen > 0
    ensures FreeOk(slots[k := Free(head)], k, [k] + free, activeLen - 1)
  {
    ChainIgnores(slots, head, free, k, Free(head));
    assert ([k] + free)[1..] == free;
  }

  lemma OccupyingShortensFree(slots: seq<Slot>, head: nat, free: seq<nat>, activeLen: nat, order: Order)
    requires FreeOk(slots, head, free, activeLen) && free != []
    ensures head == free[0] < |slots| && slots[head].Free?
    ensures FreeOk(slots[head := Live(order)], slots[head].next, free[1..], activeLen + 1)
  {
    assert head !in free[1..];
    ChainIgnores(slots, slots[head].next, free[1..], head, Live(order));
    var after := slots[head := Live(order)];
    assert free == [head] + free[1..];
    forall j | 0 <= j < |after| ensures j in free[1..] <==> after[j].Free? {
      assert j in free <==> slots[j].Free?;
    }
  }

  /** Removing the root removes the best order of the side. */
  lemma PoppingKeepsBook(v: View, free: seq<nat>, side: Side, cells: seq<nat>, payout: U64)
    requires WellFormed(v, free, payout) && 0 < v.Len(side) <= |v.Cells(side)|
    requires HeapRepaired(v.Cells(side), v.Len(side) - 1, 0, cells, Keys(v.slots, payout), NONE)
    ensures var root := v.Cells(side)[0];
            && LiveOn(v.slots, root, side) && v.activeLen > 0
            && IsBest(v.slots[root].order, SidesOf(v).Of(side), payout)
            && WellFormed(Removing(v, side, root, cells), [root] + free, payout)
            && SidesOf(Removing(v, side, root, cells)) ==
               SidesOf(v).With(side, SidesOf(v).Of(side) - {v.slots[root].order})
  {
    RootHoldsBest(v, free, side, payout);
    RemovingKeepsBook(v, free, side, 0, v.Cells(side)[0], cells, payout);
  }

  lemma RemovalHeap(slots: seq<Slot>, after: seq<Slot>, before: seq<nat>, cells: seq<nat>, n: nat, side: Side, k: nat,
                    payout: U64)
    requires HeapOk(slots, before, n + 1, side, payout) && LiveOn(slots, k, side)
    requires |after| == |slots| == |cells| && after == slots[k := after[k]] && n <= |cells|
    requires LiveSlots(after, side) == LiveSlots(slots, side) - {k}
    requires multiset(cells[..n]) == multiset(before[..n + 1]) - multiset{k}
    requires InRange(cells[..n], Keys(slots, payout)) && Ordered(cells[..n], Keys(slots, payout))
    requires forall i :: n <= i < |cells| ==> cells[i] == NONE
    ensures HeapOk(after, cells, n, side, payout)
  {
    var live := LiveSlots(slots, side);
    assert k in live;
    assert multiset(live - {k}) == multiset(live) - multiset{k};
    forall i | 0 <= i < n ensures Keys(after, payout)[cells[..n][i]] == Keys(slots, payout)[cells[..n][i]] {
      assert cells[..n][i] in multiset(cells[..n]);
      assert cells[..n][i] != k;
    }
    assert |cells[..n]| == n;
    KeysAgree(cells[..n], Keys(slots, payout), Keys(after, payout));
  }

  lemma OtherHeap(v: View, free: seq<nat>, after: seq<Slot>, k: nat, side: Side, payout: U64)
    requires WellFormed(v, free, payout)
    requires k < |v.slots| == |after| && after == v.slots[k := after[k]]
    requires !LiveOn(v.slots, k, side) && LiveSlots(after, side) == LiveSlots(v.slots, side)
    ensures HeapOk(after, v.Cells(side), v.Len(side), side, payout)
  {
    var cells := v.Cells(side);
    var len := v.Len(side);
    HeapMembers(v.slots, cells, len, side, payout);
    forall i | 0 <= i < |cells[..len]|
      ensures KeyOf(after[cells[..len][i]], payout) == KeyOf(v.slots[cells[..len][i]], payout)
    {
      assert LiveOn(v.slots, cells[i], side);
    }
    HeapIgnores(v.slots, after, cells, len, side, payout);
  }

  /** No live order carries this identifier. */
  ghost predicate FreshId(slots: seq<Slot>, id: U64) {
    forall j :: 0 <= j < |slots| && slots[j].Live? ==> slots[j].order.id != id
  }

  /** The book after `order` takes the first free slot and joins its heap as `cells`. */
  function Inserting(v: View, order: Order, cells: seq<nat>): View
    requires v.freeHead < |v.slots| && v.slots[v.freeHead].Free?
  {
    var side := order.intent.Side();
    v.(slots := v.slots[v.freeHead := Live(order)], freeHead := v.slots[v.freeHead].next, activeLen := v.activeLen + 1)
     .WithCells(side, cells).WithLen(side, v.Len(side) + 1)
  }

  /** Inserting under a fresh identifier keeps the layout in order and adds exactly that order. */
  lemma InsertingKeepsBook(v: View, free: seq<nat>, order: Order, cells: seq<nat>, payout: U64)
    requires WellFormed(v, free, payout) && free != []
    requires Sound(order, payout) && order.id == order.sequence
    requires FreshId(v.slots, order.id)
    requires v.Len(order.intent.Side()) < |v.Cells(order.intent.Side())|
    requires HeapGrown(v.Cells(order.intent.Side()), v.Len(order.intent.Side()) + 1, v.freeHead, cells,
                       Keys(v.slots[v.freeHead := Live(order)], payout), NONE)
    ensures WellFormed(Inserting(v, order, cells), free[1..], payout)
    ensures SidesOf(Inserting(v, order, cells)) ==
            SidesOf(v).With(order.intent.Side(), SidesOf(v).Of(order.intent.Side()) + {order})
  {
    var side := order.intent.Side();
    var k := v.freeHead;
    var after := v.slots[k := Live(order)];
    OccupyingShortensFree(v.slots, k, free, v.activeLen, order);
    OccupyingAddsOrder(v.slots, k, order, payout);
    InsertionHeap(v.slots, after, v.Cells(side), cells, v.Len(side) + 1, side, k, payout);
    OtherHeap(v, free, after, k, Opposite(side), payout);
    InsertedParts(v, order, cells);
    AssembleBook(Inserting(v, order, cells), free[1..], side, payout);
  }

  lemma InsertedParts(v: View, order: Order, cells: seq<nat>)
    requires v.freeHead < |v.slots| && v.slots[v.freeHead].Free?
    ensures var w, side := Inserting(v, order, cells), order.intent.Side();
            && w.slots == v.slots[v.freeHead := Live(order)] && w.freeHead == v.slots[v.freeHead].next
            && w.Cells(side) == cells && w.Len(side) == v.Len(side) + 1
            && w.Cells(Opposite(side)) == v.Cells(Opposite(side)) && w.Len(Opposite(side)) == v.Len(Opposite(side))
            && w.activeLen == v.activeLen + 1 && w.bidLen + w.askLen == v.bidLen + v.askLen + 1
  {
  }

  lemma InsertionHeap(slots: seq<Slot>, after: seq<Slot>, before: seq<nat>, cells: seq<nat>, n: nat, side: Side, k: nat,
                      payout: U64)
    requires n > 0 && HeapOk(slots, before, n - 1, side, payout)
    requires k < |slots| && !LiveOn(slots, k, side) && |after| == |slots| == |cells| && n <= |cells|
    requires LiveSlots(after, side) == LiveSlots(slots, side) + {k}
    requires multiset(cells[..n]) == multiset(before[..n - 1]) + multiset{k}
    requires InRange(cells[..n], Keys(after, payout)) && Ordered(cells[..n], Keys(after, payout))
    requires forall i :: n <= i < |cells| ==> cells[i] == NONE
    ensures HeapOk(after, cells, n, side, payout)
  {
    var live := LiveSlots(slots, side);
    assert k !in live;
    assert multiset(live + {k}) == multiset(live) + multiset{k};
  }

  /** Recording a partial fill in place keeps the layout in order. */
  lemma ShrinkingKeepsBook(v: View, free: seq<nat>, side: Side, k: nat, order: Order, payout: U64)
    requires WellFormed(v, free, payout) && LiveOn(v.slots, k, side)
    requires SameOrder(order, v.slots[k].order) && Sound(order, payout)
    ensures WellFormed(v.(slots := v.slots[k := Live(order)]), free, payout)
    ensures SidesOf(v.(slots := v.slots[k := Live(order)])) ==
            SidesOf(v).With(side, SidesOf(v).Of(side) - {v.slots[k].order} + {order})
  {
    ShrinkingReplacesOrder(v.slots, k, order, side, payout);
    ChainIgnores(v.slots, v.freeHead, free, k, Live(order));
    var after := v.slots[k := Live(order)];
    forall i | 0 <= i < |v.Cells(side)[..v.Len(side)]|
      ensures KeyOf(after[v.Cells(side)[..v.Len(side)][i]], payout) ==
              KeyOf(v.slots[v.Cells(side)[..v.Len(side)][i]], payout)
    {
      var cell := v.Cells(side)[..v.Len(side)][i];
      assert Keys(after, payout)[cell] == Keys(v.slots, payout)[cell];
    }
    HeapIgnores(v.slots, after, v.Cells(side), v.Len(side), side, payout);
    OtherHeap(v, free, after, k, Opposite(side), payout);
  }

  // ---------- Preparing a heap repair ----------

  /** The heap part of a side's cells. */
  function Entries(v: View, side: Side): (entries: seq<nat>)
    requires v.Len(side) <= |v.Cells(side)|
    ensures |entries| == v.Len(side)
  {
    v.Cells(side)[..v.Len(side)]
  }

  lemma EntriesAreLive(v: View, free: seq<nat>, side: Side, payout: U64)
    requires WellFormed(v, free, payout)
    ensures v.Len(side) <= |v.Cells(side)| == |v.slots|
    ensures AllIn(Entries(v, side), LiveSlots(v.slots, side))
    ensures multiset(Entries(v, side)) == multiset(LiveSlots(v.slots, side))
    ensures InRange(Entries(v, side), Keys(v.slots, payout)) && Ordered(Entries(v, side), Keys(v.slots, payout))
  {
    HeapMembers(v.slots, v.Cells(side), v.Len(side), side, payout);
    forall i | 0 <= i < v.Len(side) ensures Entries(v, side)[i] in LiveSlots(v.slots, side) {
      assert LiveOn(v.slots, v.Cells(side)[i], side);
    }
  }

  /** What a heap repair needs to know about a side, whatever else the book holds. */
  ghost predicate HeapReady(v: View, side: Side, members: set<nat>, keys: seq<int>, payout: U64) {
    && 0 < v.Len(side) <= |v.Cells(side)| == |v.slots|
    && AllIn(Entries(v, side), members) && InRange(Entries(v, side), keys) && Ordered(Entries(v, side), keys)
    && (forall k <- members :: LiveOn(v.slots, k, side))
    && Ranks(v.slots, payout, keys)
    && (forall i :: v.Len(side) <= i < |v.Cells(side)| ==> v.Cells(side)[i] == NONE)
  }

  lemma WellFormedIsReady(v: View, free: seq<nat>, side: Side, payout: U64)
    requires WellFormed(v, free, payout) && v.Len(side) > 0
    ensures HeapReady(v, side, LiveSlots(v.slots, side), Keys(v.slots, payout), payout)
  {
    EntriesAreLive(v, free, side, payout);
    KeysRank(v.slots, payout);
  }

  /** Cells ready for the occupied slot `x` to rise from position `n - 1`. */
  ghost predicate GrowReady(before: seq<nat>, n: nat, x: nat, slots: seq<Slot>, side: Side,
                            members: set<nat>, keys: seq<int>, payout: U64) {
    && 0 < n <= |before| == |slots|
    && AllIn(before[..n - 1] + [x], members) && InRange(before[..n - 1] + [x], keys)
    && OrderedBelow(before[..n - 1] + [x], keys, n - 1)
    && (forall k <- members :: LiveOn(slots, k, side))
    && Ranks(slots, payout, keys)
    && (forall i :: n <= i < |before| ==> before[i] == NONE)
  }

  /** The heap of a side with a newly occupied slot at the end. */
  lemma InsertionStart(v: View, free: seq<nat>, order: Order, payout: U64)
    requires WellFormed(v, free, payout) && free != []
    requires Sound(order, payout) && order.id == order.sequence && FreshId(v.slots, order.id)
    ensures v.freeHead == free[0] < |v.slots| && v.slots[v.freeHead].Free?
    ensures var side := order.intent.Side();
            var after := v.slots[v.freeHead := Live(order)];
            GrowReady(v.Cells(side), v.Len(side) + 1, v.freeHead, after, side, LiveSlots(after, side),
                      Keys(after, payout), payout)
  {
    var side := order.intent.Side();
    var k := v.freeHead;
    var after := v.slots[k := Live(order)];
    var entries := Entries(v, side);
    EntriesAreLive(v, free, side, payout);
    OccupyingAddsOrder(v.slots, k, order, payout);
    KeysElsewhere(v.slots, after, k, entries, LiveSlots(v.slots, side), payout);
    AppendKeepsRest(entries, Keys(after, payout), k);
    KeysRank(after, payout);
    RoomToGrow(v, free, side, payout);
  }

  lemma RoomToGrow(v: View, free: seq<nat>, side: Side, payout: U64)
    requires WellFormed(v, free, payout) && free != []
    ensures v.Len(side) < |v.slots|
  {
  }

  /** Keys of entries other than the changed slot are unchanged. */
  lemma KeysElsewhere(slots: seq<Slot>, after: seq<Slot>, k: nat, entries: seq<nat>, members: set<nat>, payout: U64)
    requires k < |slots| == |after| && after == slots[k := after[k]] && k !in members && AllIn(entries, members)
    requires InRange(entries, Keys(slots, payout)) && Ordered(entries, Keys(slots, payout))
    ensures InRange(entries, Keys(after, payout)) && Ordered(entries, Keys(after, payout))
  {
    KeysAgree(entries, Keys(slots, payout), Keys(after, payout));
  }
}
