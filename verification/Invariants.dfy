/**
 The end-to-end tests' check of a stored market: it reads the raw layout of the book, the
 seats and the totals, and looks only at neighbours. What passes is proved to be a book in
 price-time order whose money is backed by exactly its live orders, and the other way round.
 */
module Invariants {
  import opened Wrappers
  import opened Words
  import Fees
  import opened Orders
  import opened Matching
  import opened Placing
  import opened Heap
  import opened Slab
  import opened Escrow
  import opened Settlement
  import Exchange

  /** How much an order must keep reserved, by the tests' own formula. */
  type Needs = Order -> Hold

  function NeedAt(feeBps: nat): Needs {
    (o: Order) =>
      if o.intent.action.Buy? then Hold(Fees.BuyNeed(o.limitPrice, o.remaining, o.chainNotional, feeBps), 0, 0)
      else if o.intent.outcome.Yes? then Hold(0, o.remaining, 0)
      else Hold(0, 0, o.remaining)
  }

  // ---------- What each part of the check accepts ----------

  ghost function Active(slots: seq<Slot>): set<nat> {
    set k | 0 <= k < |slots| && slots[k].Live?
  }

  predicate LooksLive(o: Order, seats: nat, nextSequence: nat, payout: U64) {
    o.owner < seats && o.id == o.sequence < nextSequence && o.remaining > 0 && 0 < o.limitPrice < payout
  }

  ghost predicate OrdersPass(slots: seq<Slot>, seats: nat, nextSequence: nat, payout: U64) {
    && (forall k :: 0 <= k < |slots| && slots[k].Live? ==> LooksLive(slots[k].order, seats, nextSequence, payout))
    && (forall j, k ::
          0 <= j < k < |slots| && slots[j].Live? && slots[k].Live? ==> slots[j].order.id != slots[k].order.id)
  }

  /** A child never stands before its parent by price, then sequence. */
  predicate Follows(parent: Order, child: Order, side: Side, payout: U64) {
    if parent.Price(payout) == child.Price(payout) then parent.sequence < child.sequence
    else if side.Bid? then parent.Price(payout) > child.Price(payout)
    else parent.Price(payout) < child.Price(payout)
  }

  predicate EntryPasses(slots: seq<Slot>, cells: seq<nat>, i: nat, side: Side, payout: U64)
    requires i < |cells|
  {
    && LiveOn(slots, cells[i], side)
    && (i > 0 ==>
          LiveOn(slots, cells[Parent(i)], side)
          && Follows(slots[cells[Parent(i)]].order, slots[cells[i]].order, side, payout))
  }

  function Seen(cells: seq<nat>): set<nat> {
    set c | c in cells
  }

  ghost predicate NoRepeats(cells: seq<nat>) {
    forall i, j :: 0 <= i < j < |cells| ==> cells[i] != cells[j]
  }

  /** One heap: entries of its side, none twice, each after its parent. */
  ghost predicate HeapPasses(slots: seq<Slot>, entries: seq<nat>, side: Side, payout: U64) {
    && NoRepeats(entries)
    && forall i :: 0 <= i < |entries| ==> EntryPasses(slots, entries, i, side, payout)
  }

  ghost predicate FreeList(slots: seq<Slot>, head: nat, free: seq<nat>) {
    FreeChain(slots, head, free) && NoRepeats(free) && |free| + |Active(slots)| == |slots|
  }

  ghost predicate FreePasses(slots: seq<Slot>, head: nat) {
    exists free :: FreeList(slots, head, free)
  }

  ghost predicate CountsPass(v: View) {
    v.activeLen == |Active(v.slots)| && v.bidLen + v.askLen == v.activeLen
  }

  /** Reserves summed slot by slot. */
  function Due(slots: seq<Slot>, owner: nat, need: Needs): Hold {
    if slots == [] then Nothing() else
    var rest := Due(slots[..|slots| - 1], owner, need);
    var last := slots[|slots| - 1];
    if last.Live? && last.order.owner == owner then need(last.order).Plus(rest) else rest
  }

  ghost predicate SeatsPass(slots: seq<Slot>, seats: seq<Seat>, need: Needs) {
    forall i :: 0 <= i < |seats| ==> Reserves(seats[i], Due(slots, i, need))
  }

  /** The layout every account of the right length has. */
  predicate Shaped(v: View) {
    |v.bids| == |v.asks| == |v.slots|
  }

  ghost predicate BookPasses(v: View, seats: nat, nextSequence: nat, payout: U64)
    requires Shaped(v)
  {
    && CountsPass(v) && OrdersPass(v.slots, seats, nextSequence, payout)
    && v.bidLen <= |v.slots| && v.askLen <= |v.slots|
    && HeapPasses(v.slots, v.bids[..v.bidLen], Bid, payout)
    && HeapPasses(v.slots, v.asks[..v.askLen], Ask, payout)
    && Seen(v.bids[..v.bidLen]) + Seen(v.asks[..v.askLen]) == Active(v.slots)
    && FreePasses(v.slots, v.freeHead)
  }

  ghost predicate Passes(v: View, l: Funds, nextSequence: nat, payout: U64, need: Needs)
    requires Shaped(v)
  {
    BookPasses(v, |l.seats|, nextSequence, payout) && SeatsPass(v.slots, l.seats, need) && Escrow.InBalance(l, payout)
  }

  // ---------- The check, as the tests run it ----------

  lemma ActiveNext(slots: seq<Slot>, k: nat)
    requires k < |slots|
    ensures Active(slots[..k + 1]) == Active(slots[..k]) + (if slots[k].Live? then {k} else {})
  {
  }

  /** The slots in use, each order plausible and no identifier twice. */
  method CheckOrders(slots: seq<Slot>, seats: nat, nextSequence: nat, payout: U64) returns (ok: bool, active: set<nat>)
    ensures ok <==> OrdersPass(slots, seats, nextSequence, payout)
    ensures active == Active(slots)
  {
    ok, active := true, {};
    var ids: set<nat> := {};
    for k := 0 to |slots|
      invariant active == Active(slots[..k])
      invariant ids == set j | 0 <= j < k && slots[j].Live? :: slots[j].order.id as nat
      invariant ok <==> OrdersPass(slots[..k], seats, nextSequence, payout)
    {
      ActiveNext(slots, k);
      OrdersPassNext(slots, k, seats, nextSequence, payout);
      if slots[k].Live? {
        var o := slots[k].order;
        ok := ok && LooksLive(o, seats, nextSequence, payout) && o.id !in ids;
        active, ids := active + {k}, ids + {o.id};
      }
    }
    assert slots[..|slots|] == slots;
  }

  lemma OrdersPassNext(slots: seq<Slot>, k: nat, seats: nat, nextSequence: nat, payout: U64)
    requires k < |slots|
    ensures OrdersPass(slots[..k + 1], seats, nextSequence, payout) <==>
              && OrdersPass(slots[..k], seats, nextSequence, payout)
              && (slots[k].Live? ==>
                    && LooksLive(slots[k].order, seats, nextSequence, payout)
                    && slots[k].order.id !in (set j | 0 <= j < k && slots[j].Live? :: slots[j].order.id as nat))
  {
    var before, after := slots[..k], slots[..k + 1];
    assert after == before + [slots[k]];
    assert forall j :: 0 <= j < k ==> before[j] == slots[j];
  }

  /** One heap, entry by entry, against everything seen in heaps before. */
  method CheckHeap(slots: seq<Slot>, entries: seq<nat>, side: Side, payout: U64, before: set<nat>)
    returns (ok: bool, seen: set<nat>)
    ensures ok <==> HeapPasses(slots, entries, side, payout) && Seen(entries) !! before
    ensures ok ==> seen == before + Seen(entries)
  {
    seen := before;
    for i := 0 to |entries|
      invariant HeapPasses(slots, entries[..i], side, payout) && Seen(entries[..i]) !! before
      invariant seen == before + Seen(entries[..i])
    {
      HeapPassesNext(slots, entries, i, side, payout);
      var index := entries[i];
      if !LiveOn(slots, index, side) || index in seen {
        HeapFails(slots, entries, i, side, payout, before);
        return false, seen;
      }
      if i > 0 && !Follows(slots[entries[Parent(i)]].order, slots[index].order, side, payout) {
        HeapFails(slots, entries, i, side, payout, before);
        return false, seen;
      }
      assert entries[..i + 1] == entries[..i] + [index];
      seen := seen + {index};
    }
    assert entries[..|entries|] == entries;
    ok := true;
  }

  lemma HeapPassesNext(slots: seq<Slot>, entries: seq<nat>, i: nat, side: Side, payout: U64)
    requires i < |entries| && HeapPasses(slots, entries[..i], side, payout)
    ensures i > 0 ==> LiveOn(slots, entries[Parent(i)], side)
    ensures HeapPasses(slots, entries[..i + 1], side, payout) <==>
              entries[i] !in Seen(entries[..i]) && EntryPasses(slots, entries, i, side, payout)
  {
    if i > 0 {
      assert EntryPasses(slots, entries[..i], Parent(i), side, payout);
    }
    var now, next := entries[..i], entries[..i + 1];
    assert next == now + [entries[i]];
    forall j | 0 <= j < i ensures EntryPasses(slots, next, j, side, payout) {
      assert EntryPasses(slots, now, j, side, payout);
    }
    assert EntryPasses(slots, next, i, side, payout) <==> EntryPasses(slots, entries, i, side, payout);
  }

  /** A bad prefix spoils the whole heap. */
  lemma HeapFails(slots: seq<Slot>, entries: seq<nat>, i: nat, side: Side, payout: U64, before: set<nat>)
    requires i < |entries|
    requires HeapPasses(slots, entries[..i + 1], side, payout) ==> entries[i] in before
    ensures !(HeapPasses(slots, entries, side, payout) && Seen(entries) !! before)
  {
    if HeapPasses(slots, entries, side, payout) {
      var prefix := entries[..i + 1];
      forall j | 0 <= j <= i ensures EntryPasses(slots, prefix, j, side, payout) {
        assert EntryPasses(slots, entries, j, side, payout);
      }
      assert entries[i] in Seen(entries);
    }
  }

  /** `path` leads from `head` to `next` over free slots. */
  ghost predicate Walk(slots: seq<Slot>, head: nat, path: seq<nat>, next: nat)
    decreases |path|
  {
    if path == [] then head == next else
    head == path[0] < |slots| && slots[head].Free? && Walk(slots, slots[head].next, path[1..], next)
  }

  lemma {:induction false} WalkOn(slots: seq<Slot>, head: nat, path: seq<nat>, next: nat)
    requires Walk(slots, head, path, next) && next < |slots| && slots[next].Free?
    ensures Walk(slots, head, path + [next], slots[next].next)
    decreases |path|
  {
    if path == [] {
      assert [next][1..] == [];
    } else {
      WalkOn(slots, slots[head].next, path[1..], next);
      assert (path + [next])[1..] == path[1..] + [next];
    }
  }

  /** There is only one way to follow the list. */
  lemma {:induction false} WalkIsForced(slots: seq<Slot>, head: nat, path: seq<nat>, next: nat, free: seq<nat>)
    requires Walk(slots, head, path, next) && FreeChain(slots, head, free) && |slots| < NONE
    ensures path <= free && FreeChain(slots, next, free[|path|..])
    decreases |path|
  {
    if path != [] {
      WalkIsForced(slots, slots[head].next, path[1..], next, free[1..]);
      assert path == [head] + path[1..] && free == [head] + free[1..];
      assert free[1..][|path| - 1..] == free[|path|..];
    } else {
      assert free[0..] == free;
    }
  }

  lemma {:induction false} WalkIsChain(slots: seq<Slot>, head: nat, path: seq<nat>)
    requires Walk(slots, head, path, NONE)
    ensures FreeChain(slots, head, path)
    decreases |path|
  {
    if path != [] {
      WalkIsChain(slots, slots[head].next, path[1..]);
    }
  }

  /** Follows the free list to its end; a slot met twice, or a slot in use, ends the check. */
  method CheckFree(slots: seq<Slot>, head: nat, active: set<nat>) returns (ok: bool)
    requires active == Active(slots) && |slots| < NONE
    ensures ok <==> FreePasses(slots, head)
  {
    var free: set<nat> := {};
    ghost var path: seq<nat> := [];
    var next: nat := head;
    while next != NONE
      invariant Walk(slots, head, path, next) && NoRepeats(path) && free == Seen(path) && |free| == |path|
      invariant forall k <- free :: k < |slots|
      decreases |slots| - |path|
    {
      GoesOn(slots, head, path, next);
      if next >= |slots| || next in free || next in active {
        return false;
      }
      WalkOn(slots, head, path, next);
      FewerThan(free + {next}, |slots|);
      path := path + [next];
      free, next := free + {next}, slots[next].next;
    }
    WalkIsChain(slots, head, path);
    ok := |free| + |active| == |slots|;
    assert ok ==> FreeList(slots, head, path);
    if FreePasses(slots, head) {
      var chain :| FreeList(slots, head, chain);
      WalkIsForced(slots, head, path, NONE, chain);
      assert chain[|path|..] == [];
    }
  }

  lemma {:induction false} FewerThan(s: set<nat>, n: nat)
    requires forall k <- s :: k < n
    ensures |s| <= n && (|s| == n ==> forall k :: 0 <= k < n ==> k in s)
    decreases n
  {
    if n == 0 {
      assert s == {};
    } else {
      var rest := s - {n - 1};
      FewerThan(rest, n - 1);
      forall k | 0 <= k < n && |s| == n ensures k in s {
        assert k == n - 1 || k in rest;
      }
    }
  }

  /** A list that ends properly goes on through free slots, and never to one it has passed. */
  lemma GoesOn(slots: seq<Slot>, head: nat, path: seq<nat>, next: nat)
    requires Walk(slots, head, path, next) && next != NONE && |slots| < NONE
    ensures FreePasses(slots, head) ==> next < |slots| && next !in path && slots[next].Free?
  {
    if free :| FreeList(slots, head, free) {
      WalkIsForced(slots, head, path, next, free);
      assert free[|path|] == next;
      assert forall i :: 0 <= i < |path| ==> path[i] == free[i];
    }
  }

  /** One pass over the slots; every order adds to its owner's reserves. */
  method SumReserves(slots: seq<Slot>, seats: nat, need: Needs) returns (reserves: seq<Hold>)
    requires forall k :: 0 <= k < |slots| && slots[k].Live? ==> slots[k].order.owner < seats
    ensures |reserves| == seats && forall i :: 0 <= i < seats ==> reserves[i] == Due(slots, i, need)
  {
    reserves := seq(seats, _ => Nothing());
    for k := 0 to |slots|
      invariant |reserves| == seats && forall i :: 0 <= i < seats ==> reserves[i] == Due(slots[..k], i, need)
    {
      assert slots[..k + 1][..k] == slots[..k];
      if slots[k].Live? {
        var o := slots[k].order;
        reserves := reserves[o.owner := need(o).Plus(reserves[o.owner])];
      }
    }
    assert slots[..|slots|] == slots;
  }

  /** Every seat against its orders, and the totals against each other. */
  method CheckSeats(slots: seq<Slot>, l: Funds, payout: U64, need: Needs) returns (ok: bool)
    requires forall k :: 0 <= k < |slots| && slots[k].Live? ==> slots[k].order.owner < |l.seats|
    ensures ok <==> SeatsPass(slots, l.seats, need) && Escrow.InBalance(l, payout)
  {
    ok := true;
    var reserves := SumReserves(slots, |l.seats|, need);
    var totals := Totals(0, 0, 0);
    for i := 0 to |l.seats|
      invariant totals == TotalsOf(l.seats[..i])
      invariant ok <==> forall j :: 0 <= j < i ==> Reserves(l.seats[j], Due(slots, j, need))
    {
      assert l.seats[..i + 1][..i] == l.seats[..i];
      var seat := l.seats[i];
      ok := ok && Reserves(seat, reserves[i]);
      totals := Totals(totals.cash + Cash(seat), totals.yes + seat.yes, totals.no + seat.no);
    }
    assert l.seats[..|l.seats|] == l.seats;
    ok := ok && Verified(totals, l.accounted, l.collateral, l.revenue, payout);
  }

  /** Both heaps, which together must hold exactly the slots in use. */
  method CheckHeaps(slots: seq<Slot>, bids: seq<nat>, asks: seq<nat>, payout: U64, active: set<nat>) returns (ok: bool)
    ensures ok <==>
              && HeapPasses(slots, bids, Bid, payout) && HeapPasses(slots, asks, Ask, payout)
              && Seen(bids) + Seen(asks) == active
  {
    var first, seen := CheckHeap(slots, bids, Bid, payout, {});
    if !first {
      return false;
    }
    var second, all := CheckHeap(slots, asks, Ask, payout, seen);
    HeapsAreDisjoint(slots, bids, asks, payout);
    ok := second && all == active;
  }

  method CheckBook(v: View, seats: nat, nextSequence: nat, payout: U64) returns (ok: bool)
    requires Shaped(v) && |v.slots| < NONE
    ensures ok <==> BookPasses(v, seats, nextSequence, payout)
  {
    var orders, active := CheckOrders(v.slots, seats, nextSequence, payout);
    FewerThan(active, |v.slots|);
    if !orders || v.activeLen != |active| || v.bidLen + v.askLen != v.activeLen {
      return false;
    }
    var heaps := CheckHeaps(v.slots, v.bids[..v.bidLen], v.asks[..v.askLen], payout, active);
    if !heaps {
      return false;
    }
    ok := CheckFree(v.slots, v.freeHead, active);
  }

  /** The whole check. */
  method Check(v: View, l: Funds, nextSequence: nat, payout: U64, feeBps: nat) returns (ok: bool)
    requires Shaped(v) && |v.slots| < NONE
    ensures ok <==> Passes(v, l, nextSequence, payout, NeedAt(feeBps))
  {
    ok := CheckBook(v, |l.seats|, nextSequence, payout);
    if ok {
      ok := CheckSeats(v.slots, l, payout, NeedAt(feeBps));
    }
  }

  /** Heaps of different sides never share a slot, so the running set of seen slots adds nothing here. */
  lemma HeapsAreDisjoint(slots: seq<Slot>, bids: seq<nat>, asks: seq<nat>, payout: U64)
    requires HeapPasses(slots, bids, Bid, payout)
    ensures HeapPasses(slots, asks, Ask, payout) ==> Seen(asks) !! Seen(bids)
  {
    if HeapPasses(slots, asks, Ask, payout) {
      forall k | k in Seen(asks) ensures k !in Seen(bids) {
        var j :| 0 <= j < |asks| && asks[j] == k;
        assert EntryPasses(slots, asks, j, Ask, payout);
        forall i | 0 <= i < |bids| ensures bids[i] != k {
          assert EntryPasses(slots, bids, i, Bid, payout);
        }
      }
    }
  }

  // ---------- What a market that passes is ----------

  lemma FollowsIsBetter(parent: Order, child: Order, side: Side, payout: U64)
    requires parent.intent.Side() == child.intent.Side() == side
    requires parent.id == parent.sequence && child.id == child.sequence
    ensures Follows(parent, child, side, payout) <==> Better(parent, child, payout)
    ensures Follows(parent, child, side, payout) <==> Key(parent, payout) < Key(child, payout)
  {
    BetterIsKey(parent, child, payout);
  }

  /** Neighbours in order make the whole heap ordered. */
  lemma HeapPassesOrdered(slots: seq<Slot>, entries: seq<nat>, side: Side, payout: U64)
    requires HeapPasses(slots, entries, side, payout)
    requires forall k :: 0 <= k < |slots| && slots[k].Live? ==> slots[k].order.id == slots[k].order.sequence
    ensures InRange(entries, Keys(slots, payout)) && Ordered(entries, Keys(slots, payout))
  {
    var keys := Keys(slots, payout);
    forall i | 0 <= i < |entries| ensures entries[i] < |keys| {
      assert EntryPasses(slots, entries, i, side, payout);
    }
    forall i | 0 < i < |entries| ensures keys[entries[Parent(i)]] <= keys[entries[i]] {
      assert EntryPasses(slots, entries, i, side, payout);
      FollowsIsBetter(slots[entries[Parent(i)]].order, slots[entries[i]].order, side, payout);
    }
  }

  /** The root of a heap that passes trades before any other live slot of its side. */
  lemma RootLeads(v: View, seats: nat, nextSequence: nat, side: Side, payout: U64, k: nat)
    requires Shaped(v) && BookPasses(v, seats, nextSequence, payout) && LiveOn(v.slots, k, side)
    ensures v.Len(side) > 0 && LiveOn(v.slots, v.Cells(side)[0], side)
    ensures k != v.Cells(side)[0] ==> Better(v.slots[v.Cells(side)[0]].order, v.slots[k].order, payout)
  {
    var i := EntryOf(v, seats, nextSequence, side, k, payout);
    var entries := v.Cells(side)[..v.Len(side)];
    assert HeapPasses(v.slots, entries, side, payout);
    assert EntryPasses(v.slots, entries, 0, side, payout);
    HeapPassesOrdered(v.slots, entries, side, payout);
    RootIsBest(entries, Keys(v.slots, payout), i);
    var root, order := v.slots[entries[0]].order, v.slots[k].order;
    BetterIsKey(root, order, payout);
    if k != entries[0] && Key(root, payout) == Key(order, payout) {
      KeyInjective(root, order, payout);
    }
  }

  /** Soundness of the neighbour check: the root of a heap that passes is the one best order of its side. */
  lemma RootOfPassedIsBest(v: View, seats: nat, nextSequence: nat, side: Side, payout: U64)
    requires Shaped(v) && BookPasses(v, seats, nextSequence, payout) && v.Len(side) > 0
    ensures LiveOn(v.slots, v.Cells(side)[0], side)
    ensures IsBest(v.slots[v.Cells(side)[0]].order, SidesOf(v).Of(side), payout)
    ensures forall o <- SidesOf(v).Of(side) ::
              o == v.slots[v.Cells(side)[0]].order || Better(v.slots[v.Cells(side)[0]].order, o, payout)
  {
    var entries := v.Cells(side)[..v.Len(side)];
    assert HeapPasses(v.slots, entries, side, payout) && EntryPasses(v.slots, entries, 0, side, payout);
    var root := v.slots[entries[0]].order;
    forall o <- OrdersOn(v.slots, side)
      ensures o == root || Better(root, o, payout)
      ensures Key(root, payout) <= Key(o, payout)
    {
      var k :| 0 <= k < |v.slots| && LiveOn(v.slots, k, side) && v.slots[k].order == o;
      RootLeads(v, seats, nextSequence, side, payout, k);
      BetterIsKey(root, o, payout);
    }
  }

  /** Every live slot of a side stands in that side's heap. */
  lemma EntryOf(v: View, seats: nat, nextSequence: nat, side: Side, k: nat, payout: U64) returns (i: nat)
    requires Shaped(v) && BookPasses(v, seats, nextSequence, payout) && LiveOn(v.slots, k, side)
    ensures i < v.Len(side) && v.Cells(side)[i] == k
  {
    var other := if side.Bid? then Ask else Bid;
    var entries, others := v.Cells(side)[..v.Len(side)], v.Cells(other)[..v.Len(other)];
    assert k in Active(v.slots) && k in Seen(entries) + Seen(others);
    forall j | 0 <= j < |others| ensures others[j] != k {
      assert EntryPasses(v.slots, others, j, other, payout);
    }
    i :| 0 <= i < |entries| && entries[i] == k;
  }

  // ---------- The check and the book's own invariant ----------

  lemma {:induction false} DistinctIsSet(entries: seq<nat>)
    requires NoRepeats(entries)
    ensures multiset(entries) == multiset(Seen(entries))
  {
    if entries != [] {
      var n := |entries| - 1;
      var before, last := entries[..n], entries[n];
      DistinctIsSet(before);
      assert entries == before + [last];
      assert Seen(entries) == Seen(before) + {last} && last !in Seen(before);
    } else {
      assert Seen(entries) == {};
    }
  }

  /** What a heap holds beyond its length is marked unused; only the program itself keeps this. */
  predicate Padded(cells: seq<nat>, len: nat) {
    forall i :: len <= i < |cells| ==> cells[i] == NONE
  }

  lemma EntriesAreSide(v: View, seats: nat, nextSequence: nat, side: Side, payout: U64)
    requires Shaped(v) && BookPasses(v, seats, nextSequence, payout)
    ensures v.Len(side) <= |v.Cells(side)| && Seen(v.Cells(side)[..v.Len(side)]) == LiveSlots(v.slots, side)
  {
    var entries := v.Cells(side)[..v.Len(side)];
    forall k <- LiveSlots(v.slots, side) ensures k in Seen(entries) {
      var i := EntryOf(v, seats, nextSequence, side, k, payout);
      assert entries[i] == k;
    }
    forall k <- Seen(entries) ensures k in LiveSlots(v.slots, side) {
      var i :| 0 <= i < |entries| && entries[i] == k;
      assert EntryPasses(v.slots, entries, i, side, payout);
    }
  }

  lemma PassedHeapIsOk(v: View, seats: nat, nextSequence: nat, side: Side, payout: U64)
    requires Shaped(v) && BookPasses(v, seats, nextSequence, payout) && Padded(v.Cells(side), v.Len(side))
    ensures HeapOk(v.slots, v.Cells(side), v.Len(side), side, payout)
  {
    var entries := v.Cells(side)[..v.Len(side)];
    assert HeapPasses(v.slots, entries, side, payout);
    EntriesAreSide(v, seats, nextSequence, side, payout);
    DistinctIsSet(entries);
    HeapPassesOrdered(v.slots, entries, side, payout);
  }

  lemma OkHeapPasses(slots: seq<Slot>, cells: seq<nat>, len: nat, side: Side, payout: U64)
    requires SlotsOk(slots, payout) && HeapOk(slots, cells, len, side, payout)
    ensures HeapPasses(slots, cells[..len], side, payout) && Seen(cells[..len]) == LiveSlots(slots, side)
  {
    var entries := cells[..len];
    HeapMembers(slots, cells, len, side, payout);
    forall i | 0 <= i < |entries| ensures EntryPasses(slots, entries, i, side, payout) {
      assert LiveOn(slots, cells[i], side);
      if i > 0 {
        assert LiveOn(slots, cells[Parent(i)], side);
        ChildFollows(slots, entries, i, side, payout);
      }
    }
    forall k <- LiveSlots(slots, side) ensures k in Seen(entries) {
      assert LiveOn(slots, k, side);
      var i :| 0 <= i < len && cells[i] == k;
      assert entries[i] == k;
    }
  }

  lemma ChildFollows(slots: seq<Slot>, entries: seq<nat>, i: nat, side: Side, payout: U64)
    requires SlotsOk(slots, payout) && NoRepeats(entries) && 0 < i < |entries|
    requires InRange(entries, Keys(slots, payout)) && Ordered(entries, Keys(slots, payout))
    requires LiveOn(slots, entries[i], side) && LiveOn(slots, entries[Parent(i)], side)
    ensures Follows(slots[entries[Parent(i)]].order, slots[entries[i]].order, side, payout)
  {
    var parent, child := slots[entries[Parent(i)]].order, slots[entries[i]].order;
    var keys := Keys(slots, payout);
    assert keys[entries[Parent(i)]] == Key(parent, payout) && keys[entries[i]] == Key(child, payout);
    assert parent.id != child.id;
    if Key(parent, payout) == Key(child, payout) {
      KeyInjective(parent, child, payout);
    }
    FollowsIsBetter(parent, child, side, payout);
  }

  lemma ActiveIsBothSides(slots: seq<Slot>)
    ensures Active(slots) == LiveSlots(slots, Bid) + LiveSlots(slots, Ask)
    ensures |Active(slots)| == |LiveSlots(slots, Bid)| + |LiveSlots(slots, Ask)|
  {
    assert LiveSlots(slots, Bid) !! LiveSlots(slots, Ask);
    assert Active(slots) == LiveSlots(slots, Bid) + LiveSlots(slots, Ask);
  }

  /** Live orders within the program's own limits. */
  ghost predicate SoundSlots(slots: seq<Slot>, payout: U64) {
    ValidPayout(payout) && forall k :: 0 <= k < |slots| && slots[k].Live? ==> Sound(slots[k].order, payout)
  }

  lemma {:induction false} ChainIsFree(slots: seq<Slot>, head: nat, free: seq<nat>)
    requires FreeChain(slots, head, free)
    ensures forall i :: 0 <= i < |free| ==> free[i] < |slots| && slots[free[i]].Free?
    decreases |free|
  {
    if free != [] {
      ChainIsFree(slots, slots[head].next, free[1..]);
      assert forall i :: 0 < i < |free| ==> free[i] == free[1..][i - 1];
    }
  }

  /** A list of the right length leaves no free slot out. */
  lemma FreeListIsOk(slots: seq<Slot>, head: nat, free: seq<nat>)
    requires FreeList(slots, head, free)
    ensures FreeOk(slots, head, free, |Active(slots)|)
  {
    ChainIsFree(slots, head, free);
    DistinctIsSet(free);
    var listed, active := Seen(free), Active(slots);
    assert |multiset(free)| == |free| && |multiset(listed)| == |listed|;
    assert listed !! active;
    assert |listed + active| == |listed| + |active|;
    FewerThan(listed + active, |slots|);
    assert forall k :: 0 <= k < |slots| && slots[k].Free? ==> k in listed + active;
  }

  lemma PassedIsWellFormed(v: View, seats: nat, nextSequence: nat, payout: U64) returns (free: seq<nat>)
    requires Shaped(v) && BookPasses(v, seats, nextSequence, payout)
    requires 0 < |v.slots| <= MAX_ORDERS && SoundSlots(v.slots, payout)
    requires Padded(v.bids, v.bidLen) && Padded(v.asks, v.askLen)
    ensures WellFormed(v, free, payout)
  {
    free :| FreeList(v.slots, v.freeHead, free);
    FreeListIsOk(v.slots, v.freeHead, free);
    PassedHeapIsOk(v, seats, nextSequence, Bid, payout);
    PassedHeapIsOk(v, seats, nextSequence, Ask, payout);
  }

  lemma WellFormedPasses(v: View, free: seq<nat>, seats: nat, nextSequence: nat, payout: U64)
    requires WellFormed(v, free, payout)
    requires forall o <- SidesOf(v).All() :: o.owner < seats && o.id < nextSequence
    ensures Shaped(v) && BookPasses(v, seats, nextSequence, payout)
  {
    OkHeapPasses(v.slots, v.bids, v.bidLen, Bid, payout);
    OkHeapPasses(v.slots, v.asks, v.askLen, Ask, payout);
    HeapMembers(v.slots, v.bids, v.bidLen, Bid, payout);
    HeapMembers(v.slots, v.asks, v.askLen, Ask, payout);
    ActiveIsBothSides(v.slots);
    assert FreeList(v.slots, v.freeHead, free);
    forall k | 0 <= k < |v.slots| && v.slots[k].Live? ensures LooksLive(v.slots[k].order, seats, nextSequence, payout) {
      assert LiveOn(v.slots, k, v.slots[k].order.intent.Side());
      assert v.slots[k].order in SidesOf(v).All();
    }
  }

  // ---------- Reserves, by slots and by orders ----------

  ghost function OrdersIn(slots: seq<Slot>): set<Order> {
    set k | 0 <= k < |slots| && slots[k].Live? :: slots[k].order
  }

  lemma OrdersInAreSides(v: View)
    ensures OrdersIn(v.slots) == SidesOf(v).All()
  {
    forall k | 0 <= k < |v.slots| && v.slots[k].Live? ensures v.slots[k].order in SidesOf(v).All() {
      assert LiveOn(v.slots, k, v.slots[k].order.intent.Side());
    }
  }

  lemma NeedIsReserve(o: Order, payout: U64, feeBps: nat)
    requires Sound(o, payout) && feeBps <= Fees.MAX_FEE_BPS
    ensures AtRate(feeBps)(o).Ok? && AsHold(AtRate(feeBps)(o).value) == NeedAt(feeBps)(o)
  {
    SoundReserve(o, payout, feeBps);
  }

  /** The sum over slots is the sum over orders. */
  lemma {:induction false} DueIsHeld(slots: seq<Slot>, owner: nat, reserve: Reserver, need: Needs)
    requires forall k :: 0 <= k < |slots| && slots[k].Live? ==>
               reserve(slots[k].order).Ok? && AsHold(reserve(slots[k].order).value) == need(slots[k].order)
    requires forall j, k ::
               0 <= j < k < |slots| && slots[j].Live? && slots[k].Live? ==> slots[j].order.id != slots[k].order.id
    ensures Due(slots, owner, need) == Held(OrdersIn(slots), owner, reserve)
  {
    if slots == [] {
      assert OrdersIn(slots) == {};
    } else {
      var n := |slots| - 1;
      var before := slots[..n];
      DueIsHeld(before, owner, reserve, need);
      OrdersInNext(before, slots[n]);
      assert slots == before + [slots[n]];
      if slots[n].Live? {
        assert OrdersIn(slots) == OrdersIn(before) + {slots[n].order};
        HeldWith(OrdersIn(before), slots[n].order, owner, reserve);
        assert reserve(slots[n].order).Ok? && AsHold(reserve(slots[n].order).value) == need(slots[n].order);
      } else {
        assert OrdersIn(slots) == OrdersIn(before);
      }
    }
  }

  lemma OrdersInNext(before: seq<Slot>, last: Slot)
    ensures OrdersIn(before + [last]) == OrdersIn(before) + (if last.Live? then {last.order} else {})
  {
    var slots := before + [last];
    assert slots[|before|] == last && forall k :: 0 <= k < |before| ==> slots[k] == before[k];
  }

  lemma DueIsReserved(v: View, owner: nat, payout: U64, feeBps: nat)
    requires SlotsOk(v.slots, payout) && feeBps <= Fees.MAX_FEE_BPS
    ensures Due(v.slots, owner, NeedAt(feeBps)) == Held(SidesOf(v).All(), owner, AtRate(feeBps))
  {
    forall k | 0 <= k < |v.slots| && v.slots[k].Live?
      ensures AtRate(feeBps)(v.slots[k].order).Ok?
      ensures AsHold(AtRate(feeBps)(v.slots[k].order).value) == NeedAt(feeBps)(v.slots[k].order)
    {
      NeedIsReserve(v.slots[k].order, payout, feeBps);
    }
    DueIsHeld(v.slots, owner, AtRate(feeBps), NeedAt(feeBps));
    OrdersInAreSides(v);
  }

  lemma SeatsPassIffBacked(v: View, l: Funds, payout: U64, feeBps: nat)
    requires SlotsOk(v.slots, payout) && feeBps <= Fees.MAX_FEE_BPS && |l.seats| <= SEAT_CAPACITY
    requires forall o <- SidesOf(v).All() :: o.owner < |l.seats|
    ensures SeatsPass(v.slots, l.seats, NeedAt(feeBps)) && Escrow.InBalance(l, payout) <==>
            AtRest(l, SidesOf(v).All(), payout, AtRate(feeBps))
  {
    forall i | 0 <= i < |l.seats|
      ensures Due(v.slots, i, NeedAt(feeBps)) == Owed(SidesOf(v).All(), i, SEAT_CAPACITY, Nothing(), AtRate(feeBps))
    {
      DueIsReserved(v, i, payout, feeBps);
    }
  }

  /**
   The check is exact. A market within the program's own limits passes if and only if its book
   is well formed, its identifiers are below the next one, and its ledger is backed by exactly
   the orders that rest.
   */
  lemma PassesExactly(v: View, l: Funds, nextSequence: nat, payout: U64, feeBps: nat)
    requires Shaped(v) && 0 < |v.slots| <= MAX_ORDERS && SoundSlots(v.slots, payout) && feeBps <= Fees.MAX_FEE_BPS
    requires Padded(v.bids, v.bidLen) && Padded(v.asks, v.askLen) && |l.seats| <= SEAT_CAPACITY
    ensures Passes(v, l, nextSequence, payout, NeedAt(feeBps)) <==>
            && (exists free :: WellFormed(v, free, payout))
            && (forall o <- SidesOf(v).All() :: o.owner < |l.seats| && o.id < nextSequence)
            && AtRest(l, SidesOf(v).All(), payout, AtRate(feeBps))
  {
    OrdersInAreSides(v);
    if BookPasses(v, |l.seats|, nextSequence, payout) {
      var free := PassedIsWellFormed(v, |l.seats|, nextSequence, payout);
      assert forall o <- SidesOf(v).All() :: o.owner < |l.seats| && o.id < nextSequence;
      SeatsPassIffBacked(v, l, payout, feeBps);
    } else if free :| WellFormed(v, free, payout) {
      if forall o <- SidesOf(v).All() :: o.owner < |l.seats| && o.id < nextSequence {
        WellFormedPasses(v, free, |l.seats|, nextSequence, payout);
      }
    }
  }

  /** So every market passes, whatever has been placed, canceled, cleaned up, deposited or withdrawn. */
  lemma MarketPasses(m: Exchange.Market)
    requires m.Valid()
    ensures Shaped(m.book.Layout())
    ensures Passes(m.book.Layout(), m.Money(), m.book.nextSequence, m.book.payout, NeedAt(m.book.feeBps))
  {
    var v, l := m.book.Layout(), m.Money();
    WellFormedPasses(v, m.book.free, |l.seats|, m.book.nextSequence, m.book.payout);
    SeatsPassIffBacked(v, l, m.book.payout, m.book.feeBps);
  }
}
