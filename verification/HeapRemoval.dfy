/**
 Removing one resting order from anywhere in its heap. The plan reads only the stored
 cells, never its own patches; that this is enough is part of what is proved.
 */
module HeapRemoval {
  import opened Wrappers
  import opened Words
  import opened Orders
  import opened Matching
  import opened Heap
  import opened Slab

  datatype CellPatch = CellPatch(index: nat, before: nat, after: nat)

  /** A removal writes the emptied tail cell, a path of at most ten cells, and the final hole. */
  const MAX_PATCHES := 12

  /** The cells after the patches are written in order. */
  function Apply(cells: seq<nat>, patches: seq<CellPatch>): (after: seq<nat>)
    requires forall p <- patches :: p.index < |cells|
    ensures |after| == |cells|
  {
    if patches == [] then cells else
    var last := patches[|patches| - 1];
    Apply(cells, patches[..|patches| - 1])[last.index := last.after]
  }

  lemma ApplyAppend(cells: seq<nat>, patches: seq<CellPatch>, p: CellPatch)
    requires p.index < |cells| && forall q <- patches :: q.index < |cells|
    ensures Apply(cells, patches + [p]) == Apply(cells, patches)[p.index := p.after]
  {
    assert (patches + [p])[..|patches|] == patches;
  }

  /** Each patch names a cell of its own and remembers what was stored there. */
  ghost predicate Faithful(cells: seq<nat>, patches: seq<CellPatch>) {
    && (forall i :: 0 <= i < |patches| ==> patches[i].index < |cells| && patches[i].before == cells[patches[i].index])
    && (forall i, j :: 0 <= i < j < |patches| ==> patches[i].index != patches[j].index)
  }

  /** `first` up to but excluding `beyond` has not been written yet. */
  ghost predicate Untouched(patches: seq<CellPatch>, first: int, beyond: int) {
    forall i :: 0 <= i < |patches| ==> !(first <= patches[i].index < beyond)
  }

  lemma {:induction false} UntouchedCell(cells: seq<nat>, patches: seq<CellPatch>, i: nat)
    requires i < |cells| && forall p <- patches :: p.index < |cells|
    requires forall p <- patches :: p.index != i
    ensures Apply(cells, patches)[i] == cells[i]
    decreases |patches|
  {
    if patches != [] {
      UntouchedCell(cells, patches[..|patches| - 1], i);
    }
  }

  lemma UntouchedCells(cells: seq<nat>, patches: seq<CellPatch>, first: int, beyond: int)
    requires Faithful(cells, patches) && Untouched(patches, first, beyond) && 0 <= first && beyond <= |cells|
    ensures forall i :: first <= i < beyond ==> Apply(cells, patches)[i] == cells[i]
  {
    forall i | first <= i < beyond ensures Apply(cells, patches)[i] == cells[i] {
      UntouchedCell(cells, patches, i);
    }
  }

  predicate BetterIn(slots: seq<Slot>, a: nat, b: nat, payout: U64)
    requires a < |slots| && b < |slots| && slots[a].Live? && slots[b].Live?
  {
    Better(slots[a].order, slots[b].order, payout)
  }

  /** What the repair relies on: the stored entries are live, ranked by `keys`, and an ordered heap. */
  ghost predicate Stored(slots: seq<Slot>, heap: seq<nat>, n: nat, side: Side, members: set<nat>, keys: seq<int>,
                         payout: U64) {
    && n < |heap| == |slots| <= MAX_ORDERS
    && AllIn(heap[..n + 1], members) && InRange(heap[..n + 1], keys) && Ordered(heap[..n + 1], keys)
    && (forall k <- members :: LiveOn(slots, k, side))
    && Ranks(slots, payout, keys)
    && (forall i :: n < i < |heap| ==> heap[i] == NONE)
  }

  /** The state of a repair: the patched cells with `x` in the hole are `entries`. */
  ghost predicate Repairing(heap: seq<nat>, patches: seq<CellPatch>, n: nat, x: nat, hole: nat, entries: seq<nat>) {
    && Faithful(heap, patches)
    && n < |heap|
    && Holed(Apply(heap, patches), n, hole, x, entries)
    && Apply(heap, patches)[n..] == heap[n := NONE][n..]
  }

  lemma EntryAt(slots: seq<Slot>, heap: seq<nat>, n: nat, side: Side, members: set<nat>, keys: seq<int>, payout: U64,
                i: nat)
    requires Stored(slots, heap, n, side, members, keys, payout) && i <= n
    ensures heap[i] in members && LiveOn(slots, heap[i], side)
  {
    assert heap[..n + 1][i] == heap[i];
  }

  /** One write of either loop: `from` moves into the hole. */
  lemma WriteCell(heap: seq<nat>, patches: seq<CellPatch>, hole: nat, value: nat)
    requires Faithful(heap, patches) && hole < |heap| && Untouched(patches, hole, hole + 1)
    ensures Faithful(heap, patches + [CellPatch(hole, heap[hole], value)])
    ensures Apply(heap, patches + [CellPatch(hole, heap[hole], value)]) == Apply(heap, patches)[hole := value]
  {
    ApplyAppend(heap, patches, CellPatch(hole, heap[hole], value));
  }

  /** The better child of the hole, read from the stored cells. */
  method BetterStoredChild(slots: seq<Slot>, heap: seq<nat>, n: nat, hole: nat, side: Side, payout: U64,
                           ghost patches: seq<CellPatch>, ghost entries: seq<nat>, ghost members: set<nat>,
                           ghost keys: seq<int>)
    returns (child: nat)
    requires Stored(slots, heap, n, side, members, keys, payout) && 2 * hole + 1 < n
    requires |entries| == n && InRange(entries, keys)
    requires forall i :: hole < i < n ==> entries[i] == heap[i]
    ensures BestChild(entries, keys, hole, child)
  {
    child := 2 * hole + 1;
    if child + 1 < n {
      EntryAt(slots, heap, n, side, members, keys, payout, child);
      EntryAt(slots, heap, n, side, members, keys, payout, child + 1);
      if BetterIn(slots, heap[child + 1], heap[child], payout) {
        child := child + 1;
      }
    }
  }

  /** Moves the better child of `hole` up if it beats `x`, or finds that `x` belongs in the hole. */
  method SinkStoredOnce(slots: seq<Slot>, heap: seq<nat>, n: nat, hole: nat, x: nat, side: Side, payout: U64,
                        patches: seq<CellPatch>, ghost entries: seq<nat>, ghost members: set<nat>, ghost keys: seq<int>)
    returns (next: nat, sunk: bool, longer: seq<CellPatch>, ghost moved: seq<nat>)
    requires Stored(slots, heap, n, side, members, keys, payout) && LiveOn(slots, x, side) && 2 * hole + 1 < n
    requires Repairing(heap, patches, n, x, hole, entries) && Untouched(patches, hole, n)
    requires InRange(entries, keys) && OrderedAbove(entries, keys, hole) && AllIn(entries, members)
    ensures Repairing(heap, longer, n, x, next, moved)
    ensures multiset(moved) == multiset(entries) && AllIn(moved, members) && InRange(moved, keys)
    ensures if sunk then
              next > 0 && Parent(next) == hole && |longer| == |patches| + 1 && Untouched(longer, next, n)
              && OrderedAbove(moved, keys, next)
            else next == hole && longer == patches && Ordered(moved, keys)
  {
    next, longer, moved := hole, patches, entries;
    UntouchedCells(heap, patches, hole, n);
    var child := BetterStoredChild(slots, heap, n, hole, side, payout, patches, entries, members, keys);
    EntryAt(slots, heap, n, side, members, keys, payout, child);
    assert entries[child] == heap[child] && entries[hole] == x;
    sunk := BetterIn(slots, heap[child], x, payout);
    if sunk {
      SinkRepairs(heap, patches, n, x, hole, child, entries, members, keys);
      next, moved := child, Swap(entries, hole, child);
      longer := patches + [CellPatch(hole, heap[hole], heap[child])];
    } else {
      DownStop(Apply(heap, patches), n, hole, x, entries, keys);
    }
  }

  lemma SinkRepairs(heap: seq<nat>, patches: seq<CellPatch>, n: nat, x: nat, hole: nat, child: nat,
                    entries: seq<nat>, members: set<nat>, keys: seq<int>)
    requires Repairing(heap, patches, n, x, hole, entries) && Untouched(patches, hole, n)
    requires InRange(entries, keys) && OrderedAbove(entries, keys, hole) && AllIn(entries, members)
    requires BestChild(entries, keys, hole, child) && keys[entries[child]] < keys[entries[hole]]
    requires Apply(heap, patches)[child] == heap[child]
    ensures var longer := patches + [CellPatch(hole, heap[hole], heap[child])];
            var moved := Swap(entries, hole, child);
            && Repairing(heap, longer, n, x, child, moved) && Untouched(longer, child, n)
            && multiset(moved) == multiset(entries) && AllIn(moved, members)
            && InRange(moved, keys) && OrderedAbove(moved, keys, child)
  {
    DownMove(Apply(heap, patches), n, hole, x, entries, keys, child, members);
    WriteCell(heap, patches, hole, heap[child]);
  }

  /** Sinks the hole from `index`; returns where `x` belongs. */
  method SinkFrom(slots: seq<Slot>, heap: seq<nat>, n: nat, index: nat, x: nat, side: Side, payout: U64,
                  start: seq<CellPatch>, ghost entries0: seq<nat>, ghost members: set<nat>, ghost keys: seq<int>)
    returns (patches: seq<CellPatch>, hole: nat, ghost entries: seq<nat>)
    requires Stored(slots, heap, n, side, members, keys, payout) && LiveOn(slots, x, side)
    requires Repairing(heap, start, n, x, index, entries0) && Untouched(start, index, n)
    requires InRange(entries0, keys) && OrderedAbove(entries0, keys, index) && AllIn(entries0, members)
    ensures Repairing(heap, patches, n, x, hole, entries) && Untouched(patches, hole, hole + 1)
    ensures multiset(entries) == multiset(entries0) && InRange(entries, keys) && Ordered(entries, keys)
    ensures |patches| <= |start| + Depth(hole)
  {
    patches, hole, entries := start, index, entries0;
    while 2 * hole + 1 < n
      invariant Repairing(heap, patches, n, x, hole, entries) && Untouched(patches, hole, n)
      invariant multiset(entries) == multiset(entries0) && AllIn(entries, members)
      invariant InRange(entries, keys) && OrderedAbove(entries, keys, hole)
      invariant |patches| <= |start| + Depth(hole)
      decreases n - hole
    {
      var next, sunk, longer, moved :=
        SinkStoredOnce(slots, heap, n, hole, x, side, payout, patches, entries, members, keys);
      if !sunk {
        entries := moved;
        return;
      }
      patches, hole, entries := longer, next, moved;
    }
    DownStop(Apply(heap, patches), n, hole, x, entries, keys);
  }

  /** Moves the parent of `hole` down if `x` beats it, or finds that `x` belongs in the hole. */
  method RaiseStoredOnce(slots: seq<Slot>, heap: seq<nat>, n: nat, hole: nat, x: nat, side: Side, payout: U64,
                         patches: seq<CellPatch>, ghost entries: seq<nat>, ghost members: set<nat>,
                         ghost keys: seq<int>)
    returns (next: nat, raised: bool, longer: seq<CellPatch>, ghost moved: seq<nat>)
    requires Stored(slots, heap, n, side, members, keys, payout) && LiveOn(slots, x, side) && hole > 0
    requires Repairing(heap, patches, n, x, hole, entries) && Untouched(patches, 0, hole + 1)
    requires InRange(entries, keys) && OrderedBelow(entries, keys, hole) && AllIn(entries, members)
    ensures Repairing(heap, longer, n, x, next, moved)
    ensures multiset(moved) == multiset(entries) && AllIn(moved, members) && InRange(moved, keys)
    ensures if raised then
              next == Parent(hole) && |longer| == |patches| + 1 && Untouched(longer, 0, next + 1)
              && OrderedBelow(moved, keys, next)
            else next == hole && longer == patches && Ordered(moved, keys)
  {
    next, longer, moved := hole, patches, entries;
    var parent := Parent(hole);
    UntouchedCells(heap, patches, 0, hole + 1);
    EntryAt(slots, heap, n, side, members, keys, payout, parent);
    assert entries[parent] == heap[parent] && entries[hole] == x;
    raised := BetterIn(slots, x, heap[parent], payout);
    if raised {
      RaiseRepairs(heap, patches, n, x, hole, entries, members, keys);
      next, moved := parent, Swap(entries, hole, parent);
      longer := patches + [CellPatch(hole, heap[hole], heap[parent])];
    } else {
      UpStop(Apply(heap, patches), n, hole, x, entries, keys);
    }
  }

  lemma RaiseRepairs(heap: seq<nat>, patches: seq<CellPatch>, n: nat, x: nat, hole: nat, entries: seq<nat>,
                     members: set<nat>, keys: seq<int>)
    requires Repairing(heap, patches, n, x, hole, entries) && Untouched(patches, 0, hole + 1) && hole > 0
    requires InRange(entries, keys) && OrderedBelow(entries, keys, hole) && AllIn(entries, members)
    requires keys[entries[hole]] < keys[entries[Parent(hole)]]
    requires Apply(heap, patches)[Parent(hole)] == heap[Parent(hole)]
    ensures var longer := patches + [CellPatch(hole, heap[hole], heap[Parent(hole)])];
            var moved := Swap(entries, hole, Parent(hole));
            && Repairing(heap, longer, n, x, Parent(hole), moved) && Untouched(longer, 0, Parent(hole) + 1)
            && multiset(moved) == multiset(entries) && AllIn(moved, members)
            && InRange(moved, keys) && OrderedBelow(moved, keys, Parent(hole))
  {
    UpMove(Apply(heap, patches), n, hole, x, entries, keys, members);
    MovedDown(heap, patches, n, x, hole, Parent(hole), entries, Swap(entries, hole, Parent(hole)));
  }

  /** The write of the up loop, as far as the stored cells are concerned. */
  lemma MovedDown(heap: seq<nat>, patches: seq<CellPatch>, n: nat, x: nat, hole: nat, from_: nat, entries: seq<nat>,
                  moved: seq<nat>)
    requires Repairing(heap, patches, n, x, hole, entries) && Untouched(patches, 0, hole + 1) && from_ < hole < n
    requires Apply(heap, patches)[from_] == heap[from_]
    requires Holed(Apply(heap, patches)[hole := Apply(heap, patches)[from_]], n, from_, x, moved)
    ensures var longer := patches + [CellPatch(hole, heap[hole], heap[from_])];
            Repairing(heap, longer, n, x, from_, moved) && Untouched(longer, 0, from_ + 1)
  {
    var cells := Apply(heap, patches);
    WriteCell(heap, patches, hole, heap[from_]);
    assert cells[hole := heap[from_]][n..] == cells[n..];
  }

  /** Raises the hole from `index`; returns where `x` belongs. */
  method RaiseFrom(slots: seq<Slot>, heap: seq<nat>, n: nat, index: nat, x: nat, side: Side, payout: U64,
                   start: seq<CellPatch>, ghost entries0: seq<nat>, ghost members: set<nat>, ghost keys: seq<int>)
    returns (patches: seq<CellPatch>, hole: nat, ghost entries: seq<nat>)
    requires Stored(slots, heap, n, side, members, keys, payout) && LiveOn(slots, x, side)
    requires Repairing(heap, start, n, x, index, entries0) && Untouched(start, 0, index + 1)
    requires InRange(entries0, keys) && OrderedBelow(entries0, keys, index) && AllIn(entries0, members)
    ensures Repairing(heap, patches, n, x, hole, entries) && Untouched(patches, hole, hole + 1)
    ensures multiset(entries) == multiset(entries0) && InRange(entries, keys) && Ordered(entries, keys)
    ensures |patches| + Depth(hole) <= |start| + Depth(index)
  {
    patches, hole, entries := start, index, entries0;
    while hole > 0
      invariant Repairing(heap, patches, n, x, hole, entries) && Untouched(patches, 0, hole + 1)
      invariant multiset(entries) == multiset(entries0) && AllIn(entries, members)
      invariant InRange(entries, keys) && OrderedBelow(entries, keys, hole)
      invariant |patches| + Depth(hole) <= |start| + Depth(index)
    {
      var next, raised, longer, moved :=
        RaiseStoredOnce(slots, heap, n, hole, x, side, payout, patches, entries, members, keys);
      if !raised {
        entries := moved;
        return;
      }
      patches, hole, entries := longer, next, moved;
    }
    UpStop(Apply(heap, patches), n, hole, x, entries, keys);
  }

  /** Plans the removal of the entry at `index`, repairing up or down as the last entry requires. */
  method PlanRemoval(slots: seq<Slot>, heap: seq<nat>, n: nat, index: nat, side: Side, payout: U64,
                     ghost members: set<nat>, ghost keys: seq<int>)
    returns (patches: seq<CellPatch>)
    requires Stored(slots, heap, n, side, members, keys, payout) && index <= n
    ensures Faithful(heap, patches) && |patches| <= MAX_PATCHES
    ensures HeapRepaired(heap, n, index, Apply(heap, patches), keys, NONE)
  {
    var last := heap[n];
    patches := [CellPatch(n, last, NONE)];
    ApplyAppend(heap, [], patches[0]);
    assert [] + patches == patches;
    if index == n {
      RepairedHeap(heap, n, index, Apply(heap, patches), keys, NONE);
      return;
    }
    ghost var start := WithoutEntry(heap[..n + 1], index);
    EntryAt(slots, heap, n, side, members, keys, payout, n);
    WithoutEntryElements(heap[..n + 1], index, members);
    WithoutEntryOrder(heap[..n + 1], keys, index);
    HoleAfterRemoval(heap, n, index, NONE);
    var hole: nat;
    ghost var entries;
    var upward := false;
    if index > 0 {
      EntryAt(slots, heap, n, side, members, keys, payout, Parent(index));
      upward := BetterIn(slots, last, heap[Parent(index)], payout);
    }
    if upward {
      BookDepth(index);
      patches, hole, entries := RaiseFrom(slots, heap, n, index, last, side, payout, patches, start, members, keys);
    } else {
      patches, hole, entries := SinkFrom(slots, heap, n, index, last, side, payout, patches, start, members, keys);
      BookDepth(hole);
    }
    FinishRepair(heap, patches, n, index, last, hole, entries, keys);
    patches := patches + [CellPatch(hole, heap[hole], last)];
  }

  /** The final write closes the hole. */
  lemma FinishRepair(heap: seq<nat>, patches: seq<CellPatch>, n: nat, index: nat, x: nat, hole: nat, entries: seq<nat>,
                     keys: seq<int>)
    requires index < n < |heap| && Repairing(heap, patches, n, x, hole, entries) && Untouched(patches, hole, hole + 1)
    requires InRange(heap[..n + 1], keys) && Ordered(heap[..n + 1], keys)
    requires forall i :: n < i < |heap| ==> heap[i] == NONE
    requires multiset(entries) == multiset(WithoutEntry(heap[..n + 1], index))
    requires InRange(entries, keys) && Ordered(entries, keys)
    ensures var closed := patches + [CellPatch(hole, heap[hole], x)];
            Faithful(heap, closed) && HeapRepaired(heap, n, index, Apply(heap, closed), keys, NONE)
  {
    WriteCell(heap, patches, hole, x);
    PlaceLast(Apply(heap, patches), n, heap[n := NONE][n..], x, hole, entries, WithoutEntry(heap[..n + 1], index),
      keys);
    RepairedHeap(heap, n, index, Apply(heap, patches)[hole := x], keys, NONE);
  }
}
