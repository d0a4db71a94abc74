/**
 Binary heaps of slot numbers, ordered by one key per slot. The sift loops move a hole;
 these lemmas speak about the heap with the moving element put back into its hole.
 */
module Heap {

  /** Parent position in the array layout. */
  function Parent(i: nat): nat
    requires i > 0
  {
    (i - 1) / 2
  }

  ghost predicate InRange(heap: seq<nat>, key: seq<int>) {
    forall i :: 0 <= i < |heap| ==> heap[i] < |key|
  }

  /** The local check: no entry is better than its parent. */
  ghost predicate Ordered(heap: seq<nat>, key: seq<int>)
    requires InRange(heap, key)
  {
    forall i {:trigger Parent(i)} :: 0 < i < |heap| ==> key[heap[Parent(i)]] <= key[heap[i]]
  }

  /** Ordered apart from what is below `hole`, whose children are no better than its parent. */
  ghost predicate OrderedAbove(heap: seq<nat>, key: seq<int>, hole: nat)
    requires InRange(heap, key)
  {
    && hole < |heap|
    && (forall i {:trigger Parent(i)} :: 0 < i < |heap| && Parent(i) != hole ==> key[heap[Parent(i)]] <= key[heap[i]])
    && (hole > 0 ==> forall i {:trigger Parent(i)} ::
          0 < i < |heap| && Parent(i) == hole ==> key[heap[Parent(hole)]] <= key[heap[i]])
  }

  /** Ordered apart from the pair of `hole` and its parent. */
  ghost predicate OrderedBelow(heap: seq<nat>, key: seq<int>, hole: nat)
    requires InRange(heap, key)
  {
    && hole < |heap|
    && (forall i {:trigger Parent(i)} :: 0 < i < |heap| && i != hole ==> key[heap[Parent(i)]] <= key[heap[i]])
    && (hole > 0 ==> forall i {:trigger Parent(i)} ::
          0 < i < |heap| && Parent(i) == hole ==> key[heap[Parent(hole)]] <= key[heap[i]])
  }

  function Swap(heap: seq<nat>, i: nat, j: nat): (swapped: seq<nat>)
    requires i < |heap| && j < |heap|
    ensures |swapped| == |heap|
  {
    heap[i := heap[j]][j := heap[i]]
  }

  lemma SwapKeepsElements(heap: seq<nat>, i: nat, j: nat)
    requires i < |heap| && j < |heap| && i != j
    ensures multiset(Swap(heap, i, j)) == multiset(heap)
  {
  }

  /** Local order is global order: the root is best. */
  lemma {:induction false} RootIsBest(heap: seq<nat>, key: seq<int>, i: nat)
    requires InRange(heap, key) && Ordered(heap, key) && i < |heap|
    ensures key[heap[0]] <= key[heap[i]]
    decreases i
  {
    if i > 0 {
      RootIsBest(heap, key, Parent(i));
    }
  }

  lemma DownStep(heap: seq<nat>, key: seq<int>, hole: nat, child: nat)
    requires InRange(heap, key) && OrderedAbove(heap, key, hole)
    requires 0 < child < |heap| && Parent(child) == hole
    requires forall i {:trigger Parent(i)} :: 0 < i < |heap| && Parent(i) == hole ==> key[heap[child]] <= key[heap[i]]
    requires key[heap[child]] <= key[heap[hole]]
    ensures InRange(Swap(heap, hole, child), key) && OrderedAbove(Swap(heap, hole, child), key, child)
  {
    var swapped := Swap(heap, hole, child);
    forall i | 0 < i < |swapped| && Parent(i) != child
      ensures key[swapped[Parent(i)]] <= key[swapped[i]]
    {
      if Parent(i) != hole && i != hole {
        assert swapped[i] == heap[i] && swapped[Parent(i)] == heap[Parent(i)];
      }
    }
  }

  lemma DownDone(heap: seq<nat>, key: seq<int>, hole: nat)
    requires InRange(heap, key) && OrderedAbove(heap, key, hole)
    requires forall i {:trigger Parent(i)} :: 0 < i < |heap| && Parent(i) == hole ==> key[heap[hole]] <= key[heap[i]]
    ensures Ordered(heap, key)
  {
  }

  lemma UpStep(heap: seq<nat>, key: seq<int>, hole: nat)
    requires InRange(heap, key) && OrderedBelow(heap, key, hole)
    requires hole > 0 && key[heap[hole]] <= key[heap[Parent(hole)]]
    ensures InRange(Swap(heap, hole, Parent(hole)), key)
    ensures OrderedBelow(Swap(heap, hole, Parent(hole)), key, Parent(hole))
  {
    var parent := Parent(hole);
    var swapped := Swap(heap, hole, parent);
    forall i | 0 < i < |swapped| && i != parent
      ensures key[swapped[Parent(i)]] <= key[swapped[i]]
    {
      if i != hole && Parent(i) != hole && Parent(i) != parent {
        assert swapped[i] == heap[i] && swapped[Parent(i)] == heap[Parent(i)];
      }
    }
  }

  lemma UpDone(heap: seq<nat>, key: seq<int>, hole: nat)
    requires InRange(heap, key) && OrderedBelow(heap, key, hole)
    requires hole > 0 ==> key[heap[Parent(hole)]] <= key[heap[hole]]
    ensures Ordered(heap, key)
  {
  }

  /** Putting any element at position `hole` of an ordered heap leaves it ordered around that position. */
  lemma ReplaceKeepsRest(heap: seq<nat>, key: seq<int>, hole: nat, x: nat)
    requires InRange(heap, key) && Ordered(heap, key) && hole < |heap| && x < |key|
    ensures InRange(heap[hole := x], key)
    ensures (hole == 0 || key[heap[Parent(hole)]] <= key[x]) ==> OrderedAbove(heap[hole := x], key, hole)
    ensures hole > 0 && key[x] <= key[heap[Parent(hole)]] ==> OrderedBelow(heap[hole := x], key, hole)
  {
    var placed := heap[hole := x];
    if hole > 0 {
      forall i | 0 < i < |heap| && Parent(i) == hole ensures key[heap[Parent(hole)]] <= key[heap[i]] {
        assert key[heap[Parent(hole)]] <= key[heap[hole]] <= key[heap[i]];
      }
    }
  }

  /** The last entry takes the place of the one at `index`. */
  function WithoutEntry(heap: seq<nat>, index: nat): (rest: seq<nat>)
    requires index + 1 < |heap|
    ensures |rest| == |heap| - 1
  {
    heap[..|heap| - 1][index := heap[|heap| - 1]]
  }

  lemma WithoutEntryElements(heap: seq<nat>, index: nat, members: set<nat>)
    requires index + 1 < |heap|
    ensures multiset(WithoutEntry(heap, index)) == multiset(heap) - multiset{heap[index]}
    ensures AllIn(heap, members) ==> AllIn(WithoutEntry(heap, index), members)
  {
    var n := |heap| - 1;
    assert heap == heap[..n] + [heap[n]];
    assert heap[..n][index] == heap[index];
    forall i | 0 <= i < n ensures AllIn(heap, members) ==> WithoutEntry(heap, index)[i] in members {
      assert i != index ==> WithoutEntry(heap, index)[i] == heap[i];
    }
  }

  lemma WithoutEntryOrder(heap: seq<nat>, key: seq<int>, index: nat)
    requires InRange(heap, key) && Ordered(heap, key) && index + 1 < |heap|
    ensures var rest := WithoutEntry(heap, index);
            var last := heap[|heap| - 1];
            && InRange(rest, key)
            && (index == 0 || key[heap[Parent(index)]] <= key[last] ==> OrderedAbove(rest, key, index))
            && (index > 0 && key[last] <= key[heap[Parent(index)]] ==> OrderedBelow(rest, key, index))
  {
    var n := |heap| - 1;
    PrefixOrdered(heap, key, n);
    if index > 0 { assert heap[..n][Parent(index)] == heap[Parent(index)]; }
    ReplaceKeepsRest(heap[..n], key, index, heap[n]);
  }

  lemma AppendKeepsRest(heap: seq<nat>, key: seq<int>, x: nat)
    requires InRange(heap, key) && Ordered(heap, key) && x < |key|
    ensures InRange(heap + [x], key) && OrderedBelow(heap + [x], key, |heap|)
  {
    var longer := heap + [x];
    forall i | 0 < i < |longer| && i != |heap| ensures key[longer[Parent(i)]] <= key[longer[i]] {
      assert longer[i] == heap[i] && longer[Parent(i)] == heap[Parent(i)];
    }
  }

  /** `heap` is the first `n` cells with the moving element `x` put into the hole. */
  predicate Holed(cells: seq<nat>, n: nat, hole: nat, x: nat, heap: seq<nat>): (holed: bool)
    ensures holed ==>
              && hole < n <= |cells| && |heap| == n && heap[hole] == x
              && forall i :: 0 <= i < n && i != hole ==> heap[i] == cells[i]
  {
    hole < n <= |cells| && heap == cells[..n][hole := x]
  }

  ghost predicate AllIn(heap: seq<nat>, members: set<nat>) {
    forall i :: 0 <= i < |heap| ==> heap[i] in members
  }

  /** No child of `hole` is better than the entry at `child`. */
  ghost predicate BestChild(heap: seq<nat>, key: seq<int>, hole: nat, child: nat)
    requires InRange(heap, key)
  {
    && (child == 2 * hole + 1 || child == 2 * hole + 2) && child < |heap|
    && key[heap[child]] <= key[heap[2 * hole + 1]]
    && (2 * hole + 2 < |heap| ==> key[heap[child]] <= key[heap[2 * hole + 2]])
  }

  /** Children in the array layout. */
  lemma ChildrenOf(n: nat, hole: nat)
    ensures forall i {:trigger Parent(i)} :: 0 < i < n && Parent(i) == hole ==> i == 2 * hole + 1 || i == 2 * hole + 2
  {
  }

  /** One write of the down loop: the better child moves into the hole. */
  lemma DownMove(cells: seq<nat>, n: nat, hole: nat, x: nat, heap: seq<nat>, key: seq<int>, child: nat,
                 members: set<nat>)
    requires AllIn(heap, members)
    requires Holed(cells, n, hole, x, heap) && InRange(heap, key) && OrderedAbove(heap, key, hole)
    requires BestChild(heap, key, hole, child) && key[heap[child]] < key[heap[hole]]
    ensures var moved := Swap(heap, hole, child);
            && Holed(cells[hole := cells[child]], n, child, x, moved)
            && InRange(moved, key) && OrderedAbove(moved, key, child) && AllIn(moved, members)
            && multiset(moved) == multiset(heap)
  {
    ChildrenOf(n, hole);
    assert heap[hole] == x && heap[child] == cells[child];
    forall i | 0 < i < |heap| && Parent(i) == hole ensures key[heap[child]] <= key[heap[i]] {
      assert heap[i] == cells[i];
    }
    DownStep(heap, key, hole, child);
    SwapKeepsElements(heap, hole, child);
  }

  /** The down loop may stop when no child is better than the moving element. */
  lemma DownStop(cells: seq<nat>, n: nat, hole: nat, x: nat, heap: seq<nat>, key: seq<int>)
    requires Holed(cells, n, hole, x, heap) && InRange(heap, key) && OrderedAbove(heap, key, hole)
    requires 2 * hole + 1 < n ==> exists child: nat ::
               BestChild(heap, key, hole, child) && key[heap[hole]] <= key[heap[child]]
    ensures Ordered(heap, key)
    ensures cells[hole := x][..n] == heap
  {
    ChildrenOf(n, hole);
    DownDone(heap, key, hole);
  }

  /** One write of the up loop: the parent moves into the hole. */
  lemma UpMove(cells: seq<nat>, n: nat, hole: nat, x: nat, heap: seq<nat>, key: seq<int>, members: set<nat>)
    requires AllIn(heap, members)
    requires Holed(cells, n, hole, x, heap) && InRange(heap, key) && OrderedBelow(heap, key, hole)
    requires hole > 0 && key[heap[hole]] <= key[heap[Parent(hole)]]
    ensures var moved := Swap(heap, hole, Parent(hole));
            && Holed(cells[hole := cells[Parent(hole)]], n, Parent(hole), x, moved)
            && InRange(moved, key) && OrderedBelow(moved, key, Parent(hole)) && AllIn(moved, members)
            && multiset(moved) == multiset(heap)
  {
    UpStep(heap, key, hole);
    SwapKeepsElements(heap, hole, Parent(hole));
  }

  lemma UpStop(cells: seq<nat>, n: nat, hole: nat, x: nat, heap: seq<nat>, key: seq<int>)
    requires Holed(cells, n, hole, x, heap) && InRange(heap, key) && OrderedBelow(heap, key, hole)
    requires hole > 0 ==> key[heap[Parent(hole)]] <= key[heap[hole]]
    ensures Ordered(heap, key)
    ensures cells[hole := x][..n] == heap
  {
    UpDone(heap, key, hole);
  }

  lemma PrefixOrdered(heap: seq<nat>, key: seq<int>, n: nat)
    requires InRange(heap, key) && Ordered(heap, key) && n <= |heap|
    ensures InRange(heap[..n], key) && Ordered(heap[..n], key)
  {
    forall i | 0 < i < n ensures key[heap[..n][Parent(i)]] <= key[heap[..n][i]] {
      assert heap[..n][i] == heap[i] && heap[..n][Parent(i)] == heap[Parent(i)];
    }
  }

  // ---------- Depth bounds the work of a sift ----------

  function Pow2(n: nat): nat {
    if n == 0 then 1 else 2 * Pow2(n - 1)
  }

  lemma {:induction false} Pow2Monotone(m: nat, n: nat)
    requires m <= n
    ensures Pow2(m) <= Pow2(n)
    decreases n
  {
    if m < n {
      Pow2Monotone(m, n - 1);
    }
  }

  /** Steps from a position up to the root. */
  function Depth(i: nat): nat {
    if i == 0 then 0 else 1 + Depth(Parent(i))
  }

  lemma {:induction false} DepthDoubles(i: nat)
    ensures Pow2(Depth(i)) <= i + 1
  {
    if i > 0 {
      DepthDoubles(Parent(i));
    }
  }

  /** Any of 2^(levels + 1) - 1 positions is at most `levels` steps from the root. */
  lemma DepthBound(i: nat, levels: nat)
    requires i + 1 < Pow2(levels + 1)
    ensures Depth(i) <= levels
  {
    DepthDoubles(i);
    if Depth(i) > levels {
      Pow2Monotone(levels + 1, Depth(i));
    }
  }

  /** The bounds of the 1024-slot book: ten steps from the last position, nine from any other. */
  lemma BookDepth(i: nat)
    requires i < 1_024
    ensures Depth(i) <= 10
    ensures i < 1_023 ==> Depth(i) <= 9
  {
    assert Pow2(10) == 1_024;
    DepthBound(i, 10);
    if i < 1_023 {
      DepthBound(i, 9);
    }
  }

  /** Clearing the last cell and letting its entry replace the one at `index` leaves a hole there. */
  lemma HoleAfterRemoval(cells: seq<nat>, n: nat, index: nat, none: nat)
    requires index < n < |cells|
    ensures Holed(cells[n := none], n, index, cells[n], WithoutEntry(cells[..n + 1], index))
  {
    assert cells[n := none][..n] == cells[..n] == cells[..n + 1][..n];
  }

  /** With the root taken out, the last entry is looking for its place from the root down. */
  lemma HoleAtRoot(cells: seq<nat>, n: nat, members: set<nat>, keys: seq<int>, none: nat)
    requires 0 < n < |cells| && AllIn(cells[..n + 1], members)
    requires InRange(cells[..n + 1], keys) && Ordered(cells[..n + 1], keys)
    ensures var start := WithoutEntry(cells[..n + 1], 0);
            && AllIn(start, members) && InRange(start, keys) && OrderedAbove(start, keys, 0)
            && Holed(cells[n := none], n, 0, cells[n], start)
  {
    WithoutEntryElements(cells[..n + 1], 0, members);
    WithoutEntryOrder(cells[..n + 1], keys, 0);
    HoleAfterRemoval(cells, n, 0, none);
  }

  /** The cells of a side of `n + 1` entries once the one at `index` is gone and the heap is in order again. */
  ghost predicate HeapRepaired(before: seq<nat>, n: nat, index: nat, cells: seq<nat>, keys: seq<int>, none: nat)
    requires index <= n < |before|
  {
    && |cells| == |before|
    && multiset(cells[..n]) == multiset(before[..n + 1]) - multiset{before[index]}
    && InRange(cells[..n], keys) && Ordered(cells[..n], keys)
    && forall i :: n <= i < |cells| ==> cells[i] == none
  }

  /** The first `n` cells are an ordered heap of the elements of `start`; the rest are `tail`. */
  ghost predicate Placed(cells: seq<nat>, n: nat, tail: seq<nat>, start: seq<nat>, keys: seq<int>) {
    && n <= |cells| && cells[n..] == tail
    && multiset(cells[..n]) == multiset(start)
    && InRange(cells[..n], keys) && Ordered(cells[..n], keys)
  }

  lemma PlaceLast(cells: seq<nat>, n: nat, tail: seq<nat>, x: nat, hole: nat, heap: seq<nat>, start: seq<nat>,
                  keys: seq<int>)
    requires Holed(cells, n, hole, x, heap) && cells[n..] == tail
    requires multiset(heap) == multiset(start) && InRange(heap, keys) && Ordered(heap, keys)
    ensures Placed(cells[hole := x], n, tail, start, keys)
  {
    assert cells[hole := x][..n] == heap;
  }

  lemma RepairedHeap(before: seq<nat>, n: nat, index: nat, cells: seq<nat>, keys: seq<int>, none: nat)
    requires index <= n < |before| == |cells|
    requires InRange(before[..n + 1], keys) && Ordered(before[..n + 1], keys)
    requires forall i :: n < i < |before| ==> before[i] == none
    requires if index == n then cells == before[n := none]
             else Placed(cells, n, before[n := none][n..], WithoutEntry(before[..n + 1], index), keys)
    ensures HeapRepaired(before, n, index, cells, keys, none)
  {
    var entries := before[..n + 1];
    if index < n {
      WithoutEntryElements(entries, index, {});
      forall i | n <= i < |cells| ensures cells[i] == none {
        assert cells[i] == cells[n..][i - n] == before[n := none][i];
      }
    } else {
      assert entries == cells[..n] + [before[n]];
      PrefixOrdered(entries, keys, n);
      assert cells[..n] == entries[..n];
    }
  }

  /** The cells of a side after `x` has joined its `n - 1` entries. */
  ghost predicate HeapGrown(before: seq<nat>, n: nat, x: nat, cells: seq<nat>, keys: seq<int>, none: nat)
    requires 0 < n <= |before|
  {
    && |cells| == |before|
    && multiset(cells[..n]) == multiset(before[..n - 1]) + multiset{x}
    && InRange(cells[..n], keys) && Ordered(cells[..n], keys)
    && forall i :: n <= i < |cells| ==> cells[i] == none
  }

  lemma GrownHeap(before: seq<nat>, n: nat, x: nat, cells: seq<nat>, keys: seq<int>, none: nat)
    requires 0 < n <= |before| == |cells|
    requires forall i :: n <= i < |before| ==> before[i] == none
    requires Placed(cells, n, before[n..], before[..n - 1] + [x], keys)
    ensures HeapGrown(before, n, x, cells, keys, none)
  {
    forall i | n <= i < |cells| ensures cells[i] == none {
      assert cells[i] == cells[n..][i - n] == before[i];
    }
  }

  /** A new last entry occupies the hole it is to rise from. */
  lemma HoleAfterAppend(cells: seq<nat>, n: nat, x: nat)
    requires 0 < n <= |cells|
    ensures Holed(cells, n, n - 1, x, cells[..n - 1] + [x])
  {
    assert cells[..n][n - 1 := x] == cells[..n - 1] + [x];
  }
}
