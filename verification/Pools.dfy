/** The two pools of kernel/lib/mem.c, pages and kernel virtual pages, as objects. */
module Pools {
  import opened BinIndex
  import opened BinMaps
  import opened Alignment
  import opened Blocks
  import opened BuddyLists

  // ---------------- max_order ----------------

  // the highest order whose blocks are no longer than length, or -1
  ghost predicate LongestOrder(length: nat, order: int) {
    && -1 <= order <= MAX_ORDER
    && (order >= 0 ==> Pow2(order) <= length)
    && (order < MAX_ORDER ==> Pow2(order + 1) > length)
  }

  // the highest order of a block that may start at index
  ghost predicate AlignedOrder(index: nat, order: int) {
    && 0 <= order <= MAX_ORDER && MultipleOf(index, Pow2(order))
    && (order < MAX_ORDER ==> !MultipleOf(index, Pow2(order + 1)))
  }

  method MaxOrderForLength(length: nat) returns (result: int)
    ensures LongestOrder(length, result)
  {
    hide Pow2;
    var order := 0;
    while order < ORDERS && Pow2(order) <= length
      invariant 0 <= order <= ORDERS && (order > 0 ==> Pow2(order - 1) <= length)
    {
      order := order + 1;
    }
    return order - 1;
  }

  method MaxOrderForIndex(index: nat) returns (result: int)
    ensures AlignedOrder(index, result)
  {
    hide Pow2, And;
    var order := 0;
    assert MultipleOf(index, Pow2(0)) by { Unit(index); }
    while order < ORDERS - 1 && And(Pow2(order), index) == 0
      invariant 0 <= order < ORDERS && MultipleOf(index, Pow2(order))
    {
      NextBit(index, order);
      order := order + 1;
    }
    if order < MAX_ORDER { NextBit(index, order); }
    return order;
  }

  lemma Unit(x: nat)
    ensures MultipleOf(x, Pow2(0))
  {}

  // the bit of an aligned index tells whether it is aligned to the next order, too
  lemma NextBit(x: nat, o: nat)
    requires MultipleOf(x, Pow2(o))
    ensures And(Pow2(o), x) == 0 <==> MultipleOf(x, Pow2(o + 1))
  {
    OneBit(x, o);
    BitIsHalf(x, o);
  }

  lemma {:induction false} OneBit(x: nat, o: nat)
    ensures And(Pow2(o), x) == 0 <==> !Bit(x, o)
  {
    if o > 0 {
      OneBit(x / 2, o - 1);
      assert Pow2(o) / 2 == Pow2(o - 1) && Pow2(o) % 2 == 0;
    } else {
      assert And(1, x) == x % 2 + 2 * And(0, x / 2);
    }
  }

  lemma {:induction false} BitIsHalf(x: nat, o: nat)
    requires MultipleOf(x, Pow2(o))
    ensures Bit(x, o) <==> !MultipleOf(x, Pow2(o + 1))
  {
    if o > 0 {
      HalfMultiple(x, Pow2(o - 1));
      HalfMultiple(x, Pow2(o));
      BitIsHalf(x / 2, o - 1);
    }
  }

  lemma HalfMultiple(x: nat, d: nat)
    requires d > 0
    ensures MultipleOf(x, 2 * d) <==> x % 2 == 0 && MultipleOf(x / 2, d)
  {
    HalveMod(x, d);
  }

  method MaxOrder(index: nat, length: nat) returns (result: int)
    requires length > 0
    ensures 0 <= result <= MAX_ORDER && Placed(index, result) && Pow2(result) <= length && Greedy(index, result, index + length)
  {
    hide Pow2, MultipleOf;
    var m1 := MaxOrderForLength(length);
    var m2 := MaxOrderForIndex(index);
    assert m1 >= 0 by { assert Pow2(0) == 1 by { Pow2Zero(); } }
    result := if m1 < m2 then m1 else m2;
    LowerOrder(index, result, m2);
    LongerOrder(result, m1);
  }

  lemma Pow2Zero()
    ensures Pow2(0) == 1
  {}

  lemma LongerOrder(o: nat, q: nat)
    requires o <= q
    ensures Pow2(o) <= Pow2(q)
  {
    Pow2Mono(o, q);
  }

  // a block of the next order would not fit at i, or not end by `to`
  ghost predicate Greedy(i: nat, o: nat, to: nat) {
    o < MAX_ORDER ==> !MultipleOf(i, Pow2(o + 1)) || i + Pow2(o + 1) > to
  }

  // ---------------- add_pages_to_pool ----------------

  predicate Lies(u: nat, from: nat, to: nat) { from <= u < to }

  function Range(from: nat, to: nat): set<nat> {
    set u: nat | u < to && Lies(u, from, to)
  }

  lemma AddBlock(lists: Lists, b: Blocks, live: set<nat>, units: set<nat>, i: nat, o: nat)
    requires PoolOk(lists, b, live, units) && Placed(i, o) && units !! Range(i, i + Pow2(o))
    ensures PoolOk(Append(lists, o, i), b[i := o], live, units + Range(i, i + Pow2(o))) && i !in b
  {
    assert |lists| == ORDERS;
    hide Tiled, ListsOk, Pow2, MultipleOf;
    Overlap(b, units, i, o);
    AddTiled(b, units, i, o);
    var b' := b[i := o];
    ListsOfFree(lists, b, live);
    AppendOk(lists, b - live, o, i);
    hide Append;
    assert (b - live)[i := o] == b' - live;
    ListsOfFree(Append(lists, o, i), b', live);
  }

  lemma AddTiled(b: Blocks, units: set<nat>, i: nat, o: nat)
    requires Tiled(b, units) && Placed(i, o) && forall j :: j in b ==> Separate(i, o, j, b[j]) && j != i
    ensures Tiled(b[i := o], units + Range(i, i + Pow2(o)))
  {
    hide Pow2, MultipleOf;
    var b' := b[i := o];
    forall j, k | j in b' && k in b' && j != k ensures Separate(j, b'[j], k, b'[k]) {
      if j != i { assert Separate(i, o, j, b[j]); }
      if k != i { assert Separate(i, o, k, b[k]); }
    }
    forall u ensures u in units + Range(i, i + Pow2(o)) <==> Covers(b', u) {
      if Covers(b, u) {
        var j :| j in b && Holds(b, j, u);
        assert Holds(b', j, u);
      }
      if u in Range(i, i + Pow2(o)) { assert Holds(b', i, u); }
      if Covers(b', u) {
        var j :| j in b' && Holds(b', j, u);
        assert j != i ==> Holds(b, j, u);
      }
    }
  }

  lemma Overlap(b: Blocks, units: set<nat>, i: nat, o: nat)
    requires Tiled(b, units) && units !! Range(i, i + Pow2(o))
    ensures forall j :: j in b ==> Separate(i, o, j, b[j]) && j != i
  {
    hide Tiled, Pow2;
    Pow2Positive(o);
    forall j | j in b ensures Separate(i, o, j, b[j]) && j != i {
      Pow2Positive(b[j]);
      var u := if j < i then i else j;
      if j <= u < j + Pow2(b[j]) { UnitsOf(b, units, j, u); }
      assert u in Range(i, i + Pow2(o)) <==> i <= u < i + Pow2(o);
    }
  }

  // the blocks b has beyond those of b0 were cut greedily from [from, to)
  ghost predicate Cut(b0: Blocks, b: Blocks, from: nat, index: nat, to: nat) {
    && (forall i :: i in b0 ==> i in b && b[i] == b0[i] && (from < to ==> i + Pow2(b0[i]) <= from || to <= i))
    && (forall i :: i in b && i !in b0 ==> from <= i && i + Pow2(b[i]) <= index && Greedy(i, b[i], to))
  }

  // Greedily cut blocks are coalesced, among themselves and with what was free before if
  // that does not touch the region.
  lemma CutCoalesced(b0: Blocks, b: Blocks, live: set<nat>, from: nat, to: nat)
    requires Tidy(b) && Coalesced(b0 - live) && live <= b0.Keys && Cut(b0, b, from, to, to)
    requires !Covers(b0 - live, from - 1) && !Covers(b0 - live, to)
    ensures Coalesced(b - live)
  {
    var f := b - live;
    forall i | i in f && f[i] < MAX_ORDER ensures !Mergeable(f, i, f[i]) {
      CutOne(b0, b, live, from, to, i);
    }
  }

  lemma CutOne(b0: Blocks, b: Blocks, live: set<nat>, from: nat, to: nat, i: nat)
    requires Tidy(b) && Coalesced(b0 - live) && live <= b0.Keys && Cut(b0, b, from, to, to) && i in b - live && b[i] < MAX_ORDER
    requires !Covers(b0 - live, from - 1) && !Covers(b0 - live, to)
    ensures !Mergeable(b - live, i, b[i])
  {
    hide Pow2, MultipleOf, Buddy, Without, Cut, Covers, Coalesced, Separate;
    var o := b[i];
    if Mergeable(b - live, i, o) {
      var j: nat := Buddy(i, o);
      assert Placed(i, o);
      Sides(i, o);
      Pow2Positive(o);
      var lo, hi := if Without(i, o) == i then i else j, if Without(i, o) == i then j else i;
      TwoNew(b0, b, live, from, to, lo, hi, o);
      OldPair(b0, live, i, o);
    }
  }

  lemma OldPair(b: Blocks, live: set<nat>, i: nat, o: nat)
    requires Coalesced(b - live)
    ensures i in b - live && b[i] == o < MAX_ORDER ==> !Mergeable(b - live, i, o)
  {
    assert i in b - live && b[i] == o < MAX_ORDER ==> (b - live)[i] == o;
  }

  // two neighbouring halves of a block cannot both be new, nor just one of them
  lemma TwoNew(b0: Blocks, b: Blocks, live: set<nat>, from: nat, to: nat, lo: nat, hi: nat, o: nat)
    requires Cut(b0, b, from, to, to) && live <= b0.Keys && lo in b - live && hi in b - live && b[lo] == o == b[hi] < MAX_ORDER
    requires hi == lo + Pow2(o) && MultipleOf(lo, Pow2(o + 1)) && Pow2(o) >= 1
    requires !Covers(b0 - live, from - 1) && !Covers(b0 - live, to)
    ensures lo in b0 && b0[lo] == o && hi in b0 && b0[hi] == o
  {
    assert Pow2(o + 1) == 2 * Pow2(o);
    hide Pow2, MultipleOf;
    assert lo !in b0 ==> Greedy(lo, o, to) && from < to;
    assert hi !in b0 ==> from < to;
    if hi in b0 { assert Holds(b0 - live, hi, hi); }
    if lo in b0 { assert Holds(b0 - live, lo, hi - 1); }
  }

  lemma PoolFacts(lists: Lists, b: Blocks, live: set<nat>, units: set<nat>)
    requires PoolOk(lists, b, live, units)
    ensures |lists| == ORDERS && live <= b.Keys && Tidy(b) && Tiled(b, units)
  {}

  lemma PlacedIs(i: nat, o: nat)
    requires Placed(i, o)
    ensures o <= MAX_ORDER && Pow2(o) >= 1
  {
    Pow2Positive(o);
  }

  lemma StartCut(b: Blocks, units: set<nat>, from: nat, to: nat)
    requires Tiled(b, units) && units !! Range(from, to) && from <= to
    ensures Cut(b, b, from, from, to)
  {
    hide Pow2, Tiled;
    forall i | i in b && from < to ensures i + Pow2(b[i]) <= from || to <= i {
      Pow2Positive(b[i]);
      var u := if i < from then from else i;
      if i <= u < i + Pow2(b[i]) { UnitsOf(b, units, i, u); }
      assert u in Range(from, to) <==> from <= u < to;
    }
  }

  lemma RestFree(units: set<nat>, from: nat, index: nat, next: nat, to: nat)
    requires units !! Range(from, to) && from <= index <= next <= to
    ensures (units + Range(from, index)) !! Range(index, next)
    ensures units + Range(from, index) + Range(index, next) == units + Range(from, next)
  {}

  lemma KeepCut(b0: Blocks, b: Blocks, from: nat, index: nat, o: nat, to: nat)
    requires Cut(b0, b, from, index, to) && index !in b && Greedy(index, o, to) && from <= index
    ensures Cut(b0, b[index := o], from, index + Pow2(o), to)
  {
    Pow2Positive(o);
  }

  lemma CutKept(b0: Blocks, b: Blocks, from: nat, to: nat, live: set<nat>)
    requires Cut(b0, b, from, to, to)
    ensures LiveKept(b0, b, live)
  {}

  lemma FirstFitStep(lists: Lists, k: nat)
    requires k < |lists| && lists[k] == []
    ensures FirstFit(lists, k) == FirstFit(lists, k + 1)
  {}

  lemma FirstFitStop(lists: Lists, k: nat)
    requires k <= |lists| && (k < |lists| ==> lists[k] != [])
    ensures FirstFit(lists, k) == k
  {}

  lemma SplitListsStep(lists: Lists, k: nat, o: nat)
    requires o < k < |lists| && lists[k] != []
    ensures var i := lists[k][0]; var l := lists[k := lists[k][1..]]; var j := Buddy(i, k - 1);
            SplitLists(lists, k, o) == SplitLists(Append(Append(l, k - 1, i), k - 1, j), k - 1, o)
  {
    var i := lists[k][0];
    var l := lists[k := lists[k][1..]];
    var j: nat := Buddy(i, k - 1);
    assert l[k - 1] + [i] + [j] == l[k - 1] + [i, j];
    assert Append(Append(l, k - 1, i), k - 1, j) == lists[k := lists[k][1..]][k - 1 := lists[k - 1] + [i, j]];
  }

  lemma SplitListsStop(lists: Lists, o: nat)
    requires o < |lists| && lists[o] != []
    ensures SplitLists(lists, o, o) == lists
  {}

  lemma FreeListsStep(lists: Lists, count: nat, i: nat, o: nat)
    requires |lists| == ORDERS && o < MAX_ORDER
    ensures FreeLists(lists, count, i, o) ==
            if Buddy(i, o) < count && Buddy(i, o) in lists[o]
            then FreeLists(Unlink(lists, Buddy(i, o)), count, Without(i, o), o + 1) else Append(lists, o, i)
  {}

  lemma FreeListsStop(lists: Lists, count: nat, i: nat, o: nat)
    requires |lists| == ORDERS && o < ORDERS
    ensures o == MAX_ORDER ==> FreeLists(lists, count, i, o) == Append(lists, o, i)
  {}

  lemma LiteralFreeStep(lists: Lists, count: nat, i: nat, o: nat)
    requires |lists| == ORDERS && o < MAX_ORDER
    ensures LiteralFree(lists, count, i, o) ==
            if Buddy(i, o) < count && Linked(lists, Buddy(i, o))
            then LiteralFree(Unlink(lists, Buddy(i, o)), count, Without(i, o), o + 1) else Append(lists, o, i)
  {}

  lemma LiteralFreeStop(lists: Lists, count: nat, i: nat, o: nat)
    requires |lists| == ORDERS && o < ORDERS
    ensures o == MAX_ORDER ==> LiteralFree(lists, count, i, o) == Append(lists, o, i)
  {}

  lemma EndingStep(lists: Lists, count: nat, i: nat, o: nat)
    requires |lists| == ORDERS && o < MAX_ORDER
    ensures Ending(lists, count, i, o) ==
            if Buddy(i, o) < count && Linked(lists, Buddy(i, o))
            then Ending(Unlink(lists, Buddy(i, o)), count, Without(i, o), o + 1) else (i, o)
  {}

  lemma EndingStop(lists: Lists, count: nat, i: nat)
    requires |lists| == ORDERS
    ensures Ending(lists, count, i, MAX_ORDER) == (i, MAX_ORDER)
  {}

  lemma WithoutLess(i: nat, o: nat)
    ensures Without(i, o) <= i
  {}

  // what heads a list is not allocated
  lemma Listed(lists: Lists, o: nat, i: nat, b: Blocks, live: set<nat>, units: set<nat>)
    requires PoolOk(lists, b, live, units) && o < |lists| && exists l: Lists :: |l| == |lists| && lists == Append(l, o, i)
    ensures i !in live
  {
    var l: Lists :| |l| == |lists| && lists == Append(l, o, i);
    assert lists[o] == l[o] + [i];
    assert lists[o][|l[o]|] == i;
    assert i in lists[o];
  }

  // vaddr_free does without the test of the buddy's number (line 287): in a pool whose size
  // is a multiple of the largest block every buddy exists
  lemma BuddyInRange(count: nat, i: nat, o: nat)
    requires MultipleOf(count, Pow2(MAX_ORDER)) && i < count && o < MAX_ORDER && MultipleOf(i, Pow2(o))
    ensures Buddy(i, o) < count
  {
    hide MultipleOf, Pow2, Buddy, Without;
    Sides(i, o);
    LowerOrder(count, o + 1, MAX_ORDER);
    Gap(Without(i, o), count, Pow2(o + 1));
    Halves(Without(i, o), o);
    Pow2Positive(o);
  }

  // the lists go on in ascending order, with numbers below `limit`
  ghost predicate GrownUp(lists: Lists, lists': Lists, limit: nat) {
    && |lists'| == |lists|
    && (forall k :: 0 <= k < |lists| ==> lists[k] <= lists'[k])
    && (forall k, i :: 0 <= k < |lists| && |lists[k]| <= i < |lists'[k]| ==> lists'[k][i] < limit)
    && (forall k, i, j :: 0 <= k < |lists| && |lists[k]| <= i < j < |lists'[k]| ==> lists'[k][i] < lists'[k][j])
  }

  lemma NotGrown(lists: Lists, limit: nat)
    ensures GrownUp(lists, lists, limit)
  {}

  lemma GrowsUp(lists: Lists, lists': Lists, o: nat, index: nat, limit: nat)
    requires GrownUp(lists, lists', index) && o < |lists'| && index < limit
    ensures GrownUp(lists, Append(lists', o, index), limit)
  {}

  class BuddyPool {
    const count: nat
    var lists: Lists           // the free lists
    const order: array<int>    // per unit; of an allocated block's first unit, its order
    const sameOrder: bool      // does freeing ask for a buddy of the same order? The source's does not
    // what the lists describe
    ghost var blocks: Blocks
    ghost var live: set<nat>
    ghost var units: set<nat>

    ghost predicate Valid()
      reads this, order
    {
      && order.Length == count && Below(units, count) && PoolOk(lists, blocks, live, units)
      && (forall i :: i in live && i < count ==> order[i] == blocks[i])
    }

    // no two free buddies that could be merged
    ghost predicate Whole()
      reads this
    {
      Coalesced(blocks - live)
    }

    constructor (n: nat, sameOrder: bool)
      ensures Valid() && Whole() && count == n && units == {} && live == {} && fresh(order) && this.sameOrder == sameOrder
    {
      count := n;
      this.sameOrder := sameOrder;
      lists := NoLists();
      order := new int[n](_ => -1);
      blocks := map[];
      live := {};
      units := {};
    }

    // add_pages_to_pool, add_vaddrs_to_pool: each list goes on with its new blocks, in the order
    // of their places.
    method AddToPool(from: nat, to: nat)
      requires Valid() && from <= to <= count && units !! Range(from, to)
      modifies this
      ensures Valid() && units == old(units) + Range(from, to) && live == old(live) && LiveKept(old(blocks), blocks, live)
      ensures Cut(old(blocks), blocks, from, to, to)
      ensures GrownUp(old(lists), lists, to)
      ensures old(Whole()) && !Covers(old(blocks - live), from - 1) && !Covers(old(blocks - live), to) ==> Whole()
    {
      hide GrownUp, PoolOk, Cut, Pow2, Placed, Coalesced, Covers, Greedy;
      PoolFacts(lists, blocks, live, units);
      NotGrown(lists, from);
      StartCut(blocks, units, from, to);
      var index := from;
      assert units == units + Range(from, index);
      while index < to
        invariant from <= index <= to && Valid() && live == old(live) && units == old(units) + Range(from, index)
        invariant Cut(old(blocks), blocks, from, index, to) && GrownUp(old(lists), lists, index)
      {
        var o := MaxOrder(index, to - index);
        PlacedIs(index, o);
        RestFree(old(units), from, index, index + Pow2(o), to);
        AddBlock(lists, blocks, live, units, index, o);
        KeepCut(old(blocks), blocks, from, index, o, to);
        PoolFacts(lists, blocks, live, units);
        GrowsUp(old(lists), lists, o, index, index + Pow2(o));
        lists := Append(lists, o, index);
        blocks := blocks[index := o];
        units := units + Range(index, index + Pow2(o));
        index := index + Pow2(o);
      }
      CutKept(old(blocks), blocks, from, to, live);
      PoolFacts(lists, blocks, live, units);
      if old(Whole()) && !Covers(old(blocks - live), from - 1) && !Covers(old(blocks - live), to) {
        CutCoalesced(old(blocks), blocks, live, from, to);
      }
    }

    // page_allocate, vaddr_allocate
    method Allocate(o: nat) returns (ok: bool, index: nat)
      requires Valid() && o <= ORDERS
      modifies this`lists, this`blocks, this`live, order
      ensures Valid() && (old(Whole()) ==> Whole())
      ensures o < ORDERS ==> AllocLists(old(lists), o) == Outcome(lists, if ok then Some(index) else None)
      ensures ok ==> o < ORDERS && index < count && index !in old(live) && live == old(live) + {index}
      ensures ok ==> index in blocks && blocks[index] == o && order[index] == o && LiveKept(old(blocks), blocks, old(live))
      ensures !ok ==> lists == old(lists) && blocks == old(blocks) && live == old(live) && order[..] == old(order[..])
      ensures forall i :: 0 <= i < count && !(ok && i == index) ==> order[i] == old(order[i])
    {
      hide PoolOk, Coalesced, Tiled, Pow2, AfterAlloc, SplitLists, FirstFit, Buddy, Below;
      PoolFacts(lists, blocks, live, units);
      ok, index := false, 0;
      var k := o;
      while k < ORDERS && lists[k] == []
        invariant o <= k <= ORDERS
        invariant FirstFit(lists, o) == FirstFit(lists, k) || o >= ORDERS
        modifies {}
      {
        FirstFitStep(lists, k);
        k := k + 1;
      }
      FirstFitStop(lists, k);
      if k == ORDERS {
        return;
      }
      ghost var first := k;
      assert AllocLists(lists, o).block.Some?;
      AllocOk(lists, blocks, live, units, o);
      ghost var lists0 := lists;
      while k > o
        invariant o <= k < ORDERS && |lists| == ORDERS && lists[k] != []
        invariant SplitLists(lists, k, o) == SplitLists(lists0, first, o)
        modifies `lists
      {
        SplitListsStep(lists, k, o);
        var i := lists[k][0];
        lists := lists[k := lists[k][1..]];
        k := k - 1;
        lists := Append(lists, k, i);
        lists := Append(lists, k, Buddy(i, k));
      }
      SplitListsStop(lists, o);
      index := lists[o][0];
      lists := lists[o := lists[o][1..]];
      blocks := AfterAlloc(blocks, index, o);
      live := live + {index};
      PoolFacts(lists, blocks, live, units);
      BlockBelow(blocks, units, count, index);
      order[index] := o;
      ok := true;
    }

    // the merging loop, with the test that the buddy heads a free block of the order reached
    method MergeBuddies(p: nat, o0: nat) returns (index: nat, o: nat)
      requires |lists| == ORDERS && o0 < ORDERS
      modifies this`lists
      ensures |lists| == ORDERS && o < ORDERS && index <= p
      ensures Append(lists, o, index) == FreeLists(old(lists), count, p, o0)
    {
      hide Buddy, Without, Unlink, FreeLists, PoolOk;
      index, o := p, o0;
      while o < MAX_ORDER
        invariant o < ORDERS && index <= p && |lists| == ORDERS
        invariant FreeLists(lists, count, index, o) == FreeLists(old(lists), count, p, o0)
        decreases ORDERS - o
      {
        FreeListsStep(lists, count, index, o);
        var buddy := Buddy(index, o);
        if buddy >= count {
          break;
        }
        if buddy !in lists[o] {
          break;
        }
        lists := Unlink(lists, buddy);
        WithoutLess(index, o);
        index := Without(index, o);
        o := o + 1;
      }
      FreeListsStop(lists, count, index, o);
    }

    // page_free, vaddr_free, with that test. Nothing happens to a unit whose order reads -1.
    method Free(p: nat)
      requires Valid() && p < count && (order[p] != -1 ==> p in live)
      modifies this`lists, this`blocks, this`live, order
      ensures Valid() && (old(Whole()) ==> Whole())
      ensures old(order[p]) == -1 ==> lists == old(lists) && blocks == old(blocks) && live == old(live)
      ensures old(order[p]) != -1 ==> live == old(live) - {p} && p in old(blocks) && old(blocks)[p] < ORDERS
      ensures old(order[p]) != -1 ==> lists == FreeLists(old(lists), count, p, old(blocks)[p])
      ensures LiveKept(old(blocks), blocks, live)
    {
      hide PoolOk, Coalesced, Tiled, Pow2, Merge, FreeLists, Below, Append;
      if order[p] == -1 {
        return;
      }
      PoolFacts(lists, blocks, live, units);
      assert blocks[p] < ORDERS by { assert Placed(p, blocks[p]); }
      FreeOk(lists, blocks, live, units, count, p);
      var index, o := MergeBuddies(p, order[p]);
      lists := Append(lists, o, index);
      blocks := Merge(blocks, live, p);
      live := live - {p};
      PoolFacts(lists, blocks, live, units);
      Listed(lists, o, index, blocks, live, units);
      order[index] := -1;
    }

    // the merging loop as it is: any free block at the buddy's number will do
    method MergeLiterally(p: nat, o0: nat) returns (index: nat, o: nat)
      requires |lists| == ORDERS && o0 < ORDERS
      modifies this`lists
      ensures |lists| == ORDERS && o < ORDERS && index <= p
      ensures Append(lists, o, index) == LiteralFree(old(lists), count, p, o0) && (index, o) == Ending(old(lists), count, p, o0)
    {
      hide Buddy, Without, Unlink, LiteralFree, Ending, Linked, PoolOk;
      index, o := p, o0;
      while o < MAX_ORDER
        invariant o < ORDERS && index <= p && |lists| == ORDERS
        invariant LiteralFree(lists, count, index, o) == LiteralFree(old(lists), count, p, o0)
        invariant Ending(lists, count, index, o) == Ending(old(lists), count, p, o0)
        decreases ORDERS - o
      {
        LiteralFreeStep(lists, count, index, o);
        EndingStep(lists, count, index, o);
        var buddy := Buddy(index, o);
        if buddy >= count {
          break;
        }
        if !Linked(lists, buddy) {
          break;
        }
        lists := Unlink(lists, buddy);
        WithoutLess(index, o);
        index := Without(index, o);
        o := o + 1;
      }
      LiteralFreeStop(lists, count, index, o);
      if o == MAX_ORDER { EndingStop(lists, count, index); }
    }

    // page_free, vaddr_free as they are. The pool stays well formed when the merging stops clean.
    method FreeLiterally(p: nat)
      requires Valid() && p < count && (order[p] != -1 ==> p in live)
      modifies this`lists, this`blocks, this`live, order
      ensures old(order[p]) == -1 ==> lists == old(lists) && Valid()
      ensures old(order[p]) != -1 ==> live == old(live) - {p} && p in old(blocks) && old(blocks)[p] < ORDERS
      ensures old(order[p]) != -1 ==> lists == LiteralFree(old(lists), count, p, old(blocks)[p])
      ensures old(order[p]) != -1 && StopsClean(old(lists), count, p, old(blocks)[p]) ==>
                Valid() && LiveKept(old(blocks), blocks, live) && (old(Whole()) ==> Whole())
      // only the unit the block ends up at is marked as free: p itself exactly when it ends there
      ensures old(order[p]) != -1 ==> var end := Ending(old(lists), count, p, old(blocks)[p]).0;
                (order[p] == -1 <==> end == p) && forall i :: 0 <= i < count ==> order[i] == if i == end then -1 else old(order[i])
      ensures old(order[p]) != -1 && Outcomes(lists, old(blocks), old(live), units, p) ==> StopsClean(old(lists), count, p, old(blocks)[p])
    {
      hide Outcomes, PoolOk, Coalesced, Tiled, Pow2, Merge, FreeLists, LiteralFree, StopsClean, Below, Append, Ending;
      if order[p] == -1 {
        return;
      }
      PoolFacts(lists, blocks, live, units);
      assert blocks[p] < ORDERS by { assert Placed(p, blocks[p]); }
      FreeOk(lists, blocks, live, units, count, p);
      LiteralFreeIff(lists, blocks, live, units, count, p);
      ghost var clean := StopsClean(lists, count, p, blocks[p]);
      if clean { CleanSame(lists, count, p, blocks[p]); }
      var index, o := MergeLiterally(p, order[p]);
      lists := Append(lists, o, index);
      ghost var live0 := live;
      live := live - {p};
      if clean {
        blocks := Merge(blocks, live0, p);
        PoolFacts(lists, blocks, live, units);
        Listed(lists, o, index, blocks, live, units);
      }
      order[index] := -1;
    }

    // freeing unit p keeps the pool well formed
    ghost predicate Clean(p: nat)
      reads this, order
    {
      sameOrder || |lists| != ORDERS || p !in blocks || blocks[p] >= ORDERS || StopsClean(lists, count, p, blocks[p])
    }

    // so would allocating a block of order o and freeing it again
    ghost predicate CleanAgain(o: nat)
      reads this
    {
      sameOrder || |lists| != ORDERS || o >= ORDERS ||
      (var got := AllocLists(lists, o); got.block.Some? ==> |got.lists| == ORDERS && StopsClean(got.lists, count, got.block.index, o))
    }

    // page_free, vaddr_free of an allocated block, in either form
    method Release(p: nat)
      requires Valid() && p < count && p in live && p in blocks
      modifies this`lists, this`blocks, this`live, order
      ensures live == old(live) - {p} && old(blocks)[p] < ORDERS
      ensures lists == if sameOrder then FreeLists(old(lists), count, p, old(blocks)[p]) else LiteralFree(old(lists), count, p, old(blocks)[p])
      ensures old(Clean(p)) ==> Valid() && (old(Whole()) ==> Whole()) && LiveKept(old(blocks), blocks, live)
      ensures old(Clean(p)) ==> lists == FreeLists(old(lists), count, p, old(blocks)[p])
      // and otherwise nothing describes the lists
      ensures Outcomes(lists, old(blocks), old(live), units, p) ==> old(Clean(p))
    {
      hide Outcomes, PoolOk, Coalesced, Tiled, Pow2, FreeLists, LiteralFree, StopsClean, Below, Whole;
      PoolFacts(lists, blocks, live, units);
      assert order[p] == blocks[p];
      assert blocks[p] < ORDERS by { assert Placed(p, blocks[p]); }
      if sameOrder {
        Free(p);
      } else {
        if Clean(p) { CleanSame(lists, count, p, blocks[p]); }
        FreeLiterally(p);
      }
    }
  }
}
