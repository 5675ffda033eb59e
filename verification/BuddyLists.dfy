/** The buddy allocators of kernel/lib/mem.c:94-132, 212-297: their free lists, one per order,
    as sequences of block numbers. */
module BuddyLists {
  import opened BinIndex
  import opened Alignment
  import opened Blocks

  const ORDERS: nat := 16                      // BUDDY_ORDER_LIMIT

  type Lists = seq<seq<nat>>

  // ---------------- lists ----------------

  function Drop(s: seq<nat>, x: nat): seq<nat> {
    if s == [] then [] else if s[0] == x then Drop(s[1..], x) else [s[0]] + Drop(s[1..], x)
  }

  predicate Distinct(s: seq<nat>) {
    forall i, j :: 0 <= i < j < |s| ==> s[i] != s[j]
  }

  lemma {:induction false} DropIs(s: seq<nat>, x: nat)
    ensures forall y :: y in Drop(s, x) <==> y in s && y != x
    ensures Distinct(s) ==> Distinct(Drop(s, x))
  {
    if s != [] {
      DropIs(s[1..], x);
      assert s == [s[0]] + s[1..];
      if Distinct(s) {
        assert s[0] !in s[1..];
      }
    }
  }

  // the order of the list x is on
  predicate Linked(lists: Lists, x: nat) {
    exists o :: 0 <= o < |lists| && x in lists[o]
  }

  function Where(lists: Lists, x: nat, o: nat): nat
    requires o <= |lists|
    decreases |lists| - o
  {
    if o == |lists| || x in lists[o] then o else Where(lists, x, o + 1)
  }

  lemma {:induction false} WhereIs(lists: Lists, x: nat, o: nat)
    requires o <= |lists| && forall k :: 0 <= k < o ==> x !in lists[k]
    ensures var w := Where(lists, x, o); if Linked(lists, x) then w < |lists| && x in lists[w] else w == |lists|
    decreases |lists| - o
  {
    if o < |lists| && x !in lists[o] { WhereIs(lists, x, o + 1); }
  }

  // list_remove
  function Unlink(lists: Lists, x: nat): (r: Lists)
    ensures |r| == |lists|
  {
    var w := Where(lists, x, 0);
    if w < |lists| then lists[w := Drop(lists[w], x)] else lists
  }

  function Append(lists: Lists, o: nat, x: nat): Lists
    requires o < |lists|
  {
    lists[o := lists[o] + [x]]
  }

  // the lists hold the free blocks, each by its order
  ghost predicate ListsOk(lists: Lists, b: Blocks, live: set<nat>) {
    && |lists| == ORDERS
    && (forall o, i :: 0 <= o < ORDERS ==> (i in lists[o] <==> i in b && i !in live && b[i] == o))
    && (forall o :: 0 <= o < ORDERS ==> Distinct(lists[o]))
  }

  lemma LinkedFree(lists: Lists, b: Blocks, live: set<nat>, x: nat)
    requires ListsOk(lists, b, live) && Tidy(b)
    ensures Linked(lists, x) <==> x in b && x !in live
  {
    if x in b && x !in live { assert Placed(x, b[x]) && x in lists[b[x]]; }
  }

  lemma UnlinkIs(lists: Lists, b: Blocks, live: set<nat>, x: nat)
    requires ListsOk(lists, b, live) && x in b && x !in live && b[x] < ORDERS
    ensures Unlink(lists, x) == lists[b[x] := Drop(lists[b[x]], x)]
  {
    assert x in lists[b[x]];
    WhereIs(lists, x, 0);
  }

  // ---------------- splitting: page_allocate ----------------

  // the loop that looks for a non-empty list
  function FirstFit(lists: Lists, o: nat): nat
    decreases |lists| - o
  {
    if o < |lists| && lists[o] == [] then FirstFit(lists, o + 1) else o
  }

  // the loop that splits the first block of list o until it has the order asked for
  function SplitLists(lists: Lists, o: nat, order: nat): (r: Lists)
    requires order <= o < |lists| && lists[o] != []
    ensures |r| == |lists| && r[order] != []
    decreases o
  {
    if o == order then lists else
      var i := lists[o][0];
      SplitLists(lists[o := lists[o][1..]][o - 1 := lists[o - 1] + [i, Buddy(i, o - 1)]], o - 1, order)
  }

  datatype Option = None | Some(index: nat)

  datatype Outcome = Outcome(lists: Lists, block: Option)

  function AllocLists(lists: Lists, order: nat): (r: Outcome)
    requires order < |lists|
    ensures |r.lists| == |lists|
  {
    var o := FirstFit(lists, order);
    if o >= |lists| then Outcome(lists, None) else
      FirstFitIs(lists, order);
      var l := SplitLists(lists, o, order);
      Outcome(l[order := l[order][1..]], Some(l[order][0]))
  }

  lemma {:induction false} FirstFitIs(lists: Lists, o: nat)
    requires o <= |lists|
    ensures var f := FirstFit(lists, o);
            && o <= f <= |lists| && (forall k :: o <= k < f ==> lists[k] == [])
            && (f < |lists| ==> lists[f] != [])
    decreases |lists| - o
  {
    if o < |lists| && lists[o] == [] { FirstFitIs(lists, o + 1); }
  }

  // the same on blocks
  function SplitDown(b: Blocks, i: nat, order: nat): Blocks
    requires i in b
    decreases b[i]
  {
    if b[i] <= order then b else SplitDown(SplitBlock(b, i), i, order)
  }

  lemma BuddyBack(x: nat, o: nat)
    requires MultipleOf(x, Pow2(o))
    ensures Buddy(x, o) >= 0 && Buddy(Buddy(x, o), o) == x && Buddy(x, o) != x && MultipleOf(Buddy(x, o), Pow2(o))
  {
    hide MultipleOf, Buddy, Without;
    Sides(x, o);
    Halves(Without(x, o), o);
    Pow2Positive(o);
  }

  // splitting i keeps the other free blocks coalesced
  lemma SplitCoalesced(b: Blocks, live: set<nat>, i: nat)
    requires Tidy(b) && i in b && b[i] > 0 && i in live && Coalesced(b - live)
    ensures Coalesced(SplitBlock(b, i) - live)
  {
    var f := b - live;
    hide Pow2, Buddy, MultipleOf, Coalesced;
    SplitHere(b, i);
    SplitFree(b, live, i);
    forall x | x in f ensures MultipleOf(x, Pow2(f[x])) { BlockPlaced(b, x); }
    hide Tidy, SplitBlock;
    StillCoalesced(f, SplitBlock(b, i) - live, i + Pow2(b[i] - 1), b[i] - 1, i);
  }

  // a block r more, whose buddy is allocated
  lemma StillCoalesced(f: Blocks, f': Blocks, r: nat, o: nat, i: nat)
    requires Coalesced(f) && (forall x :: x in f ==> MultipleOf(x, Pow2(f[x]))) && Buddy(r, o) == i && i !in f && i !in f'
    requires (r in f' ==> f'[r] == o) && forall y :: y in f' && y != r ==> y in f && f'[y] == f[y]
    ensures Coalesced(f')
  {
    hide Pow2, Buddy, MultipleOf, Mergeable;
    forall x | x in f' && f'[x] < MAX_ORDER ensures !Mergeable(f', x, f'[x]) {
      if x == r {
        HalfAlone(f', i, r, o);
      } else {
        StillAlone(f, f', x, f[x], r, o, i);
      }
    }
  }

  lemma SplitFree(b: Blocks, live: set<nat>, i: nat)
    requires i in b && b[i] > 0 && i in live
    ensures var f, f', r := b - live, SplitBlock(b, i) - live, i + Pow2(b[i] - 1);
            i !in f && i !in f' && (r in f' ==> f'[r] == b[i] - 1) && forall y :: y in f' && y != r ==> y in f && f'[y] == f[y]
  {
    hide Pow2;
  }

  lemma HalfAlone(f: Blocks, i: nat, r: nat, o: nat)
    requires Buddy(r, o) == i && i !in f
    ensures !Mergeable(f, r, o)
  {}

  lemma StillAlone(f: Blocks, f': Blocks, x: nat, q: nat, r: nat, o: nat, i: nat)
    requires x in f && !Mergeable(f, x, q) && MultipleOf(x, Pow2(q)) && i !in f && Buddy(r, o) == i && (r in f' ==> f'[r] == o)
    requires forall y :: y in f' && y != r ==> y in f && f'[y] == f[y]
    ensures !Mergeable(f', x, q)
  {
    BuddyBack(x, q);
  }

  lemma BlockPlaced(b: Blocks, x: nat)
    requires Tidy(b) && x in b
    ensures MultipleOf(x, Pow2(b[x])) && b[x] <= MAX_ORDER
  {
    assert Placed(x, b[x]);
  }

  lemma TiledTidy(b: Blocks, units: set<nat>)
    requires Tiled(b, units)
    ensures Tidy(b)
  {}

  lemma {:induction false} SplitDownOk(b: Blocks, live: set<nat>, units: set<nat>, i: nat, order: nat)
    requires Tiled(b, units) && i in b && i in live && Coalesced(b - live) && order <= b[i]
    ensures var b' := SplitDown(b, i, order);
            && Tiled(b', units) && Coalesced(b' - live) && i in b' && b'[i] == order
            && (forall x :: x in b && x != i ==> x in b' && b'[x] == b[x])
            && (forall x :: x in b' && x !in b ==> x >= i)
    decreases b[i]
  {
    hide Tiled, Coalesced, Pow2;
    if b[i] > order {
      TiledTidy(b, units);
      SplitTiled(b, units, i);
      SplitCoalesced(b, live, i);
      SplitHere(b, i);
      SplitDownOk(SplitBlock(b, i), live, units, i, order);
    }
  }

  // ---------------- page_allocate, vaddr_allocate ----------------

  ghost predicate PoolOk(lists: Lists, b: Blocks, live: set<nat>, units: set<nat>) {
    Tiled(b, units) && live <= b.Keys && ListsOk(lists, b, live)
  }

  lemma SplitStep(lists: Lists, b: Blocks, live: set<nat>, o: nat)
    requires ListsOk(lists, b, live) && Tidy(b) && live <= b.Keys && 0 < o < ORDERS && lists[o] != [] && lists[o - 1] == []
    ensures var i := lists[o][0];
            && i in b && b[i] == o && i !in live
            && ListsOk(lists[o := lists[o][1..]][o - 1 := lists[o - 1] + [i, Buddy(i, o - 1)]], SplitBlock(b, i), live)
  {
    var i := lists[o][0];
    assert |lists| == ORDERS && i in lists[o];
    ListsAt(lists, b, live, o, i);
    hide ListsOk, Tidy, Pow2, Buddy, MultipleOf;
    RightHalf(b, i);
    var r: nat := Buddy(i, o - 1);
    assert r !in live;
    hide SplitBlock;
    Restock(lists, b, live, o, i, r);
  }

  lemma RightHalf(b: Blocks, i: nat)
    requires Tidy(b) && i in b && b[i] > 0
    ensures var o := b[i] - 1; var r: int := Buddy(i, o); r > i && r !in b && SplitBlock(b, i) == b[i := o][r := o]
  {
    hide Tidy, Pow2, Buddy, MultipleOf;
    BlockPlaced(b, i);
    SplitHere(b, i);
    Halves(i, b[i] - 1);
    Pow2Positive(b[i] - 1);
  }

  // i, the first block of list o, makes way for two blocks i and r on the empty list below
  lemma Restock(lists: Lists, b: Blocks, live: set<nat>, o: nat, i: nat, r: nat)
    requires ListsOk(lists, b, live) && 0 < o < ORDERS && lists[o] != [] && lists[o][0] == i && lists[o - 1] == []
    requires r !in b && r !in live && r != i && i in b
    ensures ListsOk(lists[o := lists[o][1..]][o - 1 := lists[o - 1] + [i, r]], b[i := o - 1][r := o - 1], live)
  {
    var b' := b[i := o - 1][r := o - 1];
    var lists' := lists[o := lists[o][1..]][o - 1 := [i, r]];
    assert lists[o - 1] + [i, r] == [i, r];
    assert lists[o] == [i] + lists[o][1..];
    assert i in lists[o];
    forall k, x | 0 <= k < ORDERS ensures x in lists'[k] <==> x in b' && x !in live && b'[x] == k {
      assert x in lists[k] <==> x in b && x !in live && b[x] == k;
      if k == o - 1 { assert x in lists'[k] <==> x == i || x == r; }
    }
  }

  lemma ListsAt(lists: Lists, b: Blocks, live: set<nat>, o: nat, i: nat)
    requires ListsOk(lists, b, live) && o < ORDERS && i in lists[o]
    ensures i in b && i !in live && b[i] == o
  {}

  lemma SplitShape(lists: Lists, o: nat, i: nat, j: nat)
    requires 0 < o < |lists| && lists[o] != [] && lists[o - 1] == []
    ensures var l := lists[o := lists[o][1..]][o - 1 := lists[o - 1] + [i, j]];
            |l| == |lists| && l[o - 1] == [i, j] && forall k :: 0 <= k < o - 1 ==> l[k] == lists[k]
  {}

  lemma SplitAgain(lists: Lists, b: Blocks, o: nat, order: nat)
    requires order < o < |lists| && lists[o] != [] && lists[o][0] in b && b[lists[o][0]] == o
    ensures var i := lists[o][0]; var l := lists[o := lists[o][1..]][o - 1 := lists[o - 1] + [i, Buddy(i, o - 1)]];
            SplitLists(lists, o, order) == SplitLists(l, o - 1, order) && SplitDown(b, i, order) == SplitDown(SplitBlock(b, i), i, order)
  {
    hide Buddy, Pow2;
  }

  lemma SplitDone(lists: Lists, b: Blocks, i: nat, o: nat)
    requires o < |lists| && lists[o] != [] && i in b && b[i] == o
    ensures SplitLists(lists, o, o) == lists && SplitDown(b, i, o) == b
  {}

  lemma {:induction false} SplitListsOk(lists: Lists, b: Blocks, live: set<nat>, units: set<nat>, o: nat, order: nat)
    requires PoolOk(lists, b, live, units) && order <= o < ORDERS && lists[o] != []
    requires forall k :: order <= k < o ==> lists[k] == []
    ensures var i := lists[o][0]; var l := SplitLists(lists, o, order);
            i in b && b[i] == o && i !in live && PoolOk(l, SplitDown(b, i, order), live, units) && l[order][0] == i
    decreases o
  {
    var i := lists[o][0];
    assert |lists| == ORDERS;
    ListsAt(lists, b, live, o, i);
    TiledTidy(b, units);
    hide Tiled, Tidy, ListsOk, Buddy, Pow2, SplitLists, SplitDown;
    if o > order {
      SplitStep(lists, b, live, o);
      SplitTiled(b, units, i);
      assert live <= SplitBlock(b, i).Keys;
      var l := lists[o := lists[o][1..]][o - 1 := lists[o - 1] + [i, Buddy(i, o - 1)]];
      SplitShape(lists, o, i, Buddy(i, o - 1));
      SplitAgain(lists, b, o, order);
      SplitListsOk(l, SplitBlock(b, i), live, units, o - 1, order);
    } else {
      SplitDone(lists, b, i, o);
    }
  }

  lemma TakeFirst(lists: Lists, b: Blocks, live: set<nat>, o: nat)
    requires ListsOk(lists, b, live) && o < ORDERS && lists[o] != []
    ensures ListsOk(lists[o := lists[o][1..]], b, live + {lists[o][0]})
  {
    var i := lists[o][0];
    assert lists[o] == [i] + lists[o][1..];
    assert i in lists[o];
    var l := lists[o := lists[o][1..]];
    forall k, x | 0 <= k < ORDERS ensures x in l[k] <==> x in b && x !in live + {i} && b[x] == k {
      assert x in lists[k] <==> x in b && x !in live && b[x] == k;
    }
  }

  ghost predicate LiveKept(b: Blocks, b': Blocks, live: set<nat>) {
    forall x :: x in live && x in b ==> x in b' && b'[x] == b[x]
  }

  ghost function AfterAlloc(b: Blocks, i: nat, order: nat): Blocks {
    if i in b then SplitDown(b, i, order) else b
  }

  // Allocation takes an aligned block of the order asked for out of the free ones; the
  // other allocated blocks stay, and so does the tiling.
  lemma AllocOk(lists: Lists, b: Blocks, live: set<nat>, units: set<nat>, order: nat)
    requires PoolOk(lists, b, live, units) && order < ORDERS && AllocLists(lists, order).block.Some?
    ensures var i := AllocLists(lists, order).block.index; var b' := AfterAlloc(b, i, order);
            && i in b && i !in live && order <= b[i] && i in b' && b'[i] == order && LiveKept(b, b', live)
            && PoolOk(AllocLists(lists, order).lists, b', live + {i}, units)
            && (Coalesced(b - live) ==> Coalesced(b' - (live + {i})))
  {
    assert |lists| == ORDERS;
    hide Tiled, Coalesced, ListsOk;
    var o := FirstFit(lists, order);
    FirstFitIs(lists, order);
    var i := lists[o][0];
    SplitListsOk(lists, b, live, units, o, order);
    TakeFirst(SplitLists(lists, o, order), SplitDown(b, i, order), live, order);
    SplitDownKeeps(b, units, i, order);
    if Coalesced(b - live) {
      FewerCoalesced(b - live, {i});
      assert b - live - {i} == b - (live + {i});
      SplitDownOk(b, live + {i}, units, i, order);
    }
  }

  // The block it is cut from is one of the lowest order that will do, and of those the one that
  // has been on its list longest.
  lemma AllocSmallest(lists: Lists, b: Blocks, live: set<nat>, units: set<nat>, order: nat)
    requires PoolOk(lists, b, live, units) && order < ORDERS && AllocLists(lists, order).block.Some?
    ensures var i := AllocLists(lists, order).block.index;
            && i in b && b[i] < |lists| && lists[b[i]] != [] && lists[b[i]][0] == i
            && forall x :: x in b && x !in live && b[x] >= order ==> b[x] >= b[i]
  {
    assert |lists| == ORDERS;
    var o := FirstFit(lists, order);
    FirstFitIs(lists, order);
    var i := lists[o][0];
    SplitListsOk(lists, b, live, units, o, order);
    forall x | x in b && x !in live && b[x] >= order ensures b[x] >= o {
      TiledTidy(b, units);
      BlockPlaced(b, x);
      assert x in lists[b[x]];
    }
  }

  lemma FewerCoalesced(b: Blocks, xs: set<nat>)
    requires Coalesced(b)
    ensures Coalesced(b - xs)
  {
    forall x | x in b - xs && (b - xs)[x] < MAX_ORDER ensures !Mergeable(b - xs, x, b[x]) {
      assert x in b && !Mergeable(b, x, b[x]);
    }
  }

  lemma {:induction false} SplitDownKeeps(b: Blocks, units: set<nat>, i: nat, order: nat)
    requires Tiled(b, units) && i in b && order <= b[i]
    ensures var b' := SplitDown(b, i, order); i in b' && b'[i] == order && forall x :: x in b && x != i ==> x in b' && b'[x] == b[x]
    decreases b[i]
  {
    if b[i] > order {
      SplitTiled(b, units, i);
      SplitHere(b, i);
      SplitDownKeeps(SplitBlock(b, i), units, i, order);
    }
  }

  // The allocator gives up only when no aligned run of free units is big enough.
  lemma AllocComplete(lists: Lists, b: Blocks, live: set<nat>, units: set<nat>, order: nat)
    requires PoolOk(lists, b, live, units) && Coalesced(b - live) && order < ORDERS
    ensures AllocLists(lists, order).block.None? <==> forall i :: Placed(i, order) ==> !Covered(b - live, i, order)
  {
    FirstFitIs(lists, order);
    FreeTidy(b, live);
    var f := b - live;
    if AllocLists(lists, order).block.None? {
      forall j | j in f ensures b[j] < order { assert Placed(j, b[j]) && j in lists[b[j]]; }
      forall i | Placed(i, order) ensures !Covered(f, i, order) {
        if Covered(f, i, order) { var j: nat := RunInBlock(f, i, order); }
      }
    } else {
      var o := FirstFit(lists, order);
      var i := lists[o][0];
      assert i in lists[o] && Placed(i, b[i]);
      LowerOrder(i, order, o);
      assert Covered(f, i, order) by { forall u | i <= u < i + Pow2(order) ensures Covers(f, u) { assert Holds(f, i, u); } }
    }
  }

  lemma FreeTidy(b: Blocks, live: set<nat>)
    requires Tidy(b)
    ensures Tidy(b - live)
  {
    forall i | i in b - live ensures Placed(i, b[i]) {}
    forall i, j | i in b - live && j in b - live && i != j ensures Separate(i, b[i], j, b[j]) {}
  }

  // ---------------- page_free, vaddr_free, testing the buddy's order too ----------------

  // Not the source's loop: it goes on only when the buddy heads a free block of the order
  // reached, where lines 246 and 288 ask only whether it heads a free block.
  function FreeLists(lists: Lists, count: nat, i: nat, o: nat): (r: Lists)
    requires |lists| == ORDERS && o < ORDERS
    ensures |r| == ORDERS
    decreases ORDERS - o
  {
    if o < MAX_ORDER && Buddy(i, o) < count && Buddy(i, o) in lists[o]
    then FreeLists(Unlink(lists, Buddy(i, o)), count, Without(i, o), o + 1)
    else Append(lists, o, i)
  }

  // the same on blocks: the blocks after i is freed
  function Merge(b: Blocks, live: set<nat>, i: nat): Blocks
    requires i in b
    decreases ORDERS - b[i]
  {
    if b[i] < MAX_ORDER && Mergeable(b - live, i, b[i]) then Merge(JoinBlock(b, i), live - {i} + {Without(i, b[i])}, Without(i, b[i])) else b
  }

  lemma JoinHere(b: Blocks, live: set<nat>, units: set<nat>, i: nat)
    requires Tiled(b, units) && live <= b.Keys && i in live && b[i] < MAX_ORDER && Mergeable(b - live, i, b[i])
    ensures var j, k := Buddy(i, b[i]), Without(i, b[i]); var b' := JoinBlock(b, i); var live' := live - {i} + {k};
            && Tiled(b', units) && live' <= b'.Keys && k in b' && b'[k] == b[i] + 1
            && (k == i || k == j) && b' - live' == b - live - {j}
            && LiveKept(b, b', live - {i}) && live' - {k} == live - {i}
            && k <= i && j != i && j >= 0
  {
    TiledTidy(b, units);
    BlockPlaced(b, i);
    hide Tiled, Tidy, Pow2, MultipleOf, Buddy, Without;
    JoinTiled(b, units, i);
    Sides(i, b[i]);
    Pow2Positive(b[i]);
    JoinMaps(b, live, i, Buddy(i, b[i]), Without(i, b[i]));
  }

  // the blocks after i and j make way for k, one of them
  lemma JoinMaps(b: Blocks, live: set<nat>, i: nat, j: nat, k: nat)
    requires live <= b.Keys && i in live && j in b - live && (k == i || k == j)
    ensures var b', live' := (b - {i, j})[k := b[i] + 1], live - {i} + {k};
            live' <= b'.Keys && b' - live' == b - live - {j} && LiveKept(b, b', live - {i}) && live' - {k} == live - {i}
  {
    var b', live' := (b - {i, j})[k := b[i] + 1], live - {i} + {k};
    forall x | x in b' - live' ensures x in b - live - {j} {}
    forall x | x in b - live - {j} ensures x in b' - live' {}
  }

  lemma {:induction false} MergeOk(b: Blocks, live: set<nat>, units: set<nat>, i: nat)
    requires Tiled(b, units) && live <= b.Keys && i in live && Coalesced(b - live)
    ensures var b' := Merge(b, live, i);
            && Tiled(b', units) && live - {i} <= b'.Keys && LiveKept(b, b', live - {i}) && Coalesced(b' - (live - {i}))
    decreases ORDERS - b[i]
  {
    if b[i] < MAX_ORDER && Mergeable(b - live, i, b[i]) {
      JoinHere(b, live, units, i);
      FewerCoalesced(b - live, {Buddy(i, b[i])});
      MergeOk(JoinBlock(b, i), live - {i} + {Without(i, b[i])}, units, Without(i, b[i]));
    } else {
      StopCoalesced(b, live, i);
    }
  }

  lemma StopCoalesced(b: Blocks, live: set<nat>, i: nat)
    requires Tidy(b) && i in live && i in b && Coalesced(b - live) && (b[i] < MAX_ORDER ==> !Mergeable(b - live, i, b[i]))
    ensures Coalesced(b - (live - {i}))
  {
    var f := b - (live - {i});
    forall x | x in f && f[x] < MAX_ORDER ensures !Mergeable(f, x, f[x]) {
      assert Placed(x, b[x]);
      BuddyBack(x, b[x]);
      if x != i {
        assert x in b - live && !Mergeable(b - live, x, b[x]);
      }
    }
  }

  ghost predicate Below(units: set<nat>, count: nat) {
    forall u :: u in units ==> u < count
  }

  // every block lies below count
  lemma BlockBelow(b: Blocks, units: set<nat>, count: nat, j: nat)
    requires Tiled(b, units) && Below(units, count) && j in b
    ensures j < count
  {
    assert Holds(b, j, j);
    assert Covers(b, j);
  }

  // the lists in terms of the free blocks alone
  lemma ListsOfFree(lists: Lists, b: Blocks, live: set<nat>)
    ensures ListsOk(lists, b, live) <==> ListsOk(lists, b - live, {})
  {
    if |lists| == ORDERS {
      forall o, i | 0 <= o < ORDERS
        ensures (i in lists[o] <==> i in b && i !in live && b[i] == o) <==> (i in lists[o] <==> i in b - live && (b - live)[i] == o)
      {}
    }
  }

  lemma UnlinkOk(lists: Lists, f: Blocks, j: nat)
    requires ListsOk(lists, f, {}) && j in f && f[j] < ORDERS
    ensures ListsOk(Unlink(lists, j), f - {j}, {})
  {
    UnlinkIs(lists, f, {}, j);
    var o := f[j];
    var l := lists[o := Drop(lists[o], j)];
    DropIs(lists[o], j);
    forall k, x | 0 <= k < ORDERS ensures x in l[k] <==> x in f - {j} && (f - {j})[x] == k {
      assert x in lists[k] <==> x in f && f[x] == k;
    }
  }

  lemma AppendOk(lists: Lists, f: Blocks, o: nat, i: nat)
    requires ListsOk(lists, f, {}) && i !in f && o < ORDERS
    ensures ListsOk(Append(lists, o, i), f[i := o], {})
  {
    var l := Append(lists, o, i);
    assert i !in lists[o];
    forall k, x | 0 <= k < ORDERS ensures x in l[k] <==> x in f[i := o] && f[i := o][x] == k {
      assert x in lists[k] <==> x in f && f[x] == k;
    }
  }

  lemma OnListIff(lists: Lists, f: Blocks, count: nat, i: nat, o: nat)
    requires ListsOk(lists, f, {}) && o < ORDERS
    ensures |lists| == ORDERS && (Buddy(i, o) in lists[o] <==> Mergeable(f, i, o))
  {}

  // Freeing on the lists is freeing on the blocks: the tiling and the other allocated
  // blocks stay, and free buddies end up merged.
  lemma {:induction false} FreeOk(lists: Lists, b: Blocks, live: set<nat>, units: set<nat>, count: nat, i: nat)
    requires PoolOk(lists, b, live, units) && i in live && Below(units, count) && b[i] < ORDERS
    ensures PoolOk(FreeLists(lists, count, i, b[i]), Merge(b, live, i), live - {i}, units)
    ensures LiveKept(b, Merge(b, live, i), live - {i})
    ensures Coalesced(b - live) ==> Coalesced(Merge(b, live, i) - (live - {i}))
    decreases ORDERS - b[i]
  {
    hide Pow2, Buddy, Without, Tiled, ListsOk, Coalesced, Unlink, Merge, FreeLists, JoinBlock, Tidy, Mergeable;
    var o := b[i];
    var f := b - live;
    TiledTidy(b, units);
    ListsOfFree(lists, b, live);
    OnListIff(lists, f, count, i, o);
    FreeUnfold(lists, b, live, units, count, i);
    if o < MAX_ORDER && Mergeable(f, i, o) {
      var j: nat := Buddy(i, o);
      JoinHere(b, live, units, i);
      UnlinkOk(lists, f, j);
      var b', k := JoinBlock(b, i), Without(i, o);
      var live' := live - {i} + {k};
      ListsOfFree(Unlink(lists, j), b', live');
      FreeOk(Unlink(lists, j), b', live', units, count, k);
      if Coalesced(f) { FewerCoalesced(f, {j}); }
    } else {
      assert f[i := o] == b - (live - {i});
      AppendOk(lists, f, o, i);
      ListsOfFree(Append(lists, o, i), b, live - {i});
      if Coalesced(f) { StopCoalesced(b, live, i); }
    }
  }

  // one turn of the loop, on lists and on blocks
  lemma FreeUnfold(lists: Lists, b: Blocks, live: set<nat>, units: set<nat>, count: nat, i: nat)
    requires PoolOk(lists, b, live, units) && i in live && Below(units, count) && b[i] < ORDERS
    ensures |lists| == ORDERS
    ensures var o := b[i];
            if o < MAX_ORDER && Mergeable(b - live, i, o) then
              var j, k := Buddy(i, o), Without(i, o);
              && 0 <= j < count && j in b - live && (b - live)[j] == o && |Unlink(lists, j)| == ORDERS
              && FreeLists(lists, count, i, o) == FreeLists(Unlink(lists, j), count, k, o + 1)
              && Merge(b, live, i) == MergeNext(b, live, i)
            else FreeLists(lists, count, i, o) == Append(lists, o, i) && Merge(b, live, i) == b
  {
    var o := b[i];
    ListsOfFree(lists, b, live);
    OnListIff(lists, b - live, count, i, o);
    if o < MAX_ORDER && Mergeable(b - live, i, o) { BlockBelow(b, units, count, Buddy(i, o)); }
  }

  ghost function MergeNext(b: Blocks, live: set<nat>, i: nat): Blocks
    requires i in b
  {
    Merge(JoinBlock(b, i), live - {i} + {Without(i, b[i])}, Without(i, b[i]))
  }

  // ---------------- allocating and freeing again ----------------

  // the free units are those of no allocated block
  lemma FreeUnits(b: Blocks, live: set<nat>, units: set<nat>, u: int)
    requires Tiled(b, units) && live <= b.Keys
    ensures Covers(b - live, u) <==> u in units && !Covers(b - (b.Keys - live), u)
  {
    hide Tidy, Separate;
    if Covers(b - live, u) {
      var i :| i in b - live && Holds(b - live, i, u);
      assert Holds(b, i, u) && Covers(b, u);
      forall j | j in b && Holds(b, j, u) ensures j == i { OneHolder(b, i, j, u); }
    }
    if u in units && !Covers(b - live, u) {
      assert Covers(b, u);
      var i :| i in b && Holds(b, i, u);
      assert if i in live then Holds(b - (b.Keys - live), i, u) else Holds(b - live, i, u);
    }
  }

  lemma OneHolder(b: Blocks, i: nat, j: nat, u: int)
    requires Tidy(b) && i in b && j in b && Holds(b, i, u) && Holds(b, j, u)
    ensures i == j
  {
    assert i != j ==> Separate(i, b[i], j, b[j]);
  }

  // Freeing what was just allocated restores the very same free blocks.
  lemma AllocFreeRestores(lists: Lists, b: Blocks, live: set<nat>, units: set<nat>, count: nat, order: nat)
    requires PoolOk(lists, b, live, units) && Coalesced(b - live) && Below(units, count) && order < ORDERS
    requires AllocLists(lists, order).block.Some?
    ensures var got := AllocLists(lists, order); var l := FreeLists(got.lists, count, got.block.index, order);
            |l| == ORDERS && forall o, x :: 0 <= o < ORDERS ==> (x in l[o] <==> x in lists[o])
  {
    assert |lists| == ORDERS;
    hide Tiled, Coalesced, AllocLists, FreeLists, ListsOk, Tidy, AfterAlloc, Merge;
    var got := AllocLists(lists, order);
    var i := got.block.index;
    AllocOk(lists, b, live, units, order);
    var b1, live1 := AfterAlloc(b, i, order), live + {i};
    FreeOk(got.lists, b1, live1, units, count, i);
    var b2 := Merge(b1, live1, i);
    assert live1 - {i} == live;
    assert LiveKept(b, b2, live);
    SameFree(b, b2, live, units);
    SameLists(lists, b, FreeLists(got.lists, count, i, order), b2, live);
  }

  lemma SameLists(lists: Lists, b: Blocks, lists': Lists, b': Blocks, live: set<nat>)
    requires ListsOk(lists, b, live) && ListsOk(lists', b', live) && b - live == b' - live
    ensures forall o, x :: 0 <= o < ORDERS ==> (x in lists'[o] <==> x in lists[o])
  {
    ListsOfFree(lists, b, live);
    ListsOfFree(lists', b', live);
    forall o, x | 0 <= o < ORDERS ensures x in lists'[o] <==> x in lists[o] {
      assert x in lists[o] <==> x in b - live && (b - live)[x] == o;
      assert x in lists'[o] <==> x in b' - live && (b' - live)[x] == o;
    }
  }

  // two coalesced tilings with the same allocated blocks have the same free ones
  lemma SameFree(b: Blocks, c: Blocks, live: set<nat>, units: set<nat>)
    requires Tiled(b, units) && Tiled(c, units) && live <= b.Keys && live <= c.Keys && LiveKept(b, c, live)
    requires Coalesced(b - live) && Coalesced(c - live)
    ensures b - live == c - live
  {
    FreeTidy(b, live);
    FreeTidy(c, live);
    assert b - (b.Keys - live) == c - (c.Keys - live);
    forall u ensures Covers(b - live, u) <==> Covers(c - live, u) {
      FreeUnits(b, live, units, u);
      FreeUnits(c, live, units, u);
    }
    OneTiling(b - live, c - live);
  }

  // ---------------- page_free, vaddr_free as they are ----------------

  // lines 234-255: any free block at the buddy's number counts as the buddy
  function LiteralFree(lists: Lists, count: nat, i: nat, o: nat): (r: Lists)
    requires |lists| == ORDERS && o < ORDERS
    ensures |r| == ORDERS
    decreases ORDERS - o
  {
    if o < MAX_ORDER && Buddy(i, o) < count && Linked(lists, Buddy(i, o))
    then LiteralFree(Unlink(lists, Buddy(i, o)), count, Without(i, o), o + 1)
    else Append(lists, o, i)
  }

  // Merging with buddies of the right order stops at a number that heads no free block.
  predicate StopsClean(lists: Lists, count: nat, i: nat, o: nat)
    requires |lists| == ORDERS && o < ORDERS
    decreases ORDERS - o
  {
    if o < MAX_ORDER && Buddy(i, o) < count && Linked(lists, Buddy(i, o)) then
      Buddy(i, o) in lists[o] && StopsClean(Unlink(lists, Buddy(i, o)), count, Without(i, o), o + 1)
    else true
  }

  lemma {:induction false} CleanSame(lists: Lists, count: nat, i: nat, o: nat)
    requires |lists| == ORDERS && o < ORDERS && StopsClean(lists, count, i, o)
    ensures LiteralFree(lists, count, i, o) == FreeLists(lists, count, i, o)
    decreases ORDERS - o
  {
    if o < MAX_ORDER && Buddy(i, o) < count {
      if Buddy(i, o) in lists[o] { assert Linked(lists, Buddy(i, o)); }
      if Linked(lists, Buddy(i, o)) {
        CleanSame(Unlink(lists, Buddy(i, o)), count, Without(i, o), o + 1);
      }
    }
  }

  // the block the literal loop ends with
  function Ending(lists: Lists, count: nat, i: nat, o: nat): (nat, nat)
    requires |lists| == ORDERS && o < ORDERS
    decreases ORDERS - o
  {
    if o < MAX_ORDER && Buddy(i, o) < count && Linked(lists, Buddy(i, o))
    then Ending(Unlink(lists, Buddy(i, o)), count, Without(i, o), o + 1)
    else (i, o)
  }

  // It holds the block [i, i + 2^o), and blocks starting inside that one, past its first
  // unit, are still on their lists.
  lemma {:induction false} EndingHolds(lists: Lists, count: nat, i: nat, o: nat)
    requires |lists| == ORDERS && o < ORDERS && MultipleOf(i, Pow2(o))
    ensures var (e, q) := Ending(lists, count, i, o);
            e <= i && o <= q < ORDERS && i + Pow2(o) <= e + Pow2(q) && e in LiteralFree(lists, count, i, o)[q]
    decreases ORDERS - o
  {
    hide Linked, Unlink, MultipleOf;
    if o < MAX_ORDER && Buddy(i, o) < count && Linked(lists, Buddy(i, o)) {
      Sides(i, o);
      assert Pow2(o + 1) == 2 * Pow2(o);
      EndingHolds(Unlink(lists, Buddy(i, o)), count, Without(i, o), o + 1);
    }
  }

  // The block freed, merged with what the loop met, goes last on its list; blocks that stay on a
  // list keep their order.
  lemma {:induction false} FreedLast(lists: Lists, count: nat, i: nat, o: nat)
    requires |lists| == ORDERS && o < ORDERS
    ensures var (e, q) := Ending(lists, count, i, o); var r := LiteralFree(lists, count, i, o);
            && q < ORDERS && r[q] != [] && r[q][|r[q]| - 1] == e
            && forall k :: 0 <= k < ORDERS ==> Thinned(if k == q then r[k][..|r[k]| - 1] else r[k], lists[k])
    decreases ORDERS - o
  {
    hide Linked, Unlink, Thinned;
    if o < MAX_ORDER && Buddy(i, o) < count && Linked(lists, Buddy(i, o)) {
      var l := Unlink(lists, Buddy(i, o));
      FreedLast(l, count, Without(i, o), o + 1);
      var (e, q) := Ending(lists, count, i, o);
      var r := LiteralFree(lists, count, i, o);
      forall k | 0 <= k < ORDERS ensures Thinned(if k == q then r[k][..|r[k]| - 1] else r[k], lists[k]) {
        UnlinkThins(lists, Buddy(i, o), k);
        ThinnedOn(if k == q then r[k][..|r[k]| - 1] else r[k], l[k], lists[k]);
      }
    } else {
      var r := LiteralFree(lists, count, i, o);
      assert r[o][..|r[o]| - 1] == lists[o];
      forall k | 0 <= k < ORDERS ensures Thinned(lists[k], lists[k]) { ThinnedSame(lists[k]); }
    }
  }

  // s is t with some elements left out
  ghost predicate Thinned(s: seq<nat>, t: seq<nat>)
    decreases |t|
  {
    if t == [] then s == [] else Thinned(s, t[1..]) || (s != [] && s[0] == t[0] && Thinned(s[1..], t[1..]))
  }

  lemma {:induction false} ThinnedSame(s: seq<nat>)
    ensures Thinned(s, s)
  {
    if s != [] { ThinnedSame(s[1..]); }
  }

  lemma {:induction false} ThinnedOn(s: seq<nat>, t: seq<nat>, u: seq<nat>)
    requires Thinned(s, t) && Thinned(t, u)
    ensures Thinned(s, u)
    decreases |u|
  {
    if u != [] {
      if Thinned(t, u[1..]) {
        ThinnedOn(s, t, u[1..]);
      } else if Thinned(s, t[1..]) {
        ThinnedOn(s, t[1..], u[1..]);
      } else {
        ThinnedOn(s[1..], t[1..], u[1..]);
      }
    }
  }

  lemma {:induction false} DropThins(s: seq<nat>, x: nat)
    ensures Thinned(Drop(s, x), s)
  {
    if s != [] { DropThins(s[1..], x); }
  }

  lemma UnlinkThins(lists: Lists, x: nat, k: nat)
    requires k < |lists|
    ensures Thinned(Unlink(lists, x)[k], lists[k])
  {
    hide Thinned, Drop;
    DropThins(lists[k], x);
    ThinnedSame(lists[k]);
  }

  lemma {:induction false} StillThere(lists: Lists, count: nat, i: nat, o: nat, x: nat, k: nat)
    requires |lists| == ORDERS && o < ORDERS && MultipleOf(i, Pow2(o)) && k < ORDERS
    requires i < x < i + Pow2(o) && x in lists[k]
    ensures x in LiteralFree(lists, count, i, o)[k]
    decreases ORDERS - o
  {
    hide Linked, Unlink, MultipleOf;
    if o < MAX_ORDER && Buddy(i, o) < count && Linked(lists, Buddy(i, o)) {
      Sides(i, o);
      assert Pow2(o + 1) == 2 * Pow2(o);
      DropFromAll(lists, Buddy(i, o), x, k);
      StillThere(Unlink(lists, Buddy(i, o)), count, Without(i, o), o + 1, x, k);
    }
  }

  lemma DropFromAll(lists: Lists, y: nat, x: nat, k: nat)
    requires k < |lists| && x != y && x in lists[k]
    ensures x in Unlink(lists, y)[k]
  {
    WhereIs(lists, y, 0);
    DropIs(lists[k], y);
  }

  // a well-formed outcome of freeing i
  ghost predicate Outcomes(lists: Lists, b: Blocks, live: set<nat>, units: set<nat>, i: nat) {
    exists b' :: PoolOk(lists, b', live - {i}, units) && LiveKept(b, b', live - {i})
  }

  // The literal free keeps the pool well formed exactly when its merging stops clean.
  lemma LiteralFreeIff(lists: Lists, b: Blocks, live: set<nat>, units: set<nat>, count: nat, i: nat)
    requires PoolOk(lists, b, live, units) && i in live && Below(units, count) && b[i] < ORDERS
    ensures Outcomes(LiteralFree(lists, count, i, b[i]), b, live, units, i) <==> StopsClean(lists, count, i, b[i])
  {
    if StopsClean(lists, count, i, b[i]) {
      CleanSame(lists, count, i, b[i]);
      FreeOk(lists, b, live, units, count, i);
    } else {
      forall b' ensures !(PoolOk(LiteralFree(lists, count, i, b[i]), b', live - {i}, units) && LiveKept(b, b', live - {i})) {
        Unclean(lists, b, live, units, count, i, b');
      }
    }
  }

  lemma {:induction false} Unclean(lists: Lists, b: Blocks, live: set<nat>, units: set<nat>, count: nat, i: nat, b': Blocks)
    requires PoolOk(lists, b, live, units) && i in live && Below(units, count) && b[i] < ORDERS
    requires !StopsClean(lists, count, i, b[i])
    ensures !(PoolOk(LiteralFree(lists, count, i, b[i]), b', live - {i}, units) && LiveKept(b, b', live - {i}))
    decreases ORDERS - b[i]
  {
    var o := b[i];
    var j := Buddy(i, o);
    if j in lists[o] {
      ListsOfFree(lists, b, live);
      JoinHere(b, live, units, i);
      UnlinkOk(lists, b - live, j);
      var k := Without(i, o);
      var live' := live - {i} + {k};
      ListsOfFree(Unlink(lists, j), JoinBlock(b, i), live');
      Unclean(Unlink(lists, j), JoinBlock(b, i), live', units, count, k, b');
    } else {
      WrongOrder(lists, b, live, units, count, i, b');
    }
  }

  lemma LiteralStep(lists: Lists, count: nat, i: nat, o: nat)
    requires |lists| == ORDERS && o < MAX_ORDER && Buddy(i, o) < count && Linked(lists, Buddy(i, o))
    ensures LiteralFree(lists, count, i, o) == LiteralFree(Unlink(lists, Buddy(i, o)), count, Without(i, o), o + 1)
    ensures |Unlink(lists, Buddy(i, o))| == ORDERS
  {}

  lemma OnList(lists: Lists, b: Blocks, live: set<nat>, x: nat)
    requires ListsOk(lists, b, live) && Tidy(b) && x in b && x !in live
    ensures |lists| == ORDERS && b[x] < ORDERS && x in lists[b[x]]
  {
    assert Placed(x, b[x]);
  }

  lemma FromList(lists: Lists, b: Blocks, live: set<nat>, x: nat, o: nat)
    requires ListsOk(lists, b, live) && o < ORDERS && x in lists[o]
    ensures x in b && b[x] == o
  {}

  // a block at the buddy's number is no bigger than the block itself
  lemma BuddySmaller(b: Blocks, i: nat)
    requires Tidy(b) && i in b && Buddy(i, b[i]) in b
    ensures b[Buddy(i, b[i])] <= b[i] && MultipleOf(i, Pow2(b[i]))
    ensures var j, k := Buddy(i, b[i]), Without(i, b[i]); j != i && (k == i || k == j) && k <= i && k <= j
    ensures var j, k := Buddy(i, b[i]), Without(i, b[i]); j + Pow2(b[i]) <= k + 2 * Pow2(b[i]) && Pow2(b[i] + 1) == 2 * Pow2(b[i]) && Pow2(b[i]) >= 1
    ensures MultipleOf(Without(i, b[i]), Pow2(b[i] + 1)) && (Without(i, b[i]) == i ==> Buddy(i, b[i]) == i + Pow2(b[i]))
    ensures Without(i, b[i]) != i ==> i == Buddy(i, b[i]) + Pow2(b[i])
  {
    var o := b[i];
    var j := Buddy(i, o);
    assert Placed(i, o) && Placed(j, b[j]);
    Sides(i, o);
    Pow2Positive(o);
    assert Pow2(o + 1) == 2 * Pow2(o);
    if b[j] > o {
      LowerOrder(j, o + 1, b[j]);
      assert Separate(i, o, j, b[j]);
      if j > i { Gap(i, j, Pow2(o + 1)); }
    }
  }

  // a smaller block at the buddy's number leaves a unit of the buddy's range behind it
  lemma Inside(b: Blocks, units: set<nat>, i: nat, x: nat)
    requires Tiled(b, units) && i in b && Buddy(i, b[i]) in b && b[Buddy(i, b[i])] < b[i]
    requires x == Buddy(i, b[i]) + Pow2(b[Buddy(i, b[i])])
    ensures var k := Without(i, b[i]); k < x < k + Pow2(b[i] + 1) && x != i
  {
    BuddySmaller(b, i);
    Pow2Less(b[Buddy(i, b[i])], b[i]);
    Pow2Positive(b[Buddy(i, b[i])]);
  }

  lemma UnitsOf(b: Blocks, units: set<nat>, e: nat, x: nat)
    requires Tiled(b, units) && e in b && e <= x < e + Pow2(b[e])
    ensures x in units
  {
    assert Holds(b, e, x);
    assert Covers(b, x);
  }

  // where a block ends, and there is a unit, the next one starts
  lemma NextBlock(b: Blocks, units: set<nat>, j: nat)
    requires Tiled(b, units) && j in b && j + Pow2(b[j]) in units
    ensures j + Pow2(b[j]) in b
  {
    var x := j + Pow2(b[j]);
    Pow2Positive(b[j]);
    assert Covers(b, x);
    var y :| y in b && Holds(b, y, x);
    assert y != j ==> Separate(y, b[y], j, b[j]);
  }

  lemma SameBlockOnly(b: Blocks, e: nat, x: nat)
    requires Tidy(b) && e in b && x in b && e < x
    ensures e + Pow2(b[e]) <= x
  {
    assert Separate(e, b[e], x, b[x]);
    Pow2Positive(b[e]);
    Pow2Positive(b[x]);
  }

  // the buddy heads a free block of another order, and the loop takes it for the buddy
  lemma WrongOrder(lists: Lists, b: Blocks, live: set<nat>, units: set<nat>, count: nat, i: nat, b': Blocks)
    requires PoolOk(lists, b, live, units) && i in live && Below(units, count) && b[i] < MAX_ORDER
    requires Buddy(i, b[i]) < count && Linked(lists, Buddy(i, b[i])) && Buddy(i, b[i]) !in lists[b[i]]
    ensures !(PoolOk(LiteralFree(lists, count, i, b[i]), b', live - {i}, units) && LiveKept(b, b', live - {i}))
  {
    assert |lists| == ORDERS;
    hide Pow2, MultipleOf, Buddy, Without, LiteralFree, Linked, Unlink, Tiled, ListsOk, Tidy, LiveKept;
    var o := b[i];
    var j: nat, k: nat := Buddy(i, o), Without(i, o);
    TiledTidy(b, units);
    LinkedFree(lists, b, live, j);
    OnList(lists, b, live, j);
    BuddySmaller(b, i);
    LiteralStep(lists, count, i, o);
    var x := j + Pow2(b[j]);
    Inside(b, units, i, x);
    BadBlock(lists, b, live, units, count, i, o + 1, j, k, x, b');
  }

  // going on with j unlinked, although j's block ends at x inside the range taken for free
  lemma BadBlock(lists: Lists, b: Blocks, live: set<nat>, units: set<nat>, count: nat, i: nat, o: nat, j: nat, k: nat, x: nat, b': Blocks)
    requires PoolOk(lists, b, live, units) && j in b && x == j + Pow2(b[j]) && x != j && x != i && o < ORDERS
    requires |Unlink(lists, j)| == ORDERS && MultipleOf(k, Pow2(o)) && k < x < k + Pow2(o)
    ensures var l := LiteralFree(Unlink(lists, j), count, k, o); !(PoolOk(l, b', live - {i}, units) && LiveKept(b, b', live - {i}))
  {
    assert |lists| == ORDERS;
    hide Pow2, MultipleOf, LiteralFree, Linked, Unlink, Tiled, ListsOk, Ending, Tidy, LiveKept;
    var l1 := Unlink(lists, j);
    var (e, q) := Ending(l1, count, k, o);
    EndingHolds(l1, count, k, o);
    if x in units {
      TiledTidy(b, units);
      NextBlock(b, units, j);
      if x !in live {
        OnList(lists, b, live, x);
        DropFromAll(lists, j, x, b[x]);
        StillThere(l1, count, k, o, x, b[x]);
      }
    }
    NoSuchPool(LiteralFree(l1, count, k, o), b, b', live, units, i, e, q, x);
  }

  // The new block e holds the unit x, where another block of the old pool starts that is
  // still listed or allocated, if x is a unit at all.
  lemma NoSuchPool(l: Lists, b: Blocks, b': Blocks, live: set<nat>, units: set<nat>, i: nat, e: nat, q: nat, x: nat)
    requires |l| == ORDERS && q < ORDERS && e in l[q] && e < x < e + Pow2(q) && x != i
    requires x in units ==> x in b && (x in live || (b[x] < ORDERS && x in l[b[x]]))
    ensures !(PoolOk(l, b', live - {i}, units) && LiveKept(b, b', live - {i}))
  {
    hide Tiled, ListsOk, Pow2;
    if PoolOk(l, b', live - {i}, units) && LiveKept(b, b', live - {i}) {
      TiledTidy(b', units);
      FromList(l, b', live - {i}, e, q);
      UnitsOf(b', units, e, x);
      if x !in live { FromList(l, b', live - {i}, x, b[x]); }
      SameBlockOnly(b', e, x);
    }
  }

  // ---------------- a run on which the literal free goes wrong ----------------

  function NoLists(): Lists {
    [[], [], [], [], [], [], [], [], [], [], [], [], [], [], [], []]
  }

  function Only(o: nat, s: seq<nat>): Lists
    requires o < ORDERS
  {
    NoLists()[o := s]
  }

  // A pool of four pages, all handed out one by one; then pages 2, 0 and 1 are freed. The
  // lists are those of the whole pool again, so page 3, never freed, is handed out twice.
  lemma LiteralRun()
    ensures var l0 := Append(NoLists(), 2, 0);
            var a := AllocLists(l0, 0);
            var b := AllocLists(a.lists, 0);
            var c := AllocLists(b.lists, 0);
            var d := AllocLists(c.lists, 0);
            && a.block == Some(0) && b.block == Some(1) && c.block == Some(2) && d.block == Some(3)
            && LiteralFree(LiteralFree(LiteralFree(d.lists, 4, 2, 0), 4, 0, 0), 4, 1, 0) == l0
            && AllocLists(l0, 2).block == Some(0)
            && !StopsClean(LiteralFree(LiteralFree(d.lists, 4, 2, 0), 4, 0, 0), 4, 1, 0)
  {
    hide AllocLists, LiteralFree, StopsClean;
    FourAllocs();
    ThreeFrees();
  }

  lemma FourAllocs()
    ensures Append(NoLists(), 2, 0) == Only(2, [0])
    ensures AllocLists(Only(2, [0]), 0) == Outcome(Only(1, [2])[0 := [1]], Some(0))
    ensures AllocLists(Only(1, [2])[0 := [1]], 0) == Outcome(Only(1, [2]), Some(1))
    ensures AllocLists(Only(1, [2]), 0) == Outcome(Only(0, [3]), Some(2))
    ensures AllocLists(Only(0, [3]), 0) == Outcome(NoLists(), Some(3))
    ensures AllocLists(Only(2, [0]), 2).block == Some(0)
  {
    var e: Lists := NoLists();
    var s01: seq<nat>, s23: seq<nat>, s02: seq<nat>, s0: seq<nat>, s1: seq<nat>, s2: seq<nat>, s3: seq<nat> := [0, 1], [2, 3], [0, 2], [0], [1], [2], [3];
    var l0, l1, l2, l3 := Only(2, s0), Only(1, s2)[0 := s1], Only(1, s2), Only(0, s3);
    assert Append(e, 2, 0) == l0 by { assert e[2] + s0 == s0; }
    assert FirstFit(l0, 0) == 2 by { assert FirstFit(l0, 2) == 2; assert FirstFit(l0, 1) == 2; }
    var g := Only(1, s02);
    assert SplitLists(l0, 2, 0) == SplitLists(g, 1, 0) by {
      assert l0[2][1..] == [] == e[2] && l0[1] + s02 == s02;
      assert l0[2 := l0[2][1..]][1 := l0[1] + s02] == g;
    }
    assert SplitLists(g, 1, 0) == e[1 := s2][0 := s01] by {
      assert g[1][1..] == s2 && g[0] + s01 == s01;
      assert g[1 := g[1][1..]][0 := g[0] + s01] == e[1 := s2][0 := s01];
    }
    SecondHalf();
    assert FirstFit(l0, 2) == 2 && SplitLists(l0, 2, 2) == l0;
  }

  lemma SecondHalf()
    ensures AllocLists(Only(1, [2])[0 := [1]], 0) == Outcome(Only(1, [2]), Some(1))
    ensures AllocLists(Only(1, [2]), 0) == Outcome(Only(0, [3]), Some(2))
    ensures AllocLists(Only(0, [3]), 0) == Outcome(NoLists(), Some(3))
  {
    var e: Lists := NoLists();
    var s23: seq<nat>, s1: seq<nat>, s2: seq<nat>, s3: seq<nat> := [2, 3], [1], [2], [3];
    var l1, l2, l3 := Only(1, s2)[0 := s1], Only(1, s2), Only(0, s3);
    assert FirstFit(l1, 0) == 0 && SplitLists(l1, 0, 0) == l1;
    assert l1[0 := l1[0][1..]] == l2 by { assert l1[0][1..] == [] == e[0]; }
    assert FirstFit(l2, 0) == 1 by { assert FirstFit(l2, 1) == 1; }
    assert SplitLists(l2, 1, 0) == Only(0, s23) by {
      assert l2[1][1..] == [] == e[1] && l2[0] + s23 == s23;
      assert l2[1 := l2[1][1..]][0 := l2[0] + s23] == Only(0, s23);
    }
    assert Only(0, s23)[0 := s23[1..]] == l3 by { assert s23[1..] == s3; }
    assert FirstFit(l3, 0) == 0 && SplitLists(l3, 0, 0) == l3;
    assert l3[0 := l3[0][1..]] == e by { assert l3[0][1..] == [] == e[0]; }
  }

  lemma ThreeFrees()
    ensures LiteralFree(NoLists(), 4, 2, 0) == Only(0, [2])
    ensures LiteralFree(Only(0, [2]), 4, 0, 0) == Only(0, [2, 0])
    ensures LiteralFree(Only(0, [2, 0]), 4, 1, 0) == Only(2, [0]) == Append(NoLists(), 2, 0)
    ensures !StopsClean(Only(0, [2, 0]), 4, 1, 0)
  {
    hide LiteralFree, StopsClean, Buddy;
    var e: Lists := NoLists();
    var s0: seq<nat>, s2: seq<nat>, s20: seq<nat> := [0], [2], [2, 0];
    var f2, f0 := Only(0, s2), Only(0, s20);
    assert Append(e, 0, 2) == f2 by { assert e[0] + s2 == s2; }
    assert Append(f2, 0, 0) == f0 by { assert f2[0] + s0 == s20; }
    assert 0 in f0[0] && Linked(f0, 0);
    assert Unlink(f0, 0) == f2 by { assert Where(f0, 0, 0) == 0; DropLast(); assert f0[0 := s2] == f2; }
    assert 2 in f2[0] && Linked(f2, 2);
    assert Unlink(f2, 2) == e by { assert Where(f2, 2, 0) == 0; DropOnly(); assert f2[0 := e[0]] == e; }
    assert Append(e, 2, 0) == Only(2, s0) by { assert e[2] + s0 == s0; }
    FreeSteps();
  }

  lemma FreeSteps()
    requires Linked(Only(0, [2, 0]), 0) && Unlink(Only(0, [2, 0]), 0) == Only(0, [2])
    requires Linked(Only(0, [2]), 2) && Unlink(Only(0, [2]), 2) == NoLists()
    ensures LiteralFree(NoLists(), 4, 2, 0) == Append(NoLists(), 0, 2)
    ensures LiteralFree(Only(0, [2]), 4, 0, 0) == Append(Only(0, [2]), 0, 0)
    ensures LiteralFree(Only(0, [2, 0]), 4, 1, 0) == Append(NoLists(), 2, 0)
    ensures !StopsClean(Only(0, [2, 0]), 4, 1, 0)
  {
    hide Unlink;
    assert Buddy(0, 0) == 1 && Buddy(1, 0) == 0 && Buddy(2, 0) == 3 && Buddy(0, 1) == 2 && Buddy(0, 2) == 4;
    assert !Linked(Only(0, [2]), 1);
    assert LiteralFree(Only(0, [2, 0]), 4, 1, 0) == LiteralFree(Only(0, [2]), 4, 0, 1);
    assert LiteralFree(Only(0, [2]), 4, 0, 1) == LiteralFree(NoLists(), 4, 0, 2);
    assert LiteralFree(NoLists(), 4, 0, 2) == Append(NoLists(), 2, 0);
    assert !StopsClean(Only(0, [2]), 4, 0, 1);
  }

  // A pool of two pages, both handed out. Page 0 is freed, then page 1: the block they make is
  // page 0's, so only page 0 is marked as free. After page 0 is handed out again, a second free
  // of page 1, whose order still reads 0, links it twice.
  lemma StaleRun()
    ensures LiteralFree(NoLists(), 2, 0, 0) == Only(0, [0])
    ensures LiteralFree(Only(0, [0]), 2, 1, 0) == Only(1, [0]) && Ending(Only(0, [0]), 2, 1, 0) == (0, 1)
    ensures AllocLists(Only(1, [0]), 0) == Outcome(Only(0, [1]), Some(0))
    ensures LiteralFree(Only(0, [1]), 2, 1, 0) == Only(0, [1, 1])
  {
    var e: Lists := NoLists();
    var s0: seq<nat>, s1: seq<nat>, s01: seq<nat>, s11: seq<nat> := [0], [1], [0, 1], [1, 1];
    var f0, f1, l := Only(0, s0), Only(0, s1), Only(1, s0);
    assert Buddy(0, 0) == 1 && Buddy(1, 0) == 0 && Buddy(0, 1) == 2;
    assert Append(e, 0, 0) == f0 by { assert e[0] + s0 == s0; }
    assert 0 in f0[0] && Linked(f0, 0);
    assert Unlink(f0, 0) == e by { assert Where(f0, 0, 0) == 0; DropZero(); assert f0[0 := e[0]] == e; }
    assert Append(e, 1, 0) == l by { assert e[1] + s0 == s0; }
    assert Append(f1, 0, 1) == Only(0, s11) by { assert f1[0] + s1 == s11; }
    StaleSteps();
    assert FirstFit(l, 0) == 1 by { assert FirstFit(l, 1) == 1; }
    assert SplitLists(l, 1, 0) == Only(0, s01) by { assert l[1][1..] == [] == e[1] && l[0] + s01 == s01; }
    assert Only(0, s01)[0 := s01[1..]] == f1 by { assert s01[1..] == s1; }
  }

  lemma StaleSteps()
    requires Linked(Only(0, [0]), 0) && Unlink(Only(0, [0]), 0) == NoLists()
    ensures LiteralFree(NoLists(), 2, 0, 0) == Append(NoLists(), 0, 0)
    ensures LiteralFree(Only(0, [0]), 2, 1, 0) == Append(NoLists(), 1, 0) && Ending(Only(0, [0]), 2, 1, 0) == (0, 1)
    ensures LiteralFree(Only(0, [1]), 2, 1, 0) == Append(Only(0, [1]), 0, 1)
  {
    hide Unlink;
    assert Buddy(0, 0) == 1 && Buddy(1, 0) == 0 && Buddy(0, 1) == 2;
    assert !Linked(NoLists(), 1) && !Linked(Only(0, [1]), 0);
    assert LiteralFree(NoLists(), 2, 0, 1) == Append(NoLists(), 1, 0);
    assert Ending(NoLists(), 2, 0, 1) == (0, 1);
  }

  lemma DropZero()
    ensures Drop([0], 0) == []
  {
    assert [0][1..] == [];
  }

  lemma DropLast()
    ensures Drop([2, 0], 0) == [2]
  {
    assert [2, 0][1..] == [0] && [0][1..] == [];
    assert Drop([0], 0) == [];
  }

  lemma DropOnly()
    ensures Drop([2], 2) == []
  {
    assert [2][1..] == [];
  }
}
