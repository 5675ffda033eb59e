/** The kernel's queues on their links: the run queue and a mutex's waiters (kernel/lib/scheduler.c,
    kernel/lib/mutex.c), the timers (kernel/lib/timers.c) and the free lists of the buddy
    allocators (kernel/lib/mem.c) are rings through a node that belongs to no element, the head.
    The operations on links are those on sequences in modules Scheduler, Timers and BuddyLists. */
module Queues {
  import opened Rings
  import opened Lists
  import opened Blocks
  import B = BuddyLists
  import P = Pools
  import S = Scheduler
  import T = Timers

  // Element x's node is x itself, the heads are negative.
  function Head(k: nat): Addr { -1 - k }

  function RingOf(k: nat, q: seq<nat>): seq<Addr> { [Head(k)] + q }

  ghost predicate Loose(qs: B.Lists, x: nat) {
    forall k :: 0 <= k < |qs| ==> x !in qs[k]
  }

  // the rings of n elements' nodes: those of the queues, and every other node alone
  ghost predicate Hold(rings: set<seq<Addr>>, qs: B.Lists, n: nat) {
    && (forall k: nat :: k < |qs| ==> RingOf(k, qs[k]) in rings)
    && (forall x: nat :: x < n && Loose(qs, x) ==> [x] in rings)
    && (forall k, x :: 0 <= k < |qs| && x in qs[k] ==> x < n)
  }

  lemma QueueDistinct(m: Links, k: nat, q: seq<nat>)
    requires Ring(m, RingOf(k, q))
    ensures B.Distinct(q)
  {
    hide Ring;
    var r := RingOf(k, q);
    RingFacts(m, r);
    forall i, j | 0 <= i < j < |q| ensures q[i] != q[j] { assert r[i + 1] != r[j + 1]; }
  }

  lemma QueuePair(rings: set<seq<Addr>>, m: Links, j: nat, q: seq<nat>, k: nat, q': seq<nat>, x: nat)
    requires Rung(m, rings) && RingOf(j, q) in rings && RingOf(k, q') in rings && j != k && x in q
    ensures x !in q'
  {
    var r, s := RingOf(j, q), RingOf(k, q');
    assert r[0] != s[0];
    assert Lists.Apart(r, s) && x in r;
  }

  // no node is twice on a queue, or on two
  lemma QueuesApart(m: Links, rings: set<seq<Addr>>, qs: B.Lists, n: nat)
    requires Rung(m, rings) && Hold(rings, qs, n)
    ensures forall k :: 0 <= k < |qs| ==> B.Distinct(qs[k])
    ensures forall j, k :: 0 <= j < |qs| && 0 <= k < |qs| && j != k ==> forall x :: x in qs[j] ==> x !in qs[k]
  {
    forall k: nat | k < |qs| ensures B.Distinct(qs[k]) {
      RungAt(m, rings, RingOf(k, qs[k]));
      QueueDistinct(m, k, qs[k]);
    }
    hide Ring, Rung, RingOf;
    forall j: nat, k: nat, x | j < |qs| && k < |qs| && j != k && x in qs[j] ensures x !in qs[k] {
      QueuePair(rings, m, j, qs[j], k, qs[k], x);
    }
  }

  // x joins queue k
  lemma Joined(rings: set<seq<Addr>>, qs: B.Lists, n: nat, k: nat, x: nat, q': seq<nat>)
    requires Hold(rings, qs, n) && k < |qs| && x < n && Loose(qs, x)
    requires forall a: nat :: a in q' <==> a in qs[k] || a == x
    ensures Hold(rings - {RingOf(k, qs[k]), [x]} + {RingOf(k, q')}, qs[k := q'], n)
  {
    var qs', r := qs[k := q'], RingOf(k, qs[k]);
    var rings' := rings - {r, [x]} + {RingOf(k, q')};
    forall j: nat | j < |qs'| ensures RingOf(j, qs'[j]) in rings' {
      assert RingOf(j, qs'[j])[0] == Head(j) && r[0] == Head(k) && [x][0] == x;
    }
    forall y: nat | y < n && Loose(qs', y) ensures [y] in rings' {
      assert x in qs'[k] && y !in qs'[k];
      assert Loose(qs, y) by { forall j | 0 <= j < |qs| ensures y !in qs[j] { assert y !in qs'[j]; } }
      assert [y][0] == y && [x][0] == x && r[0] == Head(k);
    }
  }

  // x leaves queue k
  lemma Departed(rings: set<seq<Addr>>, qs: B.Lists, n: nat, k: nat, x: nat, q': seq<nat>)
    requires Hold(rings, qs, n) && k < |qs| && x in qs[k]
    requires forall a: nat :: a in q' <==> a in qs[k] && a != x
    ensures Hold(rings - {RingOf(k, qs[k])} + {RingOf(k, q'), [x]}, qs[k := q'], n)
  {
    var qs', r := qs[k := q'], RingOf(k, qs[k]);
    var rings' := rings - {r} + {RingOf(k, q'), [x]};
    forall j: nat | j < |qs'| ensures RingOf(j, qs'[j]) in rings' {
      assert RingOf(j, qs'[j])[0] == Head(j) && r[0] == Head(k);
    }
    forall y: nat | y < n && Loose(qs', y) && y != x ensures [y] in rings' {
      assert y !in qs'[k];
      assert Loose(qs, y) by { forall j | 0 <= j < |qs| ensures y !in qs[j] { assert y !in qs'[j]; } }
      assert [y][0] == y && r[0] == Head(k);
    }
  }

  // ---------------- the three ways the queues drop an element agree ----------------

  lemma {:induction false} DropAbsent(q: seq<nat>, x: nat)
    requires x !in q
    ensures B.Drop(q, x) == q
  {
    if q != [] { DropAbsent(q[1..], x); }
  }

  lemma {:induction false} DropAt(q: seq<nat>, i: nat)
    requires B.Distinct(q) && i < |q|
    ensures B.Drop(q, q[i]) == q[..i] + q[i + 1..]
  {
    if i == 0 {
      DropAbsent(q[1..], q[0]);
    } else {
      DropAt(q[1..], i - 1);
      assert q[1..][..i - 1] == q[1..i] && q[1..][i..] == q[i + 1..];
    }
  }

  lemma SameDrops(q: seq<nat>, x: nat)
    requires B.Distinct(q)
    ensures S.Without(q, x) == T.Dequeue(q, x) == B.Drop(q, x)
  {
    if x in q {
      var i := T.DequeueIs(q, x);
      DropAt(q, i);
    } else {
      S.Absent(q, x);
      DropAbsent(q, x);
    }
  }

  // the ring without a node is that of the queue without it
  lemma RingWithout(k: nat, q: seq<nat>, i: nat)
    requires B.Distinct(q) && i < |q|
    ensures RemoveAt(RingOf(k, q), i + 1) == RingOf(k, B.Drop(q, q[i])) && RingOf(k, q)[i + 1] == q[i]
  {
    hide RingOf, RemoveAt, B.Drop, B.Distinct;
    DropAt(q, i);
    RingCut(k, q, i);
  }

  lemma RingCut(k: nat, q: seq<nat>, i: nat)
    requires i < |q|
    ensures RemoveAt(RingOf(k, q), i + 1) == RingOf(k, q[..i] + q[i + 1..]) && RingOf(k, q)[i + 1] == q[i]
  {}

  lemma RingWith(k: nat, q: seq<nat>, i: nat, x: nat)
    requires i <= |q|
    ensures InsertAt(RingOf(k, q), i + 1, x) == RingOf(k, T.Enqueue(q, i, x))
  {}

  lemma EnqueueMembers(q: seq<nat>, i: nat, x: nat)
    requires i <= |q|
    ensures forall a: nat :: a in T.Enqueue(q, i, x) <==> a in q || a == x
  {
    assert q == q[..i] + q[i..];
  }

  // element i of the queue, or its head
  function NodeAt(k: nat, q: seq<nat>, i: nat): Addr
    requires i <= |q|
  {
    if i == |q| then Head(k) else q[i]
  }

  lemma Follows(m: Links, r: seq<Addr>, i: nat)
    requires Ring(m, r) && i < |r|
    ensures r[i] in m && m[r[i]].next == r[Succ(r, i)]
  {}

  lemma AfterNode(k: nat, q: seq<nat>, i: nat)
    requires i <= |q|
    ensures var r := RingOf(k, q); |r| == |q| + 1 && r[Succ(r, i)] == NodeAt(k, q, i) && r[i] == if i == 0 then Head(k) else q[i - 1]
  {}

  // walking from the head by next meets the queue in order
  lemma NextNode(m: Links, k: nat, q: seq<nat>)
    requires Ring(m, RingOf(k, q))
    ensures Head(k) in m && m[Head(k)].next == NodeAt(k, q, 0)
    ensures forall i: nat :: i < |q| ==> q[i] in m && m[q[i]].next == NodeAt(k, q, i + 1)
  {
    hide Ring, RingOf, Succ, NodeAt, Head;
    var r := RingOf(k, q);
    AfterNode(k, q, 0);
    Follows(m, r, 0);
    forall i: nat | i < |q| ensures q[i] in m && m[q[i]].next == NodeAt(k, q, i + 1) {
      AfterNode(k, q, i + 1);
      Follows(m, r, i + 1);
    }
  }

  lemma PlaceStep(q: seq<nat>, when: map<nat, nat>, w: nat, i: nat)
    requires i < |q| && q[i] in when
    ensures T.Place(q, when, w, i) == if w < when[q[i]] then i else T.Place(q, when, w, i + 1)
  {}

  lemma PlaceStop(q: seq<nat>, when: map<nat, nat>, w: nat)
    ensures T.Place(q, when, w, |q|) == |q|
  {}

  lemma UnlinkHere(qs: B.Lists, k: nat, x: nat)
    requires k < |qs| && x in qs[k] && forall j :: 0 <= j < |qs| && j != k ==> x !in qs[j]
    ensures B.Unlink(qs, x) == qs[k := B.Drop(qs[k], x)]
  {
    B.WhereIs(qs, x, 0);
    assert B.Linked(qs, x);
  }

  lemma LooseUnlinked(qs: B.Lists, y: nat, x: nat)
    requires Loose(qs, x)
    ensures Loose(B.Unlink(qs, y), x)
  {
    B.WhereIs(qs, y, 0);
    var w := B.Where(qs, y, 0);
    if w < |qs| { B.DropIs(qs[w], y); }
  }

  lemma LooseStill(qs: B.Lists, k: nat, y: nat, x: nat)
    requires k < |qs| && Loose(qs, x) && x != y
    ensures Loose(B.Append(qs, k, y), x)
  {}

  lemma WithoutIs(i: nat, o: nat)
    ensures Without(i, o) == i || Without(i, o) == Buddy(i, o)
  {}

  // the right half of the first free block of order k is on no list
  lemma HalfLoose(qs: B.Lists, b: Blocks, live: set<nat>, units: set<nat>, count: nat, k: nat)
    requires B.PoolOk(qs, b, live, units) && B.Below(units, count) && 0 < k < B.ORDERS && qs[k] != []
    ensures var i, j := qs[k][0], Buddy(qs[k][0], k - 1); 0 <= j < count && j != i && Loose(qs[k := qs[k][1..]], j)
  {
    var i := qs[k][0];
    assert i in qs[k] && i in b && b[i] == k;
    SplitHere(b, i);
    Halves(i, k - 1);
    var j := Buddy(i, k - 1);
    SplitTiled(b, units, i);
    B.BlockBelow(SplitBlock(b, i), units, count, j);
    forall o | 0 <= o < |qs| ensures j !in qs[o] {}
  }

  lemma SplitPool(qs: B.Lists, b: Blocks, live: set<nat>, units: set<nat>, k: nat)
    requires B.PoolOk(qs, b, live, units) && 0 < k < B.ORDERS && qs[k] != [] && qs[k - 1] == []
    ensures qs[k][0] in b && b[qs[k][0]] == k && B.PoolOk(Halved(qs, k), SplitBlock(b, qs[k][0]), live, units)
  {
    assert |qs| == B.ORDERS;
    hide Tiled, B.ListsOk, Buddy;
    var i := qs[k][0];
    B.TiledTidy(b, units);
    B.SplitStep(qs, b, live, k);
    SplitTiled(b, units, i);
    assert live <= SplitBlock(b, i).Keys;
    HalvedIs(qs, k);
  }

  // the first block of list k is halved and its halves go last on the list below
  function Halved(qs: B.Lists, k: nat): B.Lists
    requires 0 < k < |qs| && qs[k] != []
  {
    var i := qs[k][0];
    var half: nat := Buddy(i, k - 1);
    B.Append(B.Append(qs[k := qs[k][1..]], k - 1, i), k - 1, half)
  }

  lemma HalvedIs(qs: B.Lists, k: nat)
    requires 0 < k < |qs| && qs[k] != []
    ensures var i := qs[k][0]; Halved(qs, k) == qs[k := qs[k][1..]][k - 1 := qs[k - 1] + [i, Buddy(i, k - 1)]]
  {
    var i := qs[k][0];
    var l := qs[k := qs[k][1..]];
    assert l[k - 1] + [i] + [Buddy(i, k - 1)] == qs[k - 1] + [i, Buddy(i, k - 1)];
  }

  lemma HalvedLists(qs: B.Lists, k: nat)
    requires 0 < k < |qs| && qs[k] != []
    ensures |Halved(qs, k)| == |qs| && Halved(qs, k)[k - 1] != [] && forall j :: 0 <= j < k - 1 ==> Halved(qs, k)[j] == qs[j]
  {}

  lemma SplitsOn(qs: B.Lists, b: Blocks, live: set<nat>, units: set<nat>, k: nat, o: nat)
    requires B.PoolOk(qs, b, live, units) && |qs| == B.ORDERS && o < k < B.ORDERS && qs[k] != []
    requires forall j :: o <= j < k ==> qs[j] == []
    ensures var l := Halved(qs, k); var i := qs[k][0];
            && |l| == B.ORDERS && l[k - 1] != [] && (forall j :: o <= j < k - 1 ==> l[j] == [])
            && i in b && b[i] > 0 && B.PoolOk(l, SplitBlock(b, i), live, units) && B.SplitLists(qs, k, o) == B.SplitLists(l, k - 1, o)
  {
    hide B.PoolOk, SplitBlock, B.SplitLists;
    P.SplitListsStep(qs, k, o);
    SplitPool(qs, b, live, units, k);
    HalvedLists(qs, k);
  }

  // the nodes from a to b are alone, and there are no others
  ghost predicate AllAlone(rings: set<seq<Addr>>, a: int, b: int) {
    && (forall x :: a <= x < b ==> [x] in rings)
    && (forall r :: r in rings ==> |r| == 1 && a <= r[0] < b)
  }

  lemma AloneOnce(rings: set<seq<Addr>>, a: int, b: int)
    requires AllAlone(rings, a, b) && a <= b
    ensures forall r :: r in rings ==> b !in r
    ensures AllAlone(rings + {[b]}, a, b + 1)
  {}

  lemma AloneHold(rings: set<seq<Addr>>, heads: nat, n: nat)
    requires AllAlone(rings, Head(heads) + 1, n)
    ensures Hold(rings, seq(heads, _ => []), n)
  {
    var qs: B.Lists := seq(heads, _ => []);
    forall j: nat | j < heads ensures RingOf(j, qs[j]) in rings { assert RingOf(j, qs[j]) == [Head(j)]; }
  }

  class LinkedQueues {
    const links: ListPool
    const count: nat
    ghost var queues: B.Lists

    ghost predicate Valid()
      reads this, links
    {
      links.Valid() && Hold(links.rings, queues, count)
    }

    // LIST_INIT of the heads, list_init of the nodes
    constructor (heads: nat, n: nat)
      ensures Valid() && queues == seq(heads, _ => []) && count == n && fresh(links)
    {
      var pool := new ListPool();
      hide Rung;
      var k: int := Head(heads) + 1;
      while k < n
        invariant Head(heads) < k <= n && pool.Valid() && fresh(pool) && AllAlone(pool.rings, Head(heads) + 1, k)
      {
        AloneOnce(pool.rings, Head(heads) + 1, k);
        pool.Init(k);
        k := k + 1;
      }
      links, count, queues := pool, n, seq(heads, _ => []);
      new;
      AloneHold(links.rings, heads, n);
    }

    // list_is_empty of a head
    method IsEmpty(k: nat) returns (empty: bool)
      requires Valid() && k < |queues|
      ensures empty <==> queues[k] == []
    {
      ghost var r := RingOf(k, queues[k]);
      assert r[0] == Head(k);
      empty := links.IsEmpty(Head(k), r);
      assert empty ==> |r| == 1;
      assert queues[k] == [] ==> r == [Head(k)];
    }

    // list_is_empty of an element's node: is it on a queue?
    method IsLinked(x: nat) returns (linked: bool)
      requires Valid() && x < count
      ensures linked <==> B.Linked(queues, x)
    {
      ghost var r := [x];
      if !Loose(queues, x) {
        ghost var k :| 0 <= k < |queues| && x in queues[k];
        r := RingOf(k, queues[k]);
        assert r[0] == Head(k);
      }
      var alone := links.IsEmpty(x, r);
      linked := !alone;
    }

    // the node behind the head
    method Front(k: nat) returns (node: Addr)
      requires Valid() && k < |queues|
      ensures node == NodeAt(k, queues[k], 0)
    {
      RungAt(links.nodes, links.rings, RingOf(k, queues[k]));
      NextNode(links.nodes, k, queues[k]);
      node := links.nodes[Head(k)].next;
    }

    // a node next to the place i of queue k, and a node alone
    lemma BeforeReady(k: nat, i: nat, x: nat)
      requires Valid() && k < |queues| && i <= |queues[k]| && x < count && Loose(queues, x)
      ensures RingOf(k, queues[k]) in links.rings && [x] in links.rings && RingOf(k, queues[k]) != [x]
      ensures RingOf(k, queues[k])[if i == |queues[k]| then 0 else i + 1] == NodeAt(k, queues[k], i)
    {
      assert RingOf(k, queues[k])[0] == Head(k);
    }

    // list_insert_before, an element or the head
    method InsertBefore(node: Addr, x: nat, ghost k: nat, ghost i: nat)
      requires Valid() && k < |queues| && i <= |queues[k]| && node == NodeAt(k, queues[k], i) && x < count && Loose(queues, x)
      modifies this`queues, links
      ensures Valid() && queues == old(queues)[k := T.Enqueue(old(queues)[k], i, x)]
    {
      hide Rung, Hold, T.Enqueue, InsertAt;
      ghost var q := queues[k];
      ghost var r := RingOf(k, q);
      BeforeReady(k, i, x);
      RingWith(k, q, i, x);
      EnqueueMembers(q, i, x);
      Joined(links.rings, queues, count, k, x, T.Enqueue(q, i, x));
      links.InsertBefore(node, x, r, if i == |q| then 0 else i + 1);
      queues := queues[k := T.Enqueue(q, i, x)];
    }

    // list_insert_before the head: x goes last
    method Append(k: nat, x: nat)
      requires Valid() && k < |queues| && x < count && Loose(queues, x)
      modifies this`queues, links
      ensures Valid() && queues == B.Append(old(queues), k, x)
    {
      hide Hold;
      InsertBefore(Head(k), x, k, |queues[k]|);
      assert T.Enqueue(old(queues)[k], |old(queues)[k]|, x) == old(queues)[k] + [x];
    }

    // where x is linked
    lemma Spot(x: nat) returns (k: nat, i: nat)
      requires Valid() && B.Linked(queues, x)
      ensures k < |queues| && i < |queues[k]| && queues[k][i] == x && RingOf(k, queues[k]) in links.rings
      ensures B.Distinct(queues[k]) && forall j :: 0 <= j < |queues| && j != k ==> x !in queues[j]
    {
      k :| 0 <= k < |queues| && x in queues[k];
      i :| 0 <= i < |queues[k]| && queues[k][i] == x;
      QueuesApart(links.nodes, links.rings, queues, count);
    }

    // list_remove
    method Remove(x: nat)
      requires Valid() && B.Linked(queues, x)
      modifies this`queues, links
      ensures Valid() && queues == B.Unlink(old(queues), x) && Loose(queues, x)
    {
      ghost var k, i := Spot(x);
      hide Rung, Hold, RemoveAt, B.Drop, B.Unlink, B.Distinct, B.Linked;
      ghost var q := queues[k];
      RingWithout(k, q, i);
      B.DropIs(q, x);
      UnlinkHere(queues, k, x);
      Departed(links.rings, queues, count, k, x, B.Drop(q, x));
      assert |RingOf(k, q)| > 1;
      links.Remove(x, RingOf(k, q), i + 1);
      queues := queues[k := B.Drop(q, x)];
    }

    // ---------------- the run queue: schedule_task, unschedule_task, giveup_cpu ----------------

    method ScheduleTask(t: nat, ghost s: S.Kernel)
      requires Valid() && |queues| > 0 && t < count && s.run == queues[0] && (t in queues[0] || Loose(queues, t))
      modifies this`queues, links
      ensures Valid() && queues == old(queues)[0 := S.ScheduleTask(s, t).run]
    {
      hide Hold;
      var linked := IsLinked(t);
      if !linked {
        Append(0, t);
      } else {
        assert queues[0 := queues[0]] == queues;
      }
    }

    method UnscheduleTask(t: nat)
      requires Valid() && |queues| > 0 && t < count && (t in queues[0] || Loose(queues, t))
      modifies this`queues, links
      ensures Valid() && queues == old(queues)[0 := S.Without(old(queues)[0], t)]
    {
      QueuesApart(links.nodes, links.rings, queues, count);
      hide Hold;
      SameDrops(queues[0], t);
      var linked := IsLinked(t);
      if linked {
        UnlinkHere(queues, 0, t);
        Remove(t);
      } else {
        S.Absent(queues[0], t);
        assert queues[0 := queues[0]] == queues;
      }
    }

    // the running task goes to the end
    method Requeue(t: nat)
      requires Valid() && |queues| > 0 && t in queues[0]
      modifies this`queues, links
      ensures Valid() && queues == old(queues)[0 := S.Without(old(queues)[0], t) + [t]]
    {
      QueuesApart(links.nodes, links.rings, queues, count);
      assert t < count;
      hide Hold;
      SameDrops(queues[0], t);
      UnlinkHere(queues, 0, t);
      Remove(t);
      Append(0, t);
    }

    // ---------------- timer_register, timer_unregister ----------------

    // LIST_FOREACH, up to the first timer due later
    method Walk(when: map<nat, nat>, x: nat) returns (node: Addr, ghost i: nat)
      requires Valid() && |queues| == 1 && x in when && forall y :: y in queues[0] ==> y in when
      ensures i <= |queues[0]| && i == T.Place(queues[0], when, when[x], 0) && node == NodeAt(0, queues[0], i)
    {
      ghost var q := queues[0];
      RungAt(links.nodes, links.rings, RingOf(0, q));
      NextNode(links.nodes, 0, q);
      hide Hold, Ring, Rung, T.Place, RingOf;
      node, i := links.nodes[Head(0)].next, 0;
      while node != Head(0)
        invariant i <= |q| && node == NodeAt(0, q, i)
        invariant T.Place(q, when, when[x], 0) == T.Place(q, when, when[x], i)
        decreases |q| - i
      {
        PlaceStep(q, when, when[x], i);
        if when[x] < when[node] {
          return;
        }
        node := links.nodes[node].next;
        i := i + 1;
      }
      PlaceStop(q, when, when[x]);
    }

    // when is the timers' deadlines; due the value timer_backend_set was last given
    method RegisterTimer(when: map<nat, nat>, x: nat, backend: nat) returns (due: nat)
      requires Valid() && |queues| == 1 && x < count && x in when && forall y :: y in queues[0] ==> y in when
      modifies this`queues, links
      ensures Valid() && |queues| == 1 && T.Queue(queues[0], when, due) == T.Register(T.Queue(old(queues)[0], when, backend), x)
    {
      hide Hold, Rung, T.Place, T.Enqueue, RingOf;
      var linked := IsLinked(x);
      if linked {
        return backend;
      }
      assert Loose(queues, x);
      var node, i := Walk(when, x);
      ghost var q := queues[0];
      InsertBefore(node, x, 0, i);
      EnqueueMembers(q, i, x);
      var front := Front(0);
      assert x in queues[0];
      assert queues[0][0] in queues[0];
      due := when[front];
    }

    method UnregisterTimer(when: map<nat, nat>, x: nat, backend: nat) returns (due: nat)
      requires Valid() && |queues| == 1 && x < count && forall y :: y in queues[0] ==> y in when
      modifies this`queues, links
      ensures Valid() && |queues| == 1 && T.Queue(queues[0], when, due) == T.Unregister(T.Queue(old(queues)[0], when, backend), x)
    {
      var linked := IsLinked(x);
      if !linked {
        return backend;
      }
      QueuesApart(links.nodes, links.rings, queues, count);
      hide Hold;
      ghost var q := queues[0];
      SameDrops(q, x);
      B.DropIs(q, x);
      UnlinkHere(queues, 0, x);
      Remove(x);
      var empty := IsEmpty(0);
      if empty {
        due := 0;
      } else {
        var front := Front(0);
        assert queues[0][0] in queues[0];
        due := when[front];
      }
    }

    // ---------------- page_allocate and page_free, vaddr_allocate and vaddr_free ----------------

    method PageAllocate(o: nat, ghost b0: Blocks, ghost live: set<nat>, ghost units: set<nat>) returns (ok: bool, index: nat)
      requires Valid() && B.PoolOk(queues, b0, live, units) && B.Below(units, count) && o <= B.ORDERS
      modifies this`queues, links
      ensures Valid() && |queues| == B.ORDERS
      ensures o < B.ORDERS ==> B.AllocLists(old(queues), o) == B.Outcome(queues, if ok then B.Some(index) else B.None)
      ensures o == B.ORDERS ==> !ok && queues == old(queues)
    {
      assert |queues| == B.ORDERS;
      hide Hold, Rung, B.PoolOk, B.SplitLists, B.FirstFit, B.Below;
      ok, index := false, 0;
      var k := FirstList(o);
      if k == B.ORDERS {
        return;
      }
      SplitTo(k, o, b0, live, units);
      index := Front(o);
      TakeFront(o);
      ok := true;
    }

    // the splitting loop
    method SplitTo(k0: nat, o: nat, ghost b0: Blocks, ghost live: set<nat>, ghost units: set<nat>)
      requires Valid() && |queues| == B.ORDERS && B.PoolOk(queues, b0, live, units) && B.Below(units, count)
      requires o <= k0 < B.ORDERS && queues[k0] != [] && forall j :: o <= j < k0 ==> queues[j] == []
      modifies this`queues, links
      ensures Valid() && queues == B.SplitLists(old(queues), k0, o)
    {
      hide Hold, Rung, B.PoolOk, B.SplitLists, B.FirstFit, B.Below, Halved, SplitBlock, Buddy, RingOf, Tiled;
      ghost var b, qs := b0, queues;
      var k := k0;
      while k > o
        invariant o <= k < B.ORDERS && queues == qs && |qs| == B.ORDERS && qs[k] != [] && forall j :: o <= j < k ==> qs[j] == []
        invariant Valid() && B.PoolOk(qs, b, live, units)
        invariant B.SplitLists(qs, k, o) == B.SplitLists(old(queues), k0, o)
      {
        SplitsOn(qs, b, live, units, k, o);
        SplitOnce(k, b, live, units);
        b, qs, k := SplitBlock(b, qs[k][0]), Halved(qs, k), k - 1;
      }
      P.SplitListsStop(qs, o);
    }

    // the first list from o on that is not empty
    method FirstList(o: nat) returns (k: nat)
      requires Valid() && |queues| == B.ORDERS && o <= B.ORDERS
      ensures o <= k <= B.ORDERS && k == B.FirstFit(queues, o)
      ensures (forall j :: o <= j < k ==> queues[j] == []) && (k < B.ORDERS ==> queues[k] != [])
    {
      hide Hold, Rung, B.FirstFit;
      k := o;
      while k < B.ORDERS
        invariant o <= k <= B.ORDERS && forall j :: o <= j < k ==> queues[j] == []
        invariant B.FirstFit(queues, o) == B.FirstFit(queues, k)
      {
        var empty := IsEmpty(k);
        if !empty {
          P.FirstFitStop(queues, k);
          return;
        }
        P.FirstFitStep(queues, k);
        k := k + 1;
      }
      P.FirstFitStop(queues, k);
    }

    // the body of the splitting loop
    method SplitOnce(k: nat, ghost b: Blocks, ghost live: set<nat>, ghost units: set<nat>)
      requires Valid() && B.PoolOk(queues, b, live, units) && B.Below(units, count) && 0 < k < B.ORDERS == |queues| && queues[k] != []
      modifies this`queues, links
      ensures Valid() && queues == Halved(old(queues), k)
    {
      HalfLoose(queues, b, live, units, count, k);
      hide Hold, Rung, B.PoolOk, Buddy;
      var i := Front(k);
      ghost var j := Buddy(queues[k][0], k - 1);
      TakeFront(k);
      LooseStill(queues, k - 1, i, j);
      Append(k - 1, i);
      Append(k - 1, Buddy(i, k - 1));
    }

    // list_remove of the first node
    method TakeFront(k: nat)
      requires Valid() && k < |queues| && queues[k] != []
      modifies this`queues, links
      ensures Valid() && queues == old(queues)[k := old(queues)[k][1..]] && Loose(queues, old(queues)[k][0]) && old(queues)[k][0] < count
    {
      var i := Front(k);
      QueuesApart(links.nodes, links.rings, queues, count);
      assert i in queues[k] && i < count;
      hide Hold, Rung, B.Unlink, B.Drop;
      assert B.Linked(queues, i);
      DropAt(queues[k], 0);
      assert queues[k][..0] + queues[k][1..] == queues[k][1..];
      UnlinkHere(queues, k, i);
      Remove(i);
    }

    // p is on no list
    method PageFree(p: nat, o0: nat)
      requires Valid() && |queues| == B.ORDERS && o0 < B.ORDERS && p < count && Loose(queues, p)
      modifies this`queues, links
      ensures Valid() && queues == B.LiteralFree(old(queues), count, p, o0)
    {
      hide Hold, Rung, Buddy, Without, B.Unlink, B.LiteralFree;
      var index: nat, o: nat := p, o0;
      while o < MAX_ORDER
        invariant o < B.ORDERS == |queues| && index < count && Loose(queues, index) && Valid()
        invariant B.LiteralFree(queues, count, index, o) == B.LiteralFree(old(queues), count, p, o0)
        decreases B.ORDERS - o
      {
        P.LiteralFreeStep(queues, count, index, o);
        var buddy := Buddy(index, o);
        if buddy >= count {
          break;
        }
        var linked := IsLinked(buddy);
        if !linked {
          break;
        }
        LooseUnlinked(queues, buddy, index);
        Remove(buddy);
        WithoutIs(index, o);
        index := Without(index, o);
        o := o + 1;
      }
      P.LiteralFreeStop(queues, count, index, o);
      Append(o, index);
    }
  }
}
