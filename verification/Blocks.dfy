/** Sets of buddy blocks (kernel/lib/mem.c:94-297): a map from the first unit of a block to
    its order, a block of order o being 2^o units at a multiple of 2^o. */
module Blocks {
  import opened BinIndex
  import opened Alignment

  type Blocks = map<nat, nat>

  const MAX_ORDER: nat := 15                   // BUDDY_ORDER_LIMIT - 1

  predicate Holds(b: Blocks, i: nat, u: int)
    requires i in b
  {
    i <= u < i + Pow2(b[i])
  }

  ghost predicate Covers(b: Blocks, u: int) {
    exists i :: i in b && Holds(b, i, u)
  }

  predicate Separate(i: nat, o: nat, j: nat, q: nat) {
    i + Pow2(o) <= j || j + Pow2(q) <= i
  }

  predicate Placed(i: nat, o: nat) {
    o <= MAX_ORDER && MultipleOf(i, Pow2(o))
  }

  ghost predicate Tidy(b: Blocks) {
    && (forall i :: i in b ==> Placed(i, b[i]))
    && (forall i, j :: i in b && j in b && i != j ==> Separate(i, b[i], j, b[j]))
  }

  // the blocks are aligned, overlap nowhere, and make up exactly the units
  ghost predicate Tiled(b: Blocks, units: set<nat>) {
    Tidy(b) && forall u :: u in units <==> Covers(b, u)
  }

  // index ^ (1 << o)
  function Buddy(i: nat, o: nat): nat {
    if i / Pow2(o) % 2 == 0 then i + Pow2(o) else i - Pow2(o)
  }

  // index & ~(1 << o)
  function Without(i: nat, o: nat): nat {
    if i / Pow2(o) % 2 == 0 then i else i - Pow2(o)
  }

  // no block next to a buddy of its own order, below the highest
  ghost predicate Coalesced(b: Blocks) {
    forall i {:trigger i in b} :: i in b && b[i] < MAX_ORDER ==> !Mergeable(b, i, b[i])
  }

  predicate Mergeable(b: Blocks, i: nat, o: nat) {
    Buddy(i, o) in b && b[Buddy(i, o)] == o
  }

  // ---------------- aligned intervals ----------------

  lemma Gap(x: nat, y: nat, d: nat)
    requires MultipleOf(x, d) && MultipleOf(y, d) && x < y
    ensures x + d <= y
  {
    var p, q := x / d, y / d;
    assert x == d * p && y == d * q;
    if p >= q { Ordered(d, q, p); }
    Above(d, p, q);
  }

  lemma Ordered(d: nat, a: nat, b: nat)
    requires a <= b
    ensures d * a <= d * b
  {}

  lemma LowerOrder(i: nat, o: nat, q: nat)
    requires MultipleOf(i, Pow2(q)) && o <= q
    ensures MultipleOf(i, Pow2(o)) && Pow2(o) <= Pow2(q) && MultipleOf(Pow2(q), Pow2(o))
  {
    Pow2Multiple(q, o);
    DivisorOf(i, Pow2(q), Pow2(o));
  }

  lemma SumOf(x: nat, y: nat, d: nat)
    requires MultipleOf(x, d) && MultipleOf(y, d)
    ensures MultipleOf(x + y, d)
    ensures x >= y ==> MultipleOf(x - y, d)
  {
    var p, q := x / d, y / d;
    assert x == d * p && y == d * q;
    Spread(d, p, q);
    ModIs(x + y, d, p + q, 0);
    if x >= y {
      if p < q { Above(d, p, q); }
      Spread(d, p - q, q);
      ModIs(x - y, d, p - q, 0);
    }
  }

  lemma Spread(d: nat, p: int, q: int)
    ensures d * (p + q) == d * p + d * q
  {}

  // two aligned blocks are nested or apart
  lemma Nested(i: nat, o: nat, j: nat, q: nat)
    requires MultipleOf(i, Pow2(o)) && MultipleOf(j, Pow2(q)) && o <= q
    ensures Separate(i, o, j, q) || (j <= i && i + Pow2(o) <= j + Pow2(q))
  {
    var d := Pow2(o);
    LowerOrder(j, o, q);
    SumOf(j, Pow2(q), d);
    hide MultipleOf, Pow2;
    if i < j { Gap(i, j, d); }
    if i < j + Pow2(q) { Gap(i, j + Pow2(q), d); }
  }

  // the two halves of a block, and how buddies lie
  lemma Halves(i: nat, o: nat)
    requires MultipleOf(i, Pow2(o + 1))
    ensures MultipleOf(i, Pow2(o)) && MultipleOf(i + Pow2(o), Pow2(o))
    ensures Pow2(o + 1) == 2 * Pow2(o)
    ensures Buddy(i, o) == i + Pow2(o) && Buddy(i + Pow2(o), o) == i && Without(i, o) == i && Without(i + Pow2(o), o) == i
  {
    hide MultipleOf;
    var d := Pow2(o);
    LowerOrder(i, o, o + 1);
    SelfMultiple(d);
    SumOf(i, d, d);
    Parity(i, d);
  }

  lemma Parity(i: nat, d: nat)
    requires MultipleOf(i, 2 * d) && d > 0
    ensures i / d % 2 == 0 && (i + d) / d % 2 == 1
  {
    var k := i / (2 * d);
    assert i == (2 * d) * k;
    Assoc2(d, k);
    ModIs(i, d, 2 * k, 0);
    Spread(d, 2 * k, 1);
    ModIs(i + d, d, 2 * k + 1, 0);
  }

  lemma SelfMultiple(d: nat)
    requires d > 0
    ensures MultipleOf(d, d)
  {}

  lemma Assoc2(d: nat, k: nat)
    ensures (2 * d) * k == d * (2 * k)
  {}

  // a block is the left or the right half of the block one order up
  lemma Sides(i: nat, o: nat)
    requires MultipleOf(i, Pow2(o))
    ensures Without(i, o) == i || Without(i, o) == i - Pow2(o)
    ensures Without(i, o) >= 0 && MultipleOf(Without(i, o), Pow2(o + 1))
    ensures if Without(i, o) == i then Buddy(i, o) == i + Pow2(o) else Buddy(i, o) == Without(i, o) == i - Pow2(o)
  {
    var d := Pow2(o);
    var q := i / d;
    assert i == d * q;
    var k := q / 2;
    assert q == 2 * k + q % 2;
    Spread(d, 2 * k, q % 2);
    Assoc2(d, k);
    if q % 2 == 0 {
      ModIs(i, 2 * d, k, 0);
    } else {
      assert i == (2 * d) * k + d;
      assert i - d == (2 * d) * k;
      ModIs(i - d, 2 * d, k, 0);
    }
  }

  // ---------------- splitting and joining ----------------

  function SplitBlock(b: Blocks, i: nat): Blocks
    requires i in b && b[i] > 0
  {
    var o := b[i] - 1;
    b[i := o][i + Pow2(o) := o]
  }

  function JoinBlock(b: Blocks, i: nat): Blocks
    requires i in b
  {
    (b - {i, Buddy(i, b[i])})[Without(i, b[i]) := b[i] + 1]
  }

  lemma SplitHere(b: Blocks, i: nat)
    requires Tidy(b) && i in b && b[i] > 0
    ensures var o := b[i] - 1; i + Pow2(o) !in b && Pow2(b[i]) == 2 * Pow2(o)
    ensures MultipleOf(i + Pow2(b[i] - 1), Pow2(b[i] - 1)) && Buddy(i + Pow2(b[i] - 1), b[i] - 1) == i
  {
    var o := b[i] - 1;
    Halves(i, o);
    forall j | j in b && j != i ensures j != i + Pow2(o) { assert Separate(i, b[i], j, b[j]) && Pow2(b[j]) >= 1; }
  }

  lemma SplitTiled(b: Blocks, units: set<nat>, i: nat)
    requires Tiled(b, units) && i in b && b[i] > 0
    ensures Tiled(SplitBlock(b, i), units)
  {
    var o := b[i] - 1;
    var r := i + Pow2(o);
    var b' := SplitBlock(b, i);
    Halves(i, o);
    SplitHere(b, i);
    forall j | j in b' ensures Placed(j, b'[j]) { assert j != r ==> Placed(j, b[j]); }
    forall j, k | j in b' && k in b' && j != k ensures Separate(j, b'[j], k, b'[k]) {
      var j', k' := if j == r then i else j, if k == r then i else k;
      assert j' != k' ==> Separate(j', b[j'], k', b[k']);
    }
    SplitCovers(b, i);
  }

  lemma SplitCovers(b: Blocks, i: nat)
    requires i in b && b[i] > 0 && i + Pow2(b[i] - 1) !in b && Pow2(b[i]) == 2 * Pow2(b[i] - 1)
    ensures forall u :: Covers(SplitBlock(b, i), u) <==> Covers(b, u)
  {
    hide Pow2;
    var r := i + Pow2(b[i] - 1);
    var b' := SplitBlock(b, i);
    forall u ensures Covers(b', u) <==> Covers(b, u) {
      if Covers(b, u) {
        var j :| j in b && Holds(b, j, u);
        assert Holds(b', if j == i && u >= r then r else j, u);
      }
      if Covers(b', u) {
        var j :| j in b' && Holds(b', j, u);
        assert Holds(b, if j == r then i else j, u);
      }
    }
  }

  lemma JoinTiled(b: Blocks, units: set<nat>, i: nat)
    requires Tiled(b, units) && i in b && b[i] < MAX_ORDER && Mergeable(b, i, b[i])
    ensures Tiled(JoinBlock(b, i), units)
  {
    var o := b[i];
    var j, k := Buddy(i, o), Without(i, o);
    var b' := JoinBlock(b, i);
    assert Placed(i, o);
    Sides(i, o);
    assert Pow2(o + 1) == 2 * Pow2(o);
    forall x | x in b' ensures Placed(x, b'[x]) { assert x != k ==> Placed(x, b[x]); }
    forall x, y | x in b' && y in b' && x != y ensures Separate(x, b'[x], y, b'[y]) {
      JoinSeparate(b, i, x, y);
    }
    JoinCovers(b, i);
  }

  lemma JoinCovers(b: Blocks, i: nat)
    requires Tidy(b) && i in b && b[i] < MAX_ORDER && Mergeable(b, i, b[i])
    ensures forall u :: Covers(JoinBlock(b, i), u) <==> Covers(b, u)
  {
    assert Placed(i, b[i]);
    Sides(i, b[i]);
    assert Pow2(b[i] + 1) == 2 * Pow2(b[i]);
    JoinedCovers(b, i, Buddy(i, b[i]), Without(i, b[i]));
  }

  // i and j, the two halves of k, make way for k
  lemma JoinedCovers(b: Blocks, i: nat, j: nat, k: nat)
    requires i in b && j in b && b[j] == b[i] && Pow2(b[i] + 1) == 2 * Pow2(b[i])
    requires (k == i && j == i + Pow2(b[i])) || (k == j && i == j + Pow2(b[i]))
    ensures forall u :: Covers((b - {i, j})[k := b[i] + 1], u) <==> Covers(b, u)
  {
    hide Pow2;
    var b' := (b - {i, j})[k := b[i] + 1];
    forall u ensures Covers(b', u) <==> Covers(b, u) {
      if Covers(b, u) {
        var x :| x in b && Holds(b, x, u);
        assert Holds(b', if x == i || x == j then k else x, u);
      }
      if Covers(b', u) {
        var x :| x in b' && Holds(b', x, u);
        assert if x == k then Holds(b, i, u) || Holds(b, j, u) else Holds(b, x, u);
      }
    }
  }

  lemma JoinSeparate(b: Blocks, i: nat, x: nat, y: nat)
    requires Tidy(b) && i in b && Mergeable(b, i, b[i]) && x in JoinBlock(b, i) && y in JoinBlock(b, i) && x != y
    ensures var b' := JoinBlock(b, i); Separate(x, b'[x], y, b'[y])
  {
    var o := b[i];
    var j, k := Buddy(i, o), Without(i, o);
    assert Placed(i, o);
    Sides(i, o);
    assert Pow2(o + 1) == 2 * Pow2(o);
    if x != k && y != k {
      assert Separate(x, b[x], y, b[y]);
    } else {
      var z := if x == k then y else x;
      Pow2Positive(b[z]);
      assert Separate(i, o, z, b[z]) && Separate(j, o, z, b[z]) && Separate(z, b[z], i, o) && Separate(z, b[z], j, o);
    }
  }

  lemma Pow2Positive(o: nat)
    ensures Pow2(o) >= 1
  {}

  // ---------------- runs of covered units ----------------

  ghost predicate Covered(b: Blocks, i: nat, o: nat) {
    forall u :: i <= u < i + Pow2(o) ==> Covers(b, u)
  }

  // In a coalesced set of blocks an aligned run of covered units lies in one block.
  lemma {:induction false} RunInBlock(b: Blocks, i: nat, o: nat) returns (j: nat)
    requires Tidy(b) && Coalesced(b) && Placed(i, o) && Covered(b, i, o)
    ensures j in b && b[j] >= o && j <= i && i + Pow2(o) <= j + Pow2(b[j])
    decreases o
  {
    hide MultipleOf, Buddy, Without, Coalesced;
    if o == 0 {
      assert Covers(b, i);
      j :| j in b && Holds(b, j, i);
    } else {
      var d := Pow2(o - 1);
      Halves(i, o - 1);
      assert Covered(b, i, o - 1) && Covered(b, i + d, o - 1);
      j := RunInBlock(b, i, o - 1);
      var k: nat := RunInBlock(b, i + d, o - 1);
      OneIsWhole(b, i, o, j, k);
      if b[j] < o { j := k; }
      assert Placed(j, b[j]);
      Nested(i, o, j, b[j]);
    }
  }

  // of the blocks that hold the two halves of an aligned run, one is bigger than a half
  lemma OneIsWhole(b: Blocks, i: nat, o: nat, j: nat, k: nat)
    requires Coalesced(b) && 0 < o <= MAX_ORDER && Buddy(i, o - 1) == i + Pow2(o - 1)
    requires j in b && b[j] >= o - 1 && j <= i && i + Pow2(o - 1) <= j + Pow2(b[j])
    requires k in b && b[k] >= o - 1 && k <= i + Pow2(o - 1) && i + 2 * Pow2(o - 1) <= k + Pow2(b[k])
    ensures b[j] >= o || b[k] >= o
  {
    hide Pow2, Buddy;
    assert i in b && b[i] == o - 1 ==> !Mergeable(b, i, o - 1);
  }

  // A region has only one coalesced tiling.
  lemma OneTiling(b: Blocks, c: Blocks)
    requires Tidy(b) && Coalesced(b) && Tidy(c) && Coalesced(c) && forall u :: Covers(b, u) <==> Covers(c, u)
    ensures b == c
  {
    forall i | i in b ensures i in c && c[i] == b[i] { SameBlock(b, c, i); }
    forall i | i in c ensures i in b && b[i] == c[i] { SameBlock(c, b, i); }
    assert b.Keys == c.Keys;
  }

  lemma SameBlock(b: Blocks, c: Blocks, i: nat)
    requires Tidy(b) && Coalesced(b) && Tidy(c) && Coalesced(c) && i in b
    requires forall u :: Covers(b, u) <==> Covers(c, u)
    ensures i in c && c[i] == b[i]
  {
    hide MultipleOf, Buddy, Coalesced;
    assert Covered(b, i, b[i]) by { forall u | i <= u < i + Pow2(b[i]) ensures Covers(b, u) { assert Holds(b, i, u); } }
    assert Covered(c, i, b[i]);
    var j: nat := RunInBlock(c, i, b[i]);
    assert Covered(c, j, c[j]) by { forall u | j <= u < j + Pow2(c[j]) ensures Covers(c, u) { assert Holds(c, j, u); } }
    assert Covered(b, j, c[j]);
    var k: nat := RunInBlock(b, j, c[j]);
    Pow2Positive(b[i]);
    assert k != i ==> Separate(k, b[k], i, b[i]);
    Pow2Less(b[i], c[j]);
  }

  lemma Pow2Less(o: nat, q: nat)
    ensures o < q ==> Pow2(o) < Pow2(q)
  {
    if o < q { Pow2Mono(o + 1, q); }
  }
}
