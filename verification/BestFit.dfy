/** Why the walks of tmalloc_large and tmalloc_small end at a smallest fitting chunk
    (kernel/libc/malloc/malloc.c:4429-4475, 4500-4518). */
module BestFit {
  import opened Rings
  import opened BinIndex
  import opened Codes
  import opened Tries
  import opened Bins

  // size stored at position k
  function SizeOf(c: Chains, sz: Sizes, k: nat): nat {
    if At(c, k) in sz then sz[At(c, k)] else 0
  }

  // sizes below the left child are smaller than those below the right child
  lemma LeftBelowRight(i: nat, c: Chains, sz: Sizes, a: nat, j: nat, k: nat)
    requires Abstract(i, c, sz) && j in c && k in c && a >= 1 && Under(j, 2 * a) && Under(k, 2 * a + 1)
    ensures SizeOf(c, sz, j) < SizeOf(c, sz, k)
  {
    hide TreeIndex, Pow2, Pos, Differ;
    PosKey(i, c, sz, j);
    PosKey(i, c, sz, k);
    var s, s' := sz[At(c, j)], sz[At(c, k)];
    KeyBounds(s);
    KeyBounds(s');
    UnderTrans(Key(i, s), j, 2 * a);
    UnderTrans(Key(i, s'), k, 2 * a + 1);
    ChildLog(a);
    SubtreeOrder(Key(i, s), Key(i, s'), 2 * a, 2 * a + 1);
  }

  // ... and likewise against the size being looked for
  lemma SidesOfRequest(i: nat, c: Chains, sz: Sizes, nb: nat, a: nat, j: nat)
    requires Abstract(i, c, sz) && j in c && a >= 1 && 256 <= nb < WORD && TreeIndex(nb) == i && Key(i, nb) > 0
    ensures Under(Key(i, nb), 2 * a + 1) && Under(j, 2 * a) ==> SizeOf(c, sz, j) < nb
    ensures Under(Key(i, nb), 2 * a) && Under(j, 2 * a + 1) ==> nb < SizeOf(c, sz, j)
  {
    hide TreeIndex, Pow2, Pos;
    PosKey(i, c, sz, j);
    var s := sz[At(c, j)];
    KeyBounds(s);
    KeyBounds(nb);
    ChildLog(a);
    if Under(Key(i, nb), 2 * a + 1) && Under(j, 2 * a) {
      UnderTrans(Key(i, s), j, 2 * a);
      SubtreeOrder(Key(i, s), Key(i, nb), 2 * a, 2 * a + 1);
    }
    if Under(Key(i, nb), 2 * a) && Under(j, 2 * a + 1) {
      UnderTrans(Key(i, s), j, 2 * a + 1);
      SubtreeOrder(Key(i, nb), Key(i, s), 2 * a, 2 * a + 1);
    }
  }

  // ---------------- the walk along the bits of nb ----------------

  // rk is 0 or the root of the deepest right subtree passed by on the way to k
  ghost predicate Untaken(i: nat, c: Chains, nb: nat, k: nat, rk: nat) {
    rk != 0 ==> rk in c && rk % 2 == 1 && rk > 1 && Under(k, rk - 1) && Key(i, nb) > 0 && Under(Key(i, nb), rk - 1)
  }

  // a fitting chunk at j is no better than `best`, or still ahead of the walk
  ghost predicate Ahead(c: Chains, sz: Sizes, best: nat, k: nat, rk: nat, j: nat) {
    || best <= SizeOf(c, sz, j)
    || Under(j, k)
    || (rk != 0 && (Under(j, rk) || SizeOf(c, sz, rk) < SizeOf(c, sz, j)))
  }

  ghost predicate AllAhead(c: Chains, sz: Sizes, nb: nat, best: nat, k: nat, rk: nat) {
    forall j {:trigger Ahead(c, sz, best, k, rk, j)} :: j in c && SizeOf(c, sz, j) >= nb ==> Ahead(c, sz, best, k, rk, j)
  }

  lemma WalkStep(i: nat, c: Chains, sz: Sizes, nb: nat, best: nat, best': nat, k: nat, rk: nat, b: nat)
    requires Abstract(i, c, sz) && k in c && 256 <= nb < WORD && TreeIndex(nb) == i && Key(i, nb) > 0 && b < 2
    requires k >= 1 && Under(Key(i, nb), 2 * k + b)
    requires Untaken(i, c, nb, k, rk) && AllAhead(c, sz, nb, best, k, rk)
    requires best' <= best && (SizeOf(c, sz, k) >= nb ==> best' <= SizeOf(c, sz, k))
    ensures var rk' := if b == 0 && 2 * k + 1 in c then 2 * k + 1 else rk;
            && Untaken(i, c, nb, 2 * k + b, rk')
            && AllAhead(c, sz, nb, best', 2 * k + b, rk')
  {
    hide Pos, Differ, TreeIndex, SizeOf, At;
    var rk' := if b == 0 && 2 * k + 1 in c then 2 * k + 1 else rk;
    UnderChild(k);
    if rk' == rk && rk != 0 { UnderTrans(2 * k + b, k, rk - 1); }
    forall j | j in c && SizeOf(c, sz, j) >= nb ensures Ahead(c, sz, best', 2 * k + b, rk', j) {
      assert Ahead(c, sz, best, k, rk, j);
      WalkStepOne(i, c, sz, nb, best, best', k, rk, b, j);
    }
  }

  lemma WalkStepOne(i: nat, c: Chains, sz: Sizes, nb: nat, best: nat, best': nat, k: nat, rk: nat, b: nat, j: nat)
    requires Abstract(i, c, sz) && k in c && 256 <= nb < WORD && TreeIndex(nb) == i && Key(i, nb) > 0 && b < 2
    requires k >= 1 && Under(Key(i, nb), 2 * k + b)
    requires Untaken(i, c, nb, k, rk) && j in c && SizeOf(c, sz, j) >= nb && Ahead(c, sz, best, k, rk, j)
    requires best' <= best && (SizeOf(c, sz, k) >= nb ==> best' <= SizeOf(c, sz, k))
    ensures Ahead(c, sz, best', 2 * k + b, if b == 0 && 2 * k + 1 in c then 2 * k + 1 else rk, j)
  {
    hide Abstract, TreeIndex, SizeOf, At;
    var rk' := if b == 0 && 2 * k + 1 in c then 2 * k + 1 else rk;
    if best <= SizeOf(c, sz, j) {
    } else if Under(j, k) {
      if j != k {
        DescendOne(j, k);
        SidesOfRequest(i, c, sz, nb, k, j);
        if b == 0 && Under(j, 2 * k + 1) { PrefixClosed(i, c, sz, j, 2 * k + 1); }
      }
    } else if rk' != rk {
      UnderChild(k);
      UnderTrans(2 * k + 1, k, rk - 1);
      var a := (rk - 1) / 2;
      assert rk - 1 == 2 * a && rk == 2 * a + 1;
      if Under(j, rk) {
        LeftBelowRight(i, c, sz, a, 2 * k + 1, j);
      } else {
        LeftBelowRight(i, c, sz, a, 2 * k + 1, rk);
      }
    }
  }

  // the walk falls off the trie: what is left is the deepest untaken right subtree
  lemma WalkEnd(i: nat, c: Chains, sz: Sizes, nb: nat, best: nat, k: nat, rk: nat)
    requires Abstract(i, c, sz) && k !in c && k >= 1
    requires 256 <= nb < WORD && TreeIndex(nb) == i
    requires Untaken(i, c, nb, k, rk) && AllAhead(c, sz, nb, best, k, rk)
    ensures Remaining(c, sz, nb, best, rk)
    ensures SubtreeFits(c, sz, nb, rk) && (rk != 0 ==> rk in c)
  {
    hide Pos, Differ, TreeIndex, SizeOf, At;
    forall j | j in c && SizeOf(c, sz, j) >= nb ensures Left(c, sz, best, rk, j) {
      assert Ahead(c, sz, best, k, rk, j);
      if Under(j, k) { PrefixClosed(i, c, sz, j, k); }
    }
    if rk != 0 {
      forall j | j in c && Under(j, rk) ensures SizeOf(c, sz, j) >= nb {
        var a := (rk - 1) / 2;
        assert rk - 1 == 2 * a && rk == 2 * a + 1;
        SidesOfRequest(i, c, sz, nb, a, j);
      }
    }
  }

  // ---------------- the leftmost walk ----------------

  ghost predicate Left(c: Chains, sz: Sizes, best: nat, k: nat, j: nat) {
    || best <= SizeOf(c, sz, j)
    || (k != 0 && (Under(j, k) || SizeOf(c, sz, k) < SizeOf(c, sz, j)))
  }

  // every fitting chunk is no better than `best`, below k, or worse than the one at k
  ghost predicate Remaining(c: Chains, sz: Sizes, nb: nat, best: nat, k: nat) {
    forall j {:trigger Left(c, sz, best, k, j)} :: j in c && SizeOf(c, sz, j) >= nb ==> Left(c, sz, best, k, j)
  }

  ghost predicate SubtreeFits(c: Chains, sz: Sizes, nb: nat, k: nat) {
    forall j :: j in c && k != 0 && Under(j, k) ==> SizeOf(c, sz, j) >= nb
  }

  // leftmost_child: child[0] if there is one, else child[1]
  function LeftmostChild(c: Chains, k: nat): nat {
    if 2 * k in c then 2 * k else if 2 * k + 1 in c then 2 * k + 1 else 0
  }

  lemma LeftmostStep(i: nat, c: Chains, sz: Sizes, nb: nat, best: nat, best': nat, k: nat)
    requires Abstract(i, c, sz) && k in c && k >= 1 && Remaining(c, sz, nb, best, k)
    requires best' <= best && (best' <= SizeOf(c, sz, k) || best' <= nb)
    requires SubtreeFits(c, sz, nb, k) || best' <= nb
    ensures Remaining(c, sz, nb, best', LeftmostChild(c, k))
    ensures SubtreeFits(c, sz, nb, k) ==> SubtreeFits(c, sz, nb, LeftmostChild(c, k))
  {
    hide Pos, Differ, SizeOf, At;
    var n := LeftmostChild(c, k);
    forall j | j in c && SizeOf(c, sz, j) >= nb ensures Left(c, sz, best', n, j) {
      assert Left(c, sz, best, k, j);
      LeftmostStepOne(i, c, sz, nb, best, best', k, j);
    }
    if SubtreeFits(c, sz, nb, k) {
      forall j | j in c && n != 0 && Under(j, n) ensures SizeOf(c, sz, j) >= nb {
        UnderChild(k);
        UnderTrans(j, n, k);
      }
    }
  }

  lemma LeftmostStepOne(i: nat, c: Chains, sz: Sizes, nb: nat, best: nat, best': nat, k: nat, j: nat)
    requires Abstract(i, c, sz) && k in c && k >= 1 && j in c && SizeOf(c, sz, j) >= nb && Left(c, sz, best, k, j)
    requires best' <= best && (best' <= SizeOf(c, sz, k) || best' <= nb)
    ensures Left(c, sz, best', LeftmostChild(c, k), j)
  {
    hide Abstract, SizeOf, At;
    if Under(j, k) && j != k {
      DescendOne(j, k);
      if 2 * k in c {
        if Under(j, 2 * k + 1) { LeftBelowRight(i, c, sz, k, 2 * k, j); }
      } else if Under(j, 2 * k) {
        PrefixClosed(i, c, sz, j, 2 * k);
      } else {
        PrefixClosed(i, c, sz, j, 2 * k + 1);
      }
    }
  }

  // ---------------- from one bin to all of them ----------------

  // v is a smallest large chunk of size at least nb
  ghost predicate BestLarge(free: Sizes, v: Addr, nb: nat) {
    && v in free && free[v] >= nb && free[v] >= 256
    && forall a :: a in free && free[a] >= 256 && free[a] >= nb ==> free[v] <= free[a]
  }

  ghost predicate NoLarge(free: Sizes, nb: nat) {
    forall a :: a in free && free[a] >= 256 ==> free[a] < nb
  }

  // no chunk of bin i of size at least nb is smaller than s
  ghost predicate Bounded(i: nat, free: Sizes, nb: nat, s: nat) {
    forall a :: a in free && free[a] >= 256 && TreeIndex(free[a]) == i && free[a] >= nb ==> s <= free[a]
  }

  lemma BoundedBin(i: nat, c: Chains, free: Sizes, nb: nat, s: nat)
    requires Abstract(i, c, free) && Remaining(c, free, nb, s, 0)
    requires forall a :: a in free && free[a] >= 256 && TreeIndex(free[a]) == i ==> Member(c, a)
    ensures Bounded(i, free, nb, s)
  {
    hide TreeIndex, Pos, Differ, SizeAt;
    forall a | a in free && free[a] >= 256 && TreeIndex(free[a]) == i && free[a] >= nb ensures s <= free[a] {
      assert Member(c, a);
      var k :| k in c && a in c[k];
      MemberSize(i, c, free, k, a);
      assert SizeOf(c, free, k) == free[a];
      assert Left(c, free, s, 0, k);
    }
  }

  // the bin of v is the first that can hold a fit
  lemma BestOverall(free: Sizes, v: Addr, nb: nat, i: nat)
    requires forall a :: a in free ==> free[a] < WORD
    requires v in free && free[v] >= nb && free[v] >= 256 && TreeIndex(free[v]) == i
    requires Bounded(i, free, nb, free[v])
    requires forall a :: a in free && free[a] >= 256 && TreeIndex(free[a]) < i ==> free[a] < nb
    ensures BestLarge(free, v, nb)
  {
    hide TreeIndex;
    forall a | a in free && free[a] >= 256 && free[a] >= nb ensures free[v] <= free[a] {
      if TreeIndex(free[a]) > i && free[a] < free[v] { IndexMonotone(free[a], free[v]); }
    }
  }

  // bins below the request's own hold only smaller chunks, bins above only larger ones
  lemma BinsBelow(s: nat, nb: nat)
    requires 256 <= s < WORD && 256 <= nb < WORD
    ensures TreeIndex(s) < TreeIndex(nb) ==> s < nb
    ensures TreeIndex(s) > TreeIndex(nb) ==> s > nb
  {
    if nb <= s { IndexMonotone(nb, s); }
    if s <= nb { IndexMonotone(s, nb); }
  }

  // v is a smallest binned chunk of size at least nb, small bins included
  ghost predicate SmallestFit(free: Sizes, v: Addr, nb: nat) {
    v in free && free[v] >= nb && forall a :: a in free && free[a] >= nb ==> free[v] <= free[a]
  }

  ghost predicate NoFit(free: Sizes, nb: nat) {
    forall a :: a in free ==> free[a] < nb
  }
}
