/** All the bins of a malloc_state together (kernel/libc/malloc/malloc.c:2577-2589, 3565-3780):
    32 small bins kept as rings through a header, 32 tree bins kept as tries, and the two
    bitmaps saying which are non-empty. `free` is the set of binned chunks with their sizes. */
module Bins {
  import opened Rings
  import opened BinIndex
  import opened BinMaps
  import opened Codes
  import opened Tries

  const NBINS: nat := 32

  // smallbin_at(i), told apart from chunk addresses by its sign
  function SmallHeader(i: nat): Addr { -1 - i }

  // Bin i is non-empty iff its bit is set. The links of the header of an empty bin are
  // stale: unlink_small_chunk only clears the bit when it removes the last chunk.
  ghost predicate SmallBin(i: nat, l: seq<Addr>, free: Sizes, links: Links, smallmap: BinMap) {
    && SmallHeader(i) in links
    && (Marked(smallmap, i) <==> |l| > 0)
    && (|l| > 0 ==> Ring(links, [SmallHeader(i)] + l))
    && (forall j :: 0 <= j < |l| ==> l[j] > 0 && l[j] in free && free[l[j]] == 8 * i)
  }

  ghost predicate TreeBin(i: nat, c: Chains, free: Sizes, links: Links, t: Nodes, treemap: BinMap, root: Addr) {
    Trie(i, c, free, links, t, root) && (Marked(treemap, i) <==> 1 in c)
  }

  // where a binned chunk of size s must be
  ghost predicate Binned(small: seq<seq<Addr>>, tries: seq<Chains>, a: Addr, s: nat)
    requires |small| == NBINS == |tries|
  {
    && a > 0
    && (s < 256 ==> 16 <= s && s % 8 == 0 && a in small[s / 8])
    && (s >= 256 ==> s < WORD && TreeIndex(s) < NBINS && Member(tries[TreeIndex(s)], a))
  }

  ghost predicate BinsOk(small: seq<seq<Addr>>, tries: seq<Chains>, free: Sizes, links: Links, t: Nodes,
                         smallmap: BinMap, treemap: BinMap, treebins: seq<Addr>)
  {
    && |small| == NBINS == |tries| == |treebins|
    && (forall i {:trigger SmallBin(i, small[i], free, links, smallmap)} :: 0 <= i < NBINS ==>
          SmallBin(i, small[i], free, links, smallmap))
    && (forall i {:trigger TreeBin(i, tries[i], free, links, t, treemap, treebins[i])} :: 0 <= i < NBINS ==>
          TreeBin(i, tries[i], free, links, t, treemap, treebins[i]))
    && (forall a {:trigger Binned(small, tries, a, free[a])} :: a in free ==> Binned(small, tries, a, free[a]))
  }

  // ---------------- members of the bins ----------------

  lemma SmallMember(small: seq<seq<Addr>>, tries: seq<Chains>, free: Sizes, links: Links, t: Nodes,
                    smallmap: BinMap, treemap: BinMap, treebins: seq<Addr>, i: nat, a: Addr)
    requires BinsOk(small, tries, free, links, t, smallmap, treemap, treebins)
    requires i < NBINS && a in small[i]
    ensures a > 0 && a in free && free[a] == 8 * i
  {
    hide Ring, Marked;
    assert SmallBin(i, small[i], free, links, smallmap);
  }

  lemma TrieMember(i: nat, c: Chains, free: Sizes, links: Links, t: Nodes, treemap: BinMap, root: Addr, a: Addr)
    requires TreeBin(i, c, free, links, t, treemap, root) && Member(c, a)
    ensures a > 0 && a in free && 256 <= free[a] < WORD && TreeIndex(free[a]) == i
  {
    hide Pos, Rep, SizeAt, Ring, TreeIndex, Marked;
    var k :| k in c && a in c[k];
    MemberSize(i, c, free, k, a);
    SizeAtBounds(i, free[a], k);
  }

  lemma SizeAtBounds(i: nat, s: nat, k: nat)
    requires SizeAt(i, s, k)
    ensures 256 <= s < WORD && TreeIndex(s) == i
  {}

  // ---------------- what an update of one bin leaves alone ----------------

  ghost predicate LinksKept(links: Links, links': Links, a: Addr) {
    a in links ==> a in links' && links'[a] == links[a]
  }

  lemma SmallBinKept(i: nat, l: seq<Addr>, free: Sizes, free': Sizes, links: Links, links': Links, smallmap: BinMap, smallmap': BinMap)
    requires SmallBin(i, l, free, links, smallmap)
    requires Marked(smallmap', i) <==> Marked(smallmap, i)
    requires forall a :: a in l ==> a in free' && free'[a] == free[a] && LinksKept(links, links', a)
    requires LinksKept(links, links', SmallHeader(i))
    ensures SmallBin(i, l, free', links', smallmap')
  {
    hide Ring, Marked;
    if |l| > 0 { RingFrame(links, links', [SmallHeader(i)] + l); }
  }

  lemma TreeBinKept(i: nat, c: Chains, free: Sizes, free': Sizes, links: Links, links': Links, t: Nodes, t': Nodes,
                    treemap: BinMap, treemap': BinMap, root: Addr)
    requires TreeBin(i, c, free, links, t, treemap, root)
    requires Marked(treemap', i) <==> Marked(treemap, i)
    requires forall a :: Member(c, a) ==> Agree(a, free, free', links, links', t, t')
    ensures TreeBin(i, c, free', links', t', treemap', root)
  {
    hide Trie, Marked;
    TrieFrame(i, c, free, free', links, links', t, t', root);
  }

  // ---------------- small bins ----------------

  lemma HeadLink(links: Links, h: Addr, l: seq<Addr>)
    requires Ring(links, [h] + l) && |l| > 0
    ensures h in links && links[h].next == l[0] && l[0] in links && h !in l
    ensures links[h] .prev == l[|l|-1]
  {
    var r := [h] + l;
    assert r[0] == h && Succ(r, 0) == 1 && r[1] == l[0] && r[|r|-1] == l[|l|-1] && Succ(r, |r| - 1) == 0;
    forall j | 0 <= j < |l| ensures l[j] != h { assert r[j + 1] == l[j]; }
  }

  lemma PushRing(links: Links, h: Addr, l: seq<Addr>, x: Addr)
    requires Ring(links, [h] + l) && |l| > 0 && x != h && x !in l
    requires h in links && links[h].next == l[0] && l[0] in links
    ensures Ring(LinkBetween(links, h, x, l[0]), [h] + ([x] + l))
  {
    hide Ring, LinkBetween;
    InsertSecond(h, l, x);
    LinkRing(links, [h] + l, 1, x);
  }

  lemma InsertSecond(h: Addr, l: seq<Addr>, x: Addr)
    requires |l| > 0
    ensures var r := [h] + l; |r| > 1 && r[0] == h && r[1] == l[0] && InsertAt(r, 1, x) == [h] + ([x] + l)
    ensures x != h && x !in l ==> x !in [h] + l
  {}

  lemma SmallBinInsert(i: nat, l: seq<Addr>, free: Sizes, links: Links, smallmap: BinMap, x: Addr)
    requires i < NBINS && SmallBin(i, l, free, links, smallmap) && x !in free && x > 0
    ensures var h := SmallHeader(i);
            && h in links && x != h
            && (var f := if Marked(smallmap, i) then links[h].next else h;
                && f in links && x != f && (f == h || f in l)
                && SmallBin(i, [x] + l, free[x := 8 * i], LinkBetween(links, h, x, f), Mark(smallmap, i)))
  {
    MarkMeaning(smallmap, i);
    hide Marked, Mark, Ring;
    var h := SmallHeader(i);
    if |l| > 0 {
      HeadLink(links, h, l);
      PushRing(links, h, l, x);
    } else {
      TwoRing(LinkBetween(links, h, x, h), h, x);
      assert [h] + ([x] + l) == [h, x];
    }
    var f := if |l| > 0 then links[h].next else h;
    SmallBinIntro(i, [x] + l, free[x := 8 * i], LinkBetween(links, h, x, f), Mark(smallmap, i));
  }

  lemma SmallBinIntro(i: nat, l: seq<Addr>, free: Sizes, links: Links, smallmap: BinMap)
    requires SmallHeader(i) in links && (Marked(smallmap, i) <==> |l| > 0)
    requires |l| > 0 ==> Ring(links, [SmallHeader(i)] + l)
    requires forall j :: 0 <= j < |l| ==> l[j] > 0 && l[j] in free && free[l[j]] == 8 * i
    ensures SmallBin(i, l, free, links, smallmap)
  {}

  lemma TwoRing(links: Links, h: Addr, x: Addr)
    requires h != x && h in links && x in links && links[h] == Link(x, x) && links[x] == Link(h, h)
    ensures Ring(links, [h, x])
  {}

  lemma PopRing(links: Links, h: Addr, l: seq<Addr>, j: nat)
    requires Ring(links, [h] + l) && j < |l|
    ensures var x := l[j];
            && h in links && x in links && links[x].prev in links && links[x].next in links
            && (links[x].prev == links[x].next <==> |l| == 1)
            && (|l| > 1 ==> Ring(Bypass(links, x), [h] + RemoveAt(l, j)))
            && (forall k :: 0 <= k < |l| && k != j ==> l[k] != x)
            && (j == 0 ==> links[x].prev == h)
  {
    hide Ring, Bypass;
    var r := [h] + l;
    assert r[j + 1] == l[j] && r[0] == h;
    RingIn(links, r);
    AloneRing(links, r, j + 1);
    if j == 0 { PrevOfSecond(links, r); }
    forall k | 0 <= k < |l| && k != j ensures l[k] != l[j] {
      assert r[k + 1] == l[k];
      DistinctAt(links, r, k + 1, j + 1);
    }
    if |l| > 1 {
      BypassRing(links, r, j + 1);
      assert RemoveAt(r, j + 1) == [h] + RemoveAt(l, j);
    }
  }

  lemma RingIn(links: Links, r: seq<Addr>)
    requires Ring(links, r)
    ensures forall a :: a in r ==> a in links
  {}

  lemma PrevOfSecond(links: Links, r: seq<Addr>)
    requires Ring(links, r) && |r| > 1
    ensures r[1] in links && links[r[1]].prev == r[0]
  {
    assert Succ(r, 0) == 1;
  }

  lemma SmallBinRemove(i: nat, l: seq<Addr>, free: Sizes, links: Links, smallmap: BinMap, j: nat)
    requires i < NBINS && SmallBin(i, l, free, links, smallmap) && j < |l|
    ensures var x := l[j];
            && x in links && links[x].prev in links && links[x].next in links
            && (links[x].prev == links[x].next <==> |l| == 1)
            && (|l| == 1 ==> SmallBin(i, [], free - {x}, links, Clear(smallmap, i)))
            && (|l| > 1 ==> SmallBin(i, RemoveAt(l, j), free - {x}, Bypass(links, x), smallmap))
    ensures Ring(links, [SmallHeader(i)] + l)
  {
    ClearMeaning(smallmap, i);
    hide Marked, Clear, Ring, Bypass;
    var h := SmallHeader(i);
    var x := l[j];
    PopRing(links, h, l, j);
    if |l| > 1 {
      RemovedMembers(i, l, free, j);
      SmallBinIntro(i, RemoveAt(l, j), free - {x}, Bypass(links, x), smallmap);
    }
  }

  lemma RemovedMembers(i: nat, l: seq<Addr>, free: Sizes, j: nat)
    requires j < |l| && forall k :: 0 <= k < |l| ==> l[k] > 0 && l[k] in free && free[l[k]] == 8 * i
    requires forall k :: 0 <= k < |l| && k != j ==> l[k] != l[j]
    ensures var l' := RemoveAt(l, j);
            forall k :: 0 <= k < |l'| ==> l'[k] > 0 && l'[k] in free - {l[j]} && (free - {l[j]})[l'[k]] == 8 * i
    ensures forall a :: a in l && a != l[j] ==> a in RemoveAt(l, j)
  {
    var l' := RemoveAt(l, j);
    assert forall k :: 0 <= k < |l'| ==> l'[k] == l[if k < j then k else k + 1];
    forall a | a in l && a != l[j] ensures a in l' {
      var k :| 0 <= k < |l| && l[k] == a;
      assert l'[if k < j then k else k - 1] == a;
    }
  }

  lemma DistinctAt(links: Links, r: seq<Addr>, j: nat, k: nat)
    requires Ring(links, r) && j < |r| && k < |r| && j != k
    ensures r[j] != r[k]
  {}

  // links of chunks outside the small bin being changed
  ghost predicate OnlyBin(i: nat, l: seq<Addr>, x: Addr, links: Links, links': Links) {
    forall a :: a != x && a != SmallHeader(i) && a !in l ==> LinksKept(links, links', a)
  }

  lemma SmallUpdate(small: seq<seq<Addr>>, tries: seq<Chains>, free: Sizes, free': Sizes, links: Links, links': Links,
                    t: Nodes, smallmap: BinMap, smallmap': BinMap, treemap: BinMap, treebins: seq<Addr>,
                    i: nat, l: seq<Addr>, x: Addr)
    requires BinsOk(small, tries, free, links, t, smallmap, treemap, treebins)
    requires i < NBINS && SmallBin(i, l, free', links', smallmap') && x > 0
    requires forall k :: 0 <= k < NBINS && k != i ==> (Marked(smallmap', k) <==> Marked(smallmap, k))
    requires OnlyBin(i, small[i], x, links, links') && (x in free ==> x in small[i])
    requires forall a :: a in free && a != x ==> a in free' && free'[a] == free[a]
    requires forall a :: a in free' && a != x ==> a in free
    requires x in free' ==> x in l && i >= 2 && free'[x] == 8 * i < 256
    requires forall a :: a in small[i] && a != x ==> a in l
    ensures BinsOk(small[i := l], tries, free', links', t, smallmap', treemap, treebins)
  {
    hide Ring, Marked, Trie, SmallBin, TreeBin, TreeIndex;
    var small' := small[i := l];
    forall k | 0 <= k < NBINS ensures SmallBin(k, small'[k], free', links', smallmap') {
      if k != i {
        assert SmallBin(k, small[k], free, links, smallmap);
        if SmallHeader(k) in small[i] {
          SmallMember(small, tries, free, links, t, smallmap, treemap, treebins, i, SmallHeader(k));
        }
        forall a | a in small[k] ensures a in free && a in free' && free'[a] == free[a] && LinksKept(links, links', a) {
          SmallMember(small, tries, free, links, t, smallmap, treemap, treebins, k, a);
          SmallApart(small, tries, free, links, t, smallmap, treemap, treebins, k, i, a, x);
        }
        SmallBinKept(k, small[k], free, free', links, links', smallmap, smallmap');
      }
    }
    forall k | 0 <= k < NBINS ensures TreeBin(k, tries[k], free', links', t, treemap, treebins[k]) {
      assert TreeBin(k, tries[k], free, links, t, treemap, treebins[k]);
      forall a | Member(tries[k], a) ensures Agree(a, free, free', links, links', t, t) {
        TrieMember(k, tries[k], free, links, t, treemap, treebins[k], a);
        SmallTreeApart(small, tries, free, links, t, smallmap, treemap, treebins, i, a, x);
      }
      TreeBinKept(k, tries[k], free, free', links, links', t, t, treemap, treemap, treebins[k]);
    }
    forall a | a in free' ensures Binned(small', tries, a, free'[a]) {
      if a != x { assert Binned(small, tries, a, free[a]); }
    }
  }

  lemma SmallApart(small: seq<seq<Addr>>, tries: seq<Chains>, free: Sizes, links: Links, t: Nodes,
                   smallmap: BinMap, treemap: BinMap, treebins: seq<Addr>, k: nat, i: nat, a: Addr, x: Addr)
    requires BinsOk(small, tries, free, links, t, smallmap, treemap, treebins)
    requires i < NBINS && k < NBINS && k != i && a in small[k] && (x in free ==> x in small[i])
    ensures a != x && a !in small[i] && a != SmallHeader(i)
  {
    hide SmallBin, TreeBin;
    SmallMember(small, tries, free, links, t, smallmap, treemap, treebins, k, a);
    if a in small[i] { SmallMember(small, tries, free, links, t, smallmap, treemap, treebins, i, a); }
  }

  lemma SmallTreeApart(small: seq<seq<Addr>>, tries: seq<Chains>, free: Sizes, links: Links, t: Nodes,
                       smallmap: BinMap, treemap: BinMap, treebins: seq<Addr>, i: nat, a: Addr, x: Addr)
    requires BinsOk(small, tries, free, links, t, smallmap, treemap, treebins)
    requires i < NBINS && a > 0 && a in free && free[a] >= 256 && (x in free ==> x in small[i])
    ensures a != x && a !in small[i] && a != SmallHeader(i)
  {
    hide SmallBin, TreeBin;
    if a in small[i] { SmallMember(small, tries, free, links, t, smallmap, treemap, treebins, i, a); }
  }

  // ---------------- tree bins ----------------

  // words of chunks outside the trie being changed
  ghost predicate OnlyTrie(c: Chains, x: Addr, links: Links, links': Links, t: Nodes, t': Nodes) {
    forall a {:trigger LinksKept(links, links', a)} :: a != x && !Member(c, a) ==>
      LinksKept(links, links', a) && (a in t ==> a in t' && t'[a] == t[a])
  }

  lemma TreeUpdate(small: seq<seq<Addr>>, tries: seq<Chains>, free: Sizes, free': Sizes, links: Links, links': Links,
                   t: Nodes, t': Nodes, smallmap: BinMap, treemap: BinMap, treemap': BinMap, treebins: seq<Addr>,
                   i: nat, c': Chains, root': Addr, x: Addr)
    requires BinsOk(small, tries, free, links, t, smallmap, treemap, treebins)
    requires i < NBINS && TreeBin(i, c', free', links', t', treemap', root') && x > 0
    requires forall k :: 0 <= k < NBINS && k != i ==> (Marked(treemap', k) <==> Marked(treemap, k))
    requires OnlyTrie(tries[i], x, links, links', t, t') && (x in free ==> Member(tries[i], x))
    requires forall a :: a in free && a != x ==> a in free' && free'[a] == free[a]
    requires forall a :: a in free' && a != x ==> a in free
    requires x in free' ==> Member(c', x) && 256 <= free'[x] < WORD && TreeIndex(free'[x]) == i
    requires forall a :: Member(tries[i], a) && a != x ==> Member(c', a)
    ensures BinsOk(small, tries[i := c'], free', links', t', smallmap, treemap', treebins[i := root'])
  {
    hide Ring, Marked, Trie, SmallBin, TreeBin, TreeIndex, Member;
    var tries' := tries[i := c'];
    var treebins' := treebins[i := root'];
    forall k | 0 <= k < NBINS ensures SmallBin(k, small[k], free', links', smallmap) {
      assert SmallBin(k, small[k], free, links, smallmap);
      TreeSmallApart(small, tries, free, links, t, smallmap, treemap, treebins, i, SmallHeader(k), x);
      forall a | a in small[k] ensures a in free && a in free' && free'[a] == free[a] && LinksKept(links, links', a) {
        SmallMember(small, tries, free, links, t, smallmap, treemap, treebins, k, a);
        TreeSmallApart(small, tries, free, links, t, smallmap, treemap, treebins, i, a, x);
      }
      SmallBinKept(k, small[k], free, free', links, links', smallmap, smallmap);
    }
    forall k | 0 <= k < NBINS ensures TreeBin(k, tries'[k], free', links', t', treemap', treebins'[k]) {
      if k != i {
        assert TreeBin(k, tries[k], free, links, t, treemap, treebins[k]);
        forall a | Member(tries[k], a) ensures Agree(a, free, free', links, links', t, t') {
          TreeTreeApart(small, tries, free, links, t, smallmap, treemap, treebins, k, i, a, x);
          assert LinksKept(links, links', a);
        }
        TreeBinKept(k, tries[k], free, free', links, links', t, t', treemap, treemap', treebins[k]);
      }
    }
    forall a | a in free' ensures Binned(small, tries', a, free'[a]) {
      if a != x { assert Binned(small, tries, a, free[a]); }
    }
  }

  lemma TreeSmallApart(small: seq<seq<Addr>>, tries: seq<Chains>, free: Sizes, links: Links, t: Nodes,
                       smallmap: BinMap, treemap: BinMap, treebins: seq<Addr>, i: nat, a: Addr, x: Addr)
    requires BinsOk(small, tries, free, links, t, smallmap, treemap, treebins)
    requires i < NBINS && x > 0 && (x in free ==> Member(tries[i], x))
    requires a <= 0 || (a in free && free[a] < 256)
    ensures a != x && !Member(tries[i], a)
  {
    hide SmallBin, TreeBin, Member;
    assert TreeBin(i, tries[i], free, links, t, treemap, treebins[i]);
    if x in free { TrieMember(i, tries[i], free, links, t, treemap, treebins[i], x); }
    if Member(tries[i], a) { TrieMember(i, tries[i], free, links, t, treemap, treebins[i], a); }
  }

  lemma TreeTreeApart(small: seq<seq<Addr>>, tries: seq<Chains>, free: Sizes, links: Links, t: Nodes,
                      smallmap: BinMap, treemap: BinMap, treebins: seq<Addr>, k: nat, i: nat, a: Addr, x: Addr)
    requires BinsOk(small, tries, free, links, t, smallmap, treemap, treebins)
    requires i < NBINS && k < NBINS && k != i && (x in free ==> Member(tries[i], x)) && Member(tries[k], a)
    ensures a != x && !Member(tries[i], a) && a in free
  {
    hide SmallBin, TreeBin, Member, TreeIndex;
    assert TreeBin(i, tries[i], free, links, t, treemap, treebins[i]);
    assert TreeBin(k, tries[k], free, links, t, treemap, treebins[k]);
    TrieMember(k, tries[k], free, links, t, treemap, treebins[k], a);
    if x in free { TrieMember(i, tries[i], free, links, t, treemap, treebins[i], x); }
    if Member(tries[i], a) { TrieMember(i, tries[i], free, links, t, treemap, treebins[i], a); }
  }

  // ---------------- the descent of insert_large_chunk ----------------

  // sizes on the path above k have been compared with s
  ghost predicate Visited(c: Chains, sz: Sizes, k: nat, s: nat) {
    forall j :: j in c && Under(k, j) && j != k ==> At(c, j) in sz && sz[At(c, j)] != s
  }

  lemma DescendOn(i: nat, c: Chains, sz: Sizes, s: nat, bits: nat, k: nat)
    requires Abstract(i, c, sz) && k in c && 256 <= s < WORD && TreeIndex(s) == i && i < NTREEBINS
    requires Key(i, s) > 0 && Register(bits, Key(i, s), k) && Visited(c, sz, k, s)
    requires At(c, k) in sz && sz[At(c, k)] != s
    ensures k >= 1 && bits < WORD && Log2(k) < Log2(Key(i, s))
    ensures var n := 2 * k + if bits >= WORD / 2 then 1 else 0;
            && Register((2 * bits) % WORD, Key(i, s), n) && Visited(c, sz, n, s) && Log2(n) == Log2(k) + 1
            && SizeAt(i, s, n)
  {
    hide Pos, TreeIndex, Pow2, Log2, Key, Register;
    var key := Key(i, s);
    RegisterUnder(bits, key, k);
    NotAtKey(i, c, sz, s, k);
    RegisterStep(bits, key, k);
    ChildLog(k);
    var n := 2 * k + if bits >= WORD / 2 then 1 else 0;
    forall j | j in c && Under(n, j) && j != n ensures At(c, j) in sz && sz[At(c, j)] != s {
      assert n / 2 == k && Under(k, j);
    }
  }

  lemma RegisterUnder(bits: nat, key: nat, k: nat)
    requires Register(bits, key, k)
    ensures k >= 1 && key >= 1 && Under(key, k)
  {}

  // two sizes of one bin whose bits agree all the way down are equal
  lemma NotAtKey(i: nat, c: Chains, sz: Sizes, s: nat, k: nat)
    requires Abstract(i, c, sz) && k in c && 256 <= s < WORD && TreeIndex(s) == i
    requires k >= 1 && Key(i, s) > 0 && Under(Key(i, s), k) && At(c, k) in sz && sz[At(c, k)] != s
    ensures Key(i, s) != k && Log2(k) < Log2(Key(i, s))
  {
    hide Pos, TreeIndex, Pow2;
    PosKey(i, c, sz, k);
    var s' := sz[At(c, k)];
    KeyBounds(s);
    KeyBounds(s');
    UnderLog(Key(i, s), k);
    UnderLog(Key(i, s'), k);
  }

  lemma PosKey(i: nat, c: Chains, sz: Sizes, k: nat)
    requires Abstract(i, c, sz) && k in c
    ensures k >= 1 && At(c, k) > 0 && At(c, k) in sz && SizeAt(i, sz[At(c, k)], k)
  {
    assert Pos(i, c, sz, k);
  }

  // an empty position on the path of s: no chunk of size s is stored
  lemma NoneOfSize(i: nat, c: Chains, sz: Sizes, s: nat, n: nat)
    requires Abstract(i, c, sz) && n !in c && n >= 1 && Visited(c, sz, n, s) && SizeAt(i, s, n)
    ensures forall j :: j in c ==> At(c, j) in sz && sz[At(c, j)] != s
  {
    forall j | j in c ensures At(c, j) in sz && sz[At(c, j)] != s {
      PosKey(i, c, sz, j);
      if sz[At(c, j)] == s {
        Comparable(Key(i, s), j, n);
        if Under(j, n) { PrefixClosed(i, c, sz, j, n); }
      }
    }
  }

  // ---------------- insert_large_chunk, its three outcomes ----------------

  lemma EmptyTrie(i: nat, c: Chains, sz: Sizes)
    requires Abstract(i, c, sz) && 1 !in c
    ensures c == map[]
  {
    forall k | k in c ensures false {
      PosKey(i, c, sz, k);
      UnderRoot(k);
      PrefixClosed(i, c, sz, k, 1);
    }
  }

  // recording the size of a chunk not yet in the bin
  lemma LiftNew(i: nat, c: Chains, free: Sizes, links: Links, links': Links, t: Nodes, t': Nodes, treemap: BinMap, root: Addr, x: Addr, s: nat)
    requires TreeBin(i, c, free, links, t, treemap, root) && x !in free
    requires forall a :: a != x ==> LinksKept(links, links', a) && (a in t ==> a in t' && t'[a] == t[a])
    ensures Trie(i, c, free[x := s], links', t', root) && !Member(c, x)
  {
    hide Trie, Marked, Member;
    forall a | Member(c, a) ensures Agree(a, free, free[x := s], links, links', t, t') {
      TrieMember(i, c, free, links, t, treemap, root, a);
      assert LinksKept(links, links', a);
    }
    if Member(c, x) { TrieMember(i, c, free, links, t, treemap, root, x); }
    TrieFrame(i, c, free, free[x := s], links, links', t, t', root);
  }

  lemma InsertFirstOk(small: seq<seq<Addr>>, tries: seq<Chains>, free: Sizes, links: Links, t: Nodes,
                      smallmap: BinMap, treemap: BinMap, treebins: seq<Addr>, i: nat, x: Addr, s: nat)
    requires BinsOk(small, tries, free, links, t, smallmap, treemap, treebins)
    requires x > 0 && x !in free && 256 <= s < WORD && TreeIndex(s) == i && i < NBINS && !Marked(treemap, i)
    ensures tries[i] == map[]
    ensures BinsOk(small, tries[i := map[1 := [x]]], free[x := s], links[x := Link(x, x)], t[x := TreeNode(0, 0, Header(i), i)],
                   smallmap, Mark(treemap, i), treebins[i := x])
  {
    hide TreeIndex, Marked, Mark, SmallBin;
    var c := tries[i];
    assert TreeBin(i, c, free, links, t, treemap, treebins[i]);
    EmptyTrie(i, c, free);
    MarkMeaning(treemap, i);
    var links', t', free' := links[x := Link(x, x)], t[x := TreeNode(0, 0, Header(i), i)], free[x := s];
    KeyBounds(s);
    UnderRoot(Key(i, s));
    InsertFirst(i, free', links', t', x);
    var c': Chains := map[1 := [x]];
    assert 1 in c' && x in c'[1];
    TreeUpdate(small, tries, free, free', links, links', t, t', smallmap, treemap, Mark(treemap, i), treebins, i, c', x, x);
  }

  lemma MemberGrown(c: Chains, k: nat, x: Addr)
    requires k in c && |c[k]| > 0
    ensures var c' := c[k := InsertAt(c[k], 1, x)];
            Member(c', x) && forall a :: Member(c, a) ==> Member(c', a)
  {
    var s := InsertAt(c[k], 1, x);
    var c' := c[k := s];
    assert s[1] == x;
    assert x in c'[k];
    forall a | Member(c, a) ensures Member(c', a) {
      var j :| j in c && a in c[j];
      if j == k {
        var m :| 0 <= m < |c[k]| && c[k][m] == a;
        assert s[if m == 0 then 0 else m + 1] == a;
        assert a in c'[k];
      } else {
        assert a in c'[j];
      }
    }
  }

  lemma InsertChainOk(small: seq<seq<Addr>>, tries: seq<Chains>, free: Sizes, links: Links, t: Nodes,
                      smallmap: BinMap, treemap: BinMap, treebins: seq<Addr>, i: nat, k: nat, x: Addr, s: nat)
    requires BinsOk(small, tries, free, links, t, smallmap, treemap, treebins)
    requires x > 0 && x !in free && 256 <= s < WORD && TreeIndex(s) == i && i < NBINS
    requires k in tries[i] && At(tries[i], k) in free && free[At(tries[i], k)] == s
    ensures |tries[i][k]| > 0
    ensures var h := At(tries[i], k);
            && h in links && links[h].next in links && x != h && x != links[h].next
            && BinsOk(small, tries[i := Put(tries[i], k, InsertAt(tries[i][k], 1, x))], free[x := s],
                      LinkBetween(links, h, x, links[h].next), t[x := TreeNode(0, 0, 0, i)], smallmap, treemap, treebins)
  {
    hide TreeIndex, Marked, SmallBin, Trie, Member;
    var c := tries[i];
    assert TreeBin(i, c, free, links, t, treemap, treebins[i]);
    var h := At(c, k);
    TrieRing(i, c, free, links, t, treebins[i], k);
    LiftNew(i, c, free, links, links, t, t, treemap, treebins[i], x, s);
    var free' := free[x := s];
    InsertChain(i, c, free', links, t, treebins[i], k, x);
    var links', t' := LinkBetween(links, h, x, links[h].next), t[x := TreeNode(0, 0, 0, i)];
    var c' := c[k := InsertAt(c[k], 1, x)];
    MemberGrown(c, k, x);
    MemberOf(c, k);
    assert OnlyTrie(c, x, links, links', t, t');
    assert treebins[i := treebins[i]] == treebins;
    TreeUpdate(small, tries, free, free', links, links', t, t', smallmap, treemap, treemap, treebins, i, c', treebins[i], x);
  }

  lemma TrieRing(i: nat, c: Chains, sz: Sizes, links: Links, t: Nodes, root: Addr, k: nat)
    requires Trie(i, c, sz, links, t, root) && k in c
    ensures |c[k]| > 0 && At(c, k) == c[k][0] && c[k][0] in c[k] && c[k][0] in t && At(c, k) > 0
    ensures c[k][0] in links && links[c[k][0]].next in c[k] && links[c[k][0]].next in links
    ensures Ring(links, c[k])
  {
    hide Ring, Pos;
    assert Rep(i, c, links, t, k);
    RingAt(i, c, links, t, k);
    PosKey(i, c, sz, k);
  }

  lemma InsertLeafOk(small: seq<seq<Addr>>, tries: seq<Chains>, free: Sizes, links: Links, t: Nodes,
                     smallmap: BinMap, treemap: BinMap, treebins: seq<Addr>, i: nat, k: nat, b: nat, x: Addr, s: nat)
    requires BinsOk(small, tries, free, links, t, smallmap, treemap, treebins)
    requires x > 0 && x !in free && 256 <= s < WORD && TreeIndex(s) == i && i < NBINS
    requires k in tries[i] && b < 2 && 2 * k + b !in tries[i]
    requires SizeAt(i, s, 2 * k + b) && Visited(tries[i], free, 2 * k + b, s)
    ensures var t1 := t[x := TreeNode(0, 0, At(tries[i], k), i)];
            && At(tries[i], k) in t1
            && BinsOk(small, tries[i := Put(tries[i], 2 * k + b, [x])], free[x := s], links[x := Link(x, x)],
                      SetChild(t1, At(tries[i], k), b, x), smallmap, treemap, treebins)
  {
    hide TreeIndex, Marked, SmallBin, Trie, Member, SizeAt, Visited;
    var c := tries[i];
    assert TreeBin(i, c, free, links, t, treemap, treebins[i]);
    var n := 2 * k + b;
    var links', t1, free' := links[x := Link(x, x)], t[x := TreeNode(0, 0, At(c, k), i)], free[x := s];
    LiftNew(i, c, free, links, links', t, t1, treemap, treebins[i], x, s);
    TrieAbstract(i, c, free, links, t, treebins[i]);
    PosKey(i, c, free, k);
    NoneOfSize(i, c, free, s, n);
    TrieRing(i, c, free, links, t, treebins[i], k);
    InsertLeaf(i, c, free', links', t1, treebins[i], k, b, x);
    var t' := SetChild(t1, At(c, k), b, x);
    MemberOf(c, k);
    MemberLeaf(c, n, x);
    assert OnlyTrie(c, x, links, links', t, t');
    assert treebins[i := treebins[i]] == treebins;
    TreeUpdate(small, tries, free, free', links, links', t, t', smallmap, treemap, treemap, treebins, i, c[n := [x]], treebins[i], x);
  }

  lemma TrieAbstract(i: nat, c: Chains, sz: Sizes, links: Links, t: Nodes, root: Addr)
    requires Trie(i, c, sz, links, t, root)
    ensures Abstract(i, c, sz) && root == At(c, 1)
  {}

  lemma MemberLeaf(c: Chains, n: nat, x: Addr)
    requires n !in c
    ensures Member(c[n := [x]], x) && forall a :: Member(c, a) ==> Member(c[n := [x]], a)
  {
    var c' := c[n := [x]];
    assert x in c'[n];
    forall a | Member(c, a) ensures Member(c', a) {
      var j :| j in c && a in c[j];
      assert a in c'[j];
    }
  }

  // ---------------- unlink_large_chunk, its outcomes ----------------

  // c' stores what c stored, without x
  ghost predicate Dropped(c: Chains, c': Chains, x: Addr) {
    !Member(c', x) && (forall a :: Member(c, a) && a != x ==> Member(c', a))
  }

  lemma DropUpdate(small: seq<seq<Addr>>, tries: seq<Chains>, free: Sizes, links: Links, links': Links,
                   t: Nodes, t': Nodes, smallmap: BinMap, treemap: BinMap, treemap': BinMap, treebins: seq<Addr>,
                   i: nat, c': Chains, root': Addr, x: Addr)
    requires BinsOk(small, tries, free, links, t, smallmap, treemap, treebins)
    requires i < NBINS && x > 0 && Member(tries[i], x) && Dropped(tries[i], c', x)
    requires Trie(i, c', free, links', t', root') && (Marked(treemap', i) <==> 1 in c')
    requires forall k :: 0 <= k < NBINS && k != i ==> (Marked(treemap', k) <==> Marked(treemap, k))
    requires OnlyTrie(tries[i], x, links, links', t, t')
    ensures BinsOk(small, tries[i := c'], free - {x}, links', t', smallmap, treemap', treebins[i := root'])
  {
    hide TreeIndex, Marked, SmallBin, Trie, Member, Ring;
    forall a | Member(c', a) ensures Agree(a, free, free - {x}, links', links', t', t') {}
    TrieFrame(i, c', free, free - {x}, links', links', t', t', root');
    TreeUpdate(small, tries, free, free - {x}, links, links', t, t', smallmap, treemap, treemap', treebins, i, c', root', x);
  }

  lemma UnlinkChainedOk(small: seq<seq<Addr>>, tries: seq<Chains>, free: Sizes, links: Links, t: Nodes,
                        smallmap: BinMap, treemap: BinMap, treebins: seq<Addr>, i: nat, k: nat, j: nat)
    requires BinsOk(small, tries, free, links, t, smallmap, treemap, treebins)
    requires i < NBINS && k in tries[i] && 1 <= j < |tries[i][k]|
    ensures var x := tries[i][k][j];
            && x in links && links[x].prev in links && links[x].next in links
            && BinsOk(small, tries[i := Put(tries[i], k, RemoveAt(tries[i][k], j))], free - {x}, Bypass(links, x), t,
                      smallmap, treemap, treebins)
  {
    hide TreeIndex, Marked, SmallBin, Trie, Member, Ring, Bypass;
    var c := tries[i];
    var x := c[k][j];
    assert TreeBin(i, c, free, links, t, treemap, treebins[i]);
    TrieRing(i, c, free, links, t, treebins[i], k);
    UnlinkChained(i, c, free, links, t, treebins[i], k, j);
    var c' := Put(c, k, RemoveAt(c[k], j));
    assert x in c[k];
    MemberOf(c, k);
    TrieMember(i, c, free, links, t, treemap, treebins[i], x);
    TrieAbstract(i, c, free, links, t, treebins[i]);
    DroppedChained(i, c, free, links, k, j);
    OnlyRing(c, links, t, k, j);
    assert treebins[i := treebins[i]] == treebins;
    DropUpdate(small, tries, free, links, Bypass(links, x), t, t, smallmap, treemap, treemap, treebins, i, c', treebins[i], x);
  }

  lemma OnlyRing(c: Chains, links: Links, t: Nodes, k: nat, j: nat)
    requires k in c && j < |c[k]| && |c[k]| > 1 && Ring(links, c[k])
    ensures var x := c[k][j];
            && x in links && links[x].prev in links && links[x].next in links
            && OnlyTrie(c, x, links, Bypass(links, x), t, t)
  {
    hide Ring, Member;
    BypassElsewhere(links, c[k], j);
    MemberOf(c, k);
  }

  lemma ChainDistinct(links: Links, r: seq<Addr>)
    requires Ring(links, r)
    ensures forall j, m :: 0 <= j < |r| && 0 <= m < |r| && j != m ==> r[j] != r[m]
  {}

  lemma DroppedChained(i: nat, c: Chains, sz: Sizes, links: Links, k: nat, j: nat)
    requires Abstract(i, c, sz) && k in c && j < |c[k]| && Ring(links, c[k])
    ensures Dropped(c, Put(c, k, RemoveAt(c[k], j)), c[k][j])
  {
    hide Abstract;
    ChainDistinct(links, c[k]);
    hide Ring;
    RemainingMembers(c[k], j);
    DroppedFrom(i, c, sz, k, RemoveAt(c[k], j), c[k][j]);
  }

  lemma RemainingMembers(r: seq<Addr>, j: nat)
    requires j < |r| && forall j, m :: 0 <= j < |r| && 0 <= m < |r| && j != m ==> r[j] != r[m]
    ensures r[j] !in RemoveAt(r, j)
    ensures forall a :: a in r && a != r[j] ==> a in RemoveAt(r, j)
  {
    var s := RemoveAt(r, j);
    assert forall m :: 0 <= m < |s| ==> s[m] == r[if m < j then m else m + 1];
    forall a | a in r && a != r[j] ensures a in s {
      var m :| 0 <= m < |r| && r[m] == a;
      assert s[if m < j then m else m - 1] == a;
    }
  }

  // replacing chain k by one holding the same chunks but x drops exactly x
  lemma DroppedFrom(i: nat, c: Chains, sz: Sizes, k: nat, s: seq<Addr>, x: Addr)
    requires Abstract(i, c, sz) && k in c && x in c[k] && x !in s
    requires forall a :: a in c[k] && a != x ==> a in s
    ensures Dropped(c, Put(c, k, s), x)
  {
    hide Pos, Differ;
    var c' := Put(c, k, s);
    if Member(c', x) {
      var m :| m in c' && x in c'[m];
      OnePosition(i, c, sz, m, k, x);
    }
    forall a | Member(c, a) && a != x ensures Member(c', a) {
      var m :| m in c && a in c[m];
      assert a in c'[m];
    }
  }

  // the chain that results when its tree node leaves and the last chunk becomes the node
  function Rehead(r: seq<Addr>): seq<Addr>
    requires |r| > 1
  {
    [r[|r|-1]] + r[1..|r|-1]
  }

  lemma ReheadRing(links: Links, r: seq<Addr>)
    requires Ring(links, r) && |r| > 1
    ensures r[0] in links && links[r[0]].prev == r[|r|-1] && links[r[0]].prev in links && links[r[0]].next in links
    ensures Ring(Bypass(links, r[0]), Rehead(r))
  {
    hide Ring, Bypass;
    BypassRing(links, r, 0);
    RingIn(links, r);
    PrevOfFirst(links, r);
    var s := RemoveAt(r, 0);
    RotateRing(Bypass(links, r[0]), s, |s| - 1);
    assert s[|s|-1..] + s[..|s|-1] == Rehead(r);
  }

  lemma PrevOfFirst(links: Links, r: seq<Addr>)
    requires Ring(links, r)
    ensures r[0] in links && links[r[0]].prev == r[|r|-1]
  {
    assert Succ(r, |r| - 1) == 0;
  }

  lemma ReheadMembers(links: Links, r: seq<Addr>)
    requires Ring(links, r) && |r| > 1
    ensures r[0] !in Rehead(r)
    ensures forall a :: a in Rehead(r) ==> a in r
    ensures forall a :: a in r && a != r[0] ==> a in Rehead(r)
    ensures forall j :: 0 <= j < |Rehead(r)| ==> Rehead(r)[j] == if j == 0 then r[|r|-1] else r[j]
  {
    ChainDistinct(links, r);
    hide Ring;
    var s := Rehead(r);
    forall a | a in r && a != r[0] ensures a in s {
      var m :| 0 <= m < |r| && r[m] == a;
      assert s[if m == |r| - 1 then 0 else m] == a;
    }
  }

  lemma UnlinkHeadOk(small: seq<seq<Addr>>, tries: seq<Chains>, free: Sizes, links: Links, t: Nodes,
                     smallmap: BinMap, treemap: BinMap, treebins: seq<Addr>, i: nat, k: nat)
    requires BinsOk(small, tries, free, links, t, smallmap, treemap, treebins)
    requires i < NBINS && k in tries[i] && |tries[i][k]| > 1
    ensures var x := tries[i][k][0]; var r := tries[i][k][|tries[i][k]|-1];
            && x in links && links[x].prev == r && links[x].prev in links && links[x].next in links
            && Separate(t, x, r, k == 1)
            && BinsOk(small, tries[i := Put(tries[i], k, Rehead(tries[i][k]))], free - {x}, Bypass(links, x),
                      Replant(t, x, r, k == 1), smallmap, treemap, treebins[i := if k == 1 then r else treebins[i]])
  {
    hide TreeIndex, Marked, SmallBin, Trie, Member, Ring, Bypass, Replant, Separate;
    var c := tries[i];
    var x := c[k][0];
    var r := c[k][|c[k]|-1];
    assert TreeBin(i, c, free, links, t, treemap, treebins[i]);
    TrieRing(i, c, free, links, t, treebins[i], k);
    TrieAbstract(i, c, free, links, t, treebins[i]);
    ReheadRing(links, c[k]);
    ReheadMembers(links, c[k]);
    var s := Rehead(c[k]);
    ReheadReplacement(i, c, free, links, t, treebins[i], k);
    Substitute(i, c, free, links, Bypass(links, x), t, treebins[i], k, s);
    MemberOf(c, k);
    TrieMember(i, c, free, links, t, treemap, treebins[i], x);
    DroppedFrom(i, c, free, k, s, x);
    OnlyRing(c, links, t, k, 0);
    ReplantOnly(i, c, free, links, t, treebins[i], k, r);
    DropUpdate(small, tries, free, links, Bypass(links, x), t, Replant(t, x, r, k == 1), smallmap, treemap, treemap, treebins,
               i, Put(c, k, s), if k == 1 then r else treebins[i], x);
  }

  lemma ReheadReplacement(i: nat, c: Chains, sz: Sizes, links: Links, t: Nodes, root: Addr, k: nat)
    requires Trie(i, c, sz, links, t, root) && k in c && |c[k]| > 1
    ensures var x := c[k][0];
            && x in links && links[x].prev in links && links[x].next in links
            && Replacement(i, c, sz, Bypass(links, x), t, k, Rehead(c[k]))
            && (forall m :: m in c && m != k ==> Unrelated(c, sz, links, Bypass(links, x), m, Rehead(c[k])))
  {
    hide Ring, SizeAt, Bypass;
    assert Pos(i, c, sz, k) && Rep(i, c, links, t, k);
    TrieRing(i, c, sz, links, t, root, k);
    ReheadRing(links, c[k]);
    ReheadMembers(links, c[k]);
    var x := c[k][0];
    BypassElsewhere(links, c[k], 0);
    forall m | m in c && m != k ensures Unrelated(c, sz, links, Bypass(links, x), m, Rehead(c[k])) {
      Apart(i, c, sz, m, k);
      assert Differ(c, sz, m, k);
    }
  }

  // Replant writes only tree nodes of this trie
  lemma ReplantOnly(i: nat, c: Chains, sz: Sizes, links: Links, t: Nodes, root: Addr, k: nat, r: Addr)
    requires Trie(i, c, sz, links, t, root) && k in c && Separate(t, At(c, k), r, k == 1)
    ensures forall a :: a != r && !Member(c, a) && a in t ==> Replant(t, At(c, k), r, k == 1)[a] == t[a]
  {
    hide Replant, Trie;
    Neighbours(i, c, sz, links, t, root, k);
    ReplantEffect(t, At(c, k), r, k == 1);
    if k > 1 { AtMember(c, k / 2); }
    AtMember(c, 2 * k);
    AtMember(c, 2 * k + 1);
  }

  lemma AtMember(c: Chains, k: nat)
    ensures At(c, k) != 0 ==> Member(c, At(c, k))
  {
    if At(c, k) != 0 { assert c[k][0] in c[k]; }
  }

  lemma UnlinkLeafOk(small: seq<seq<Addr>>, tries: seq<Chains>, free: Sizes, links: Links, t: Nodes,
                     smallmap: BinMap, treemap: BinMap, treebins: seq<Addr>, i: nat, k: nat)
    requires BinsOk(small, tries, free, links, t, smallmap, treemap, treebins)
    requires i < NBINS && Leaf(tries[i], k) && |tries[i][k]| == 1 && k > 1
    ensures var x := tries[i][k][0]; var p := At(tries[i], k / 2);
            && x in t && t[x].parent == p && p in t && (t[p].left == x <==> k % 2 == 0)
            && BinsOk(small, tries[i := tries[i] - {k}], free - {x}, links, SetChild(t, p, if t[p].left == x then 0 else 1, 0),
                      smallmap, treemap, treebins)
  {
    hide TreeIndex, Marked, SmallBin, Trie, Member, Ring;
    var c := tries[i];
    var x := c[k][0];
    assert TreeBin(i, c, free, links, t, treemap, treebins[i]);
    TrieRing(i, c, free, links, t, treebins[i], k);
    TrieAbstract(i, c, free, links, t, treebins[i]);
    Neighbours(i, c, free, links, t, treebins[i], k);
    if k % 2 == 1 { AtDiffer(i, c, free, k / 2 * 2, k); }
    DetachLeaf(i, c, free, links, t, treebins[i], k);
    MemberOf(c, k);
    AtMember(c, k / 2);
    TrieMember(i, c, free, links, t, treemap, treebins[i], x);
    DroppedPosition(i, c, free, k);
    var t' := SetChild(t, At(c, k / 2), k % 2, 0);
    assert OnlyTrie(c, x, links, links, t, t');
    assert treebins[i := treebins[i]] == treebins;
    DropUpdate(small, tries, free, links, links, t, t', smallmap, treemap, treemap, treebins, i, c - {k}, treebins[i], x);
  }

  lemma DroppedPosition(i: nat, c: Chains, sz: Sizes, k: nat)
    requires Abstract(i, c, sz) && k in c && |c[k]| == 1
    ensures Dropped(c, c - {k}, c[k][0])
  {
    hide Pos, Differ;
    var c' := c - {k};
    var x := c[k][0];
    if Member(c', x) {
      var m :| m in c' && x in c'[m];
      OnePosition(i, c, sz, m, k, x);
    }
    forall a | Member(c, a) && a != x ensures Member(c', a) {
      var m :| m in c && a in c[m];
      assert a in c'[m];
    }
  }

  lemma UnlinkRootOk(small: seq<seq<Addr>>, tries: seq<Chains>, free: Sizes, links: Links, t: Nodes,
                     smallmap: BinMap, treemap: BinMap, treebins: seq<Addr>, i: nat)
    requires BinsOk(small, tries, free, links, t, smallmap, treemap, treebins)
    requires i < NBINS && Leaf(tries[i], 1) && |tries[i][1]| == 1
    ensures BinsOk(small, tries[i := map[]], free - {tries[i][1][0]}, links, t, smallmap, Clear(treemap, i), treebins[i := 0])
  {
    hide TreeIndex, Marked, Clear, SmallBin, Trie, Member, Ring;
    var c := tries[i];
    var x := c[1][0];
    assert TreeBin(i, c, free, links, t, treemap, treebins[i]);
    TrieRing(i, c, free, links, t, treebins[i], 1);
    TrieAbstract(i, c, free, links, t, treebins[i]);
    RemoveRoot(i, c, free, links, t, treebins[i]);
    MemberOf(c, 1);
    TrieMember(i, c, free, links, t, treemap, treebins[i], x);
    DroppedPosition(i, c, free, 1);
    ClearMeaning(treemap, i);
    var none: Chains := map[];
    DropUpdate(small, tries, free, links, links, t, t, smallmap, treemap, Clear(treemap, i), treebins, i, none, 0, x);
  }

  // cutting off leaf l and planting it at k
  lemma TransplantLeaf(i: nat, c: Chains, sz: Sizes, links: Links, t: Nodes, root: Addr, k: nat, l: nat)
    requires Trie(i, c, sz, links, t, root) && k in c && |c[k]| == 1 && Leaf(c, l) && Under(l, k) && l != k
    ensures l / 2 in c && At(c, l / 2) in t && |c[k]| > 0
    ensures var r := At(c, l); var t1 := SetChild(t, At(c, l / 2), l % 2, 0);
            && Separate(t1, c[k][0], r, k == 1)
            && Trie(i, Put(c - {l}, k, c[l]), sz, links, Replant(t1, c[k][0], r, k == 1), if k == 1 then r else root)
            && OnlyTrie(c, c[k][0], links, links, t, Replant(t1, c[k][0], r, k == 1))
  {
    hide SizeAt, Pos, Rep, Differ, Member, Ring, Replant, Separate, Replacement, Unrelated;
    TrieAbstract(i, c, sz, links, t, root);
    PosKey(i, c, sz, k);
    UnderLe(l, k);
    DetachLeaf(i, c, sz, links, t, root, l);
    PosKey(i, c, sz, l / 2);
    PosKey(i, c, sz, l);
    var c1 := c - {l};
    var t1 := SetChild(t, At(c, l / 2), l % 2, 0);
    LeafReplacement(i, c, sz, links, t, root, k, l);
    Substitute(i, c1, sz, links, links, t1, root, k, c[l]);
    ReplantOnly(i, c1, sz, links, t1, root, k, At(c, l));
    InteriorOnly(c, c[k][0], links, t, t1, Replant(t1, c[k][0], At(c, l), k == 1), l);
  }

  // a node with children, alone in its chain, is replaced by a leaf l below it
  lemma UnlinkInteriorOk(small: seq<seq<Addr>>, tries: seq<Chains>, free: Sizes, links: Links, t: Nodes,
                         smallmap: BinMap, treemap: BinMap, treebins: seq<Addr>, i: nat, k: nat, l: nat)
    requires BinsOk(small, tries, free, links, t, smallmap, treemap, treebins)
    requires i < NBINS && k in tries[i] && |tries[i][k]| == 1 && k >= 1 && Leaf(tries[i], l) && Under(l, k) && l != k
    ensures l / 2 in tries[i] && At(tries[i], l / 2) in t
    ensures var x := tries[i][k][0]; var r := At(tries[i], l);
            var t1 := SetChild(t, At(tries[i], l / 2), l % 2, 0);
            && Separate(t1, x, r, k == 1)
            && BinsOk(small, tries[i := Put(tries[i] - {l}, k, tries[i][l])], free - {x}, links,
                      Replant(t1, x, r, k == 1), smallmap, treemap, treebins[i := if k == 1 then r else treebins[i]])
  {
    hide TreeIndex, Marked, SmallBin, Trie, Member, Ring, Replant, Separate, OnlyTrie;
    var c := tries[i];
    var x := c[k][0];
    assert TreeBin(i, c, free, links, t, treemap, treebins[i]);
    TransplantLeaf(i, c, free, links, t, treebins[i], k, l);
    TrieAbstract(i, c, free, links, t, treebins[i]);
    MemberOf(c, k);
    TrieMember(i, c, free, links, t, treemap, treebins[i], x);
    DroppedInterior(i, c, free, k, l);
    RootStays(i, c, free, k, l);
    var t1 := SetChild(t, At(c, l / 2), l % 2, 0);
    DropUpdate(small, tries, free, links, links, t, Replant(t1, x, At(c, l), k == 1), smallmap, treemap, treemap, treebins,
               i, Put(c - {l}, k, c[l]), if k == 1 then At(c, l) else treebins[i], x);
  }

  lemma InteriorOnly(c: Chains, x: Addr, links: Links, t: Nodes, t1: Nodes, t': Nodes, l: nat)
    requires l in c && At(c, l / 2) in t && At(c, l / 2) != 0 && At(c, l) != 0
    requires t1 == SetChild(t, At(c, l / 2), l % 2, 0) && t'.Keys == t1.Keys
    requires forall a :: a != At(c, l) && !Member(c - {l}, a) && a in t1 ==> t'[a] == t1[a]
    ensures OnlyTrie(c, x, links, links, t, t')
  {
    AtMember(c, l);
    AtMember(c, l / 2);
    MembersOfRest(c, l);
    hide Member;
  }

  lemma MembersOfRest(c: Chains, l: nat)
    ensures forall a :: Member(c - {l}, a) ==> Member(c, a)
  {
    forall a | Member(c - {l}, a) ensures Member(c, a) {
      var m :| m in c - {l} && a in (c - {l})[m];
      assert a in c[m];
    }
  }

  lemma RootStays(i: nat, c: Chains, sz: Sizes, k: nat, l: nat)
    requires Abstract(i, c, sz) && k in c && l in c && Under(l, k) && l != k
    ensures 1 in Put(c - {l}, k, c[l]) && 1 in c
  {
    PosKey(i, c, sz, k);
    UnderLe(l, k);
    UnderRoot(k);
    PrefixClosed(i, c, sz, k, 1);
  }

  lemma DroppedInterior(i: nat, c: Chains, sz: Sizes, k: nat, l: nat)
    requires Abstract(i, c, sz) && k in c && l in c && l != k && |c[k]| == 1
    ensures Dropped(c, Put(c - {l}, k, c[l]), c[k][0])
  {
    hide Pos, Differ;
    var c' := Put(c - {l}, k, c[l]);
    var x := c[k][0];
    if Member(c', x) {
      var m :| m in c' && x in c'[m];
      OnePosition(i, c, sz, if m == k then l else m, k, x);
    }
    forall a | Member(c, a) && a != x ensures Member(c', a) {
      var m :| m in c && a in c[m];
      assert a in c'[if m == l then k else m];
    }
  }

  lemma LeafReplacement(i: nat, c: Chains, sz: Sizes, links: Links, t: Nodes, root: Addr, k: nat, l: nat)
    requires Trie(i, c, sz, links, t, root) && k in c && Leaf(c, l) && l > 1 && Under(l, k) && l != k
    requires At(c, l / 2) in t
    ensures Replacement(i, c - {l}, sz, links, SetChild(t, At(c, l / 2), l % 2, 0), k, c[l])
    ensures forall m :: m in c - {l} && m != k ==> Unrelated(c - {l}, sz, links, links, m, c[l])
  {
    hide Ring, Pow2, Log2, Key, TreeIndex;
    assert Pos(i, c, sz, l) && Rep(i, c, links, t, l);
    TrieRing(i, c, sz, links, t, root, l);
    UnderTrans(Key(i, sz[At(c, l)]), l, k);
    PosKey(i, c, sz, l / 2);
    AtMember(c, l / 2);
    forall m | m in c && m != l ensures Unrelated(c - {l}, sz, links, links, m, c[l]) && At(c, m) !in c[l] {
      PosKey(i, c, sz, m);
      Apart(i, c, sz, m, l);
      assert Differ(c, sz, m, l);
    }
  }

  // ---------------- insert_small_chunk, unlink_small_chunk ----------------

  lemma InsertSmallOk(small: seq<seq<Addr>>, tries: seq<Chains>, free: Sizes, links: Links, t: Nodes,
                      smallmap: BinMap, treemap: BinMap, treebins: seq<Addr>, i: nat, x: Addr)
    requires BinsOk(small, tries, free, links, t, smallmap, treemap, treebins)
    requires x > 0 && x !in free && 2 <= i < NBINS
    ensures var h := SmallHeader(i);
            && h in links && x != h
            && (var f := if Marked(smallmap, i) then links[h].next else h;
                && f in links && x != f
                && BinsOk(small[i := [x] + small[i]], tries, free[x := 8 * i], LinkBetween(links, h, x, f), t,
                          if Marked(smallmap, i) then smallmap else Mark(smallmap, i), treemap, treebins))
  {
    hide Marked, Mark, Ring, TreeBin, LinkBetween;
    assert SmallBin(i, small[i], free, links, smallmap);
    SmallBinInsert(i, small[i], free, links, smallmap, x);
    MarkMeaning(smallmap, i);
    var h := SmallHeader(i);
    var f := if Marked(smallmap, i) then links[h].next else h;
    var links' := LinkBetween(links, h, x, f);
    var free' := free[x := 8 * i];
    var smallmap' := if Marked(smallmap, i) then smallmap else Mark(smallmap, i);
    var l := [x] + small[i];
    assert l[0] == x;
    assert SmallBin(i, l, free', links', smallmap');
    OnlyBinLinked(i, small[i], x, links, f);
    SmallUpdate(small, tries, free, free', links, links', t, smallmap, smallmap', treemap, treebins, i, l, x);
  }

  lemma OnlyBinLinked(i: nat, l: seq<Addr>, x: Addr, links: Links, f: Addr)
    requires SmallHeader(i) in links && f in links && x != SmallHeader(i) && x != f && (f == SmallHeader(i) || f in l)
    ensures OnlyBin(i, l, x, links, LinkBetween(links, SmallHeader(i), x, f))
  {}

  lemma UnlinkSmallOk(small: seq<seq<Addr>>, tries: seq<Chains>, free: Sizes, links: Links, t: Nodes,
                      smallmap: BinMap, treemap: BinMap, treebins: seq<Addr>, i: nat, j: nat)
    requires BinsOk(small, tries, free, links, t, smallmap, treemap, treebins)
    requires i < NBINS && j < |small[i]|
    ensures var x := small[i][j];
            && x in links && links[x].prev in links && links[x].next in links && x in free
            && (links[x].prev == links[x].next <==> |small[i]| == 1)
            && BinsOk(small[i := RemoveAt(small[i], j)], tries, free - {x},
                      if links[x].prev == links[x].next then links else Bypass(links, x), t,
                      if links[x].prev == links[x].next then Clear(smallmap, i) else smallmap, treemap, treebins)
  {
    hide Marked, Clear, Ring, TreeBin, Bypass;
    var l := small[i];
    var x := l[j];
    assert SmallBin(i, l, free, links, smallmap);
    SmallBinRemove(i, l, free, links, smallmap, j);
    ClearMeaning(smallmap, i);
    var one := |l| == 1;
    var links' := if one then links else Bypass(links, x);
    var smallmap' := if one then Clear(smallmap, i) else smallmap;
    var l' := RemoveAt(l, j);
    if one { assert l' == []; }
    BypassInBin(i, l, links, j);
    PopRing(links, SmallHeader(i), l, j);
    RemovedMembers(i, l, free, j);
    SmallUpdate(small, tries, free, free - {x}, links, links', t, smallmap, smallmap', treemap, treebins, i, l', x);
  }

  lemma BypassInBin(i: nat, l: seq<Addr>, links: Links, j: nat)
    requires j < |l| && Ring(links, [SmallHeader(i)] + l)
    ensures l[j] in links && links[l[j]].prev in links && links[l[j]].next in links
    ensures OnlyBin(i, l, l[j], links, links)
    ensures OnlyBin(i, l, l[j], links, Bypass(links, l[j]))
  {
    var r := [SmallHeader(i)] + l;
    hide Ring;
    assert r[j + 1] == l[j];
    BypassElsewhere(links, r, j + 1);
  }
}
