/** The bitwise tries of dlmalloc's tree bins (kernel/libc/malloc/malloc.c:2330-2382).
    One bin's trie is described by its chains: a map from trie position (see Codes) to
    the ring of equal-sized chunks kept there, whose first element is the tree node. */
module Tries {
  import opened Rings
  import opened BinIndex
  import opened Codes

  // child[0], child[1], parent and index of a malloc_tree_chunk
  datatype TreeNode = TreeNode(left: Addr, right: Addr, parent: Addr, index: nat)

  type Nodes = map<Addr, TreeNode>
  type Sizes = map<Addr, nat>
  type Chains = map<nat, seq<Addr>>

  // the tree chunk at position k, or null
  function At(c: Chains, k: nat): Addr {
    if k in c && |c[k]| > 0 then c[k][0] else 0
  }

  function Put(c: Chains, k: nat, r: seq<Addr>): Chains { c[k := r] }

  // &treebins[i], told apart from chunk addresses by its sign
  function Header(i: nat): Addr { -1000 - i }

  ghost predicate Member(c: Chains, a: Addr) {
    exists k :: k in c && a in c[k]
  }

  ghost predicate SizeAt(i: nat, s: nat, k: nat) {
    256 <= s < WORD && TreeIndex(s) == i && Key(i, s) > 0 && Under(Key(i, s), k)
  }

  // position k holds chunks of one size, whose bits lead to k
  ghost predicate Pos(i: nat, c: Chains, sz: Sizes, k: nat) {
    && k in c && k >= 1 && |c[k]| > 0 && (k > 1 ==> k / 2 in c)
    && c[k][0] in sz
    && (forall j :: 0 <= j < |c[k]| ==> c[k][j] > 0 && c[k][j] in sz && sz[c[k][j]] == sz[c[k][0]])
    && SizeAt(i, sz[c[k][0]], k)
  }

  // one position per size
  ghost predicate Differ(c: Chains, sz: Sizes, j: nat, k: nat) {
    j in c && k in c && j != k && At(c, j) in sz && At(c, k) in sz ==> sz[At(c, j)] != sz[At(c, k)]
  }

  ghost predicate Abstract(i: nat, c: Chains, sz: Sizes) {
    && (forall k {:trigger Pos(i, c, sz, k)} :: k in c ==> Pos(i, c, sz, k))
    && (forall j, k {:trigger Differ(c, sz, j, k)} :: Differ(c, sz, j, k))
  }

  // the memory words of position k: the tree node, its chained chunks, and their ring
  ghost predicate Rep(i: nat, c: Chains, links: Links, t: Nodes, k: nat) {
    && k in c && |c[k]| > 0 && Ring(links, c[k])
    && c[k][0] in t
    && t[c[k][0]] == TreeNode(At(c, 2 * k), At(c, 2 * k + 1), if k == 1 then Header(i) else At(c, k / 2), i)
    && (forall j :: 1 <= j < |c[k]| ==> c[k][j] in t && t[c[k][j]] == TreeNode(0, 0, 0, i))
  }

  ghost predicate Trie(i: nat, c: Chains, sz: Sizes, links: Links, t: Nodes, root: Addr) {
    && Abstract(i, c, sz)
    && (forall k {:trigger Rep(i, c, links, t, k)} :: k in c ==> Rep(i, c, links, t, k))
    && root == At(c, 1)
  }

  // ---------------- facts about the abstract trie ----------------

  lemma {:induction false} PrefixClosed(i: nat, c: Chains, sz: Sizes, j: nat, k: nat)
    requires Abstract(i, c, sz) && j in c && k >= 1 && Under(j, k)
    ensures k in c
  {
    if j != k {
      UnderLe(j / 2, k);
      assert Pos(i, c, sz, j);
      PrefixClosed(i, c, sz, j / 2, k);
    }
  }

  lemma MemberSize(i: nat, c: Chains, sz: Sizes, k: nat, a: Addr)
    requires Abstract(i, c, sz) && k in c && a in c[k]
    ensures a > 0 && a in sz && |c[k]| > 0 && c[k][0] > 0 && c[k][0] in sz && sz[a] == sz[c[k][0]]
    ensures SizeAt(i, sz[a], k) && Log2(Key(i, sz[a])) == Width(i)
  {
    assert Pos(i, c, sz, k);
    KeyBounds(sz[a]);
  }

  // a chunk sits at one position only
  lemma OnePosition(i: nat, c: Chains, sz: Sizes, j: nat, k: nat, a: Addr)
    requires Abstract(i, c, sz) && j in c && k in c && a in c[j] && a in c[k]
    ensures j == k
  {
    hide Pos, SizeAt, Under, Log2, Pow2;
    MemberSize(i, c, sz, j, a);
    MemberSize(i, c, sz, k, a);
    assert Differ(c, sz, j, k);
  }

  ghost predicate Agree(a: Addr, sz: Sizes, sz': Sizes, links: Links, links': Links, t: Nodes, t': Nodes) {
    && (a in sz ==> a in sz' && sz'[a] == sz[a])
    && (a in t ==> a in t' && t'[a] == t[a])
    && (a in links ==> a in links' && links'[a] == links[a])
  }

  lemma PosFrame(i: nat, c: Chains, sz: Sizes, sz': Sizes, k: nat)
    requires Pos(i, c, sz, k) && forall a :: a in c[k] && a in sz ==> a in sz' && sz'[a] == sz[a]
    ensures Pos(i, c, sz', k) && At(c, k) in sz && At(c, k) in sz' && sz'[At(c, k)] == sz[At(c, k)]
  {
    assert c[k][0] in c[k];
    hide SizeAt;
  }

  lemma RepFrame(i: nat, c: Chains, links: Links, links': Links, t: Nodes, t': Nodes, k: nat)
    requires Rep(i, c, links, t, k)
    requires forall a :: a in c[k] ==> (a in t ==> a in t' && t'[a] == t[a])
    requires forall a :: a in c[k] ==> (a in links ==> a in links' && links'[a] == links[a])
    ensures Rep(i, c, links', t', k)
  {
    hide Ring;
    assert c[k][0] in c[k];
    RingFrame(links, links', c[k]);
  }

  lemma MemberOf(c: Chains, k: nat)
    requires k in c
    ensures forall a :: a in c[k] ==> Member(c, a)
  {}

  lemma TrieFrame(i: nat, c: Chains, sz: Sizes, sz': Sizes, links: Links, links': Links, t: Nodes, t': Nodes, root: Addr)
    requires Trie(i, c, sz, links, t, root)
    requires forall a :: Member(c, a) ==> Agree(a, sz, sz', links, links', t, t')
    ensures Trie(i, c, sz', links', t', root)
  {
    hide Pos, Rep, Member;
    forall k | k in c
      ensures Pos(i, c, sz', k) && Rep(i, c, links', t', k)
      ensures At(c, k) in sz && At(c, k) in sz' && sz'[At(c, k)] == sz[At(c, k)]
    {
      assert Pos(i, c, sz, k) && Rep(i, c, links, t, k);
      MemberOf(c, k);
      PosFrame(i, c, sz, sz', k);
      RepFrame(i, c, links, links', t, t', k);
    }
    forall j, k ensures Differ(c, sz', j, k) {
      assert Differ(c, sz, j, k);
    }
  }

  // ---------------- how one position depends on its neighbours ----------------

  lemma RepKept(i: nat, c: Chains, c': Chains, links: Links, links': Links, t: Nodes, t': Nodes, k: nat)
    requires k >= 1 && Rep(i, c, links, t, k) && k in c' && c'[k] == c[k]
    requires At(c', 2 * k) == At(c, 2 * k) && At(c', 2 * k + 1) == At(c, 2 * k + 1)
    requires k > 1 ==> At(c', k / 2) == At(c, k / 2)
    requires forall a :: a in c[k] ==> (a in t ==> a in t' && t'[a] == t[a])
    requires forall a :: a in c[k] ==> (a in links ==> a in links' && links'[a] == links[a])
    ensures Rep(i, c', links', t', k)
  {
    hide Ring, At;
    assert c[k][0] in c[k];
    RingFrame(links, links', c[k]);
  }

  // distinct positions hold distinct chunks
  lemma Apart(i: nat, c: Chains, sz: Sizes, j: nat, k: nat)
    requires Abstract(i, c, sz) && j in c && k in c && j != k
    ensures forall a :: a in c[j] ==> a !in c[k]
    ensures |c[j]| > 0 && |c[k]| > 0 && c[j][0] != c[k][0]
  {
    forall a | a in c[j] ensures a !in c[k] {
      if a in c[k] { OnePosition(i, c, sz, j, k, a); }
    }
    assert Pos(i, c, sz, j) && Pos(i, c, sz, k);
    assert c[j][0] in c[j] && c[k][0] in c[k];
  }

  lemma RingAt(i: nat, c: Chains, links: Links, t: Nodes, k: nat)
    requires Rep(i, c, links, t, k)
    ensures |c[k]| > 0 && Ring(links, c[k]) && c[k][0] in t
    ensures At(c, k) == c[k][0] && c[k][0] in c[k]
    ensures c[k][0] in links && links[c[k][0]].next in c[k] && links[c[k][0]].next in links
  {
    assert links[c[k][0]].next == c[k][Succ(c[k], 0)];
  }

  // ---------------- insert_large_chunk ----------------

  // into an empty bin
  lemma InsertFirst(i: nat, sz: Sizes, links: Links, t: Nodes, x: Addr)
    requires x > 0 && x in sz && SizeAt(i, sz[x], 1)
    requires x in links && links[x] == Link(x, x) && x in t && t[x] == TreeNode(0, 0, Header(i), i)
    ensures Trie(i, map[1 := [x]], sz, links, t, x)
  {
    hide SizeAt;
    var c: Chains := map[1 := [x]];
    assert Pos(i, c, sz, 1);
    assert Rep(i, c, links, t, 1);
  }

  // behind the tree node of its own size
  lemma InsertChain(i: nat, c: Chains, sz: Sizes, links: Links, t: Nodes, root: Addr, k: nat, x: Addr)
    requires Trie(i, c, sz, links, t, root) && k in c && |c[k]| > 0
    requires x > 0 && x in sz && At(c, k) in sz && sz[x] == sz[At(c, k)] && !Member(c, x)
    ensures At(c, k) in links && links[At(c, k)].next in links
    ensures x != At(c, k) && x != links[At(c, k)].next
    ensures var f := links[At(c, k)].next;
            Trie(i, c[k := InsertAt(c[k], 1, x)], sz, LinkBetween(links, At(c, k), x, f), t[x := TreeNode(0, 0, 0, i)], root)
  {
    hide Member, SizeAt, Pos, Rep, Ring;
    assert Pos(i, c, sz, k) && Rep(i, c, links, t, k);
    RingAt(i, c, links, t, k);
    MemberOf(c, k);
    var s := InsertAt(c[k], 1, x);
    var h := At(c, k);
    var c' := c[k := s];
    ChainLink(i, c, sz, links, t, k, x);
    var links' := LinkBetween(links, h, x, links[h].next);
    var t' := t[x := TreeNode(0, 0, 0, i)];
    assert forall j :: At(c', j) == At(c, j);
    forall j | j in c'
      ensures Pos(i, c', sz, j) && Rep(i, c', links', t', j)
    {
      assert Pos(i, c, sz, j) && Rep(i, c, links, t, j);
      if j == k {
        GrowPos(i, c, sz, k, x);
        GrowRep(i, c, links, t, k, x);
      } else {
        Apart(i, c, sz, j, k);
        MemberOf(c, j);
        PosKept(i, c, c', sz, j);
        ChainLinkElsewhere(links, c[k], x, c[j]);
        RepKept(i, c, c', links, links', t, t', j);
      }
    }
    forall j, l ensures Differ(c', sz, j, l) {
      assert Differ(c, sz, j, l);
    }
  }

  lemma PosKept(i: nat, c: Chains, c': Chains, sz: Sizes, k: nat)
    requires Pos(i, c, sz, k) && k in c' && c'[k] == c[k] && (k > 1 && k / 2 in c ==> k / 2 in c')
    ensures Pos(i, c', sz, k)
  {}

  lemma ChainLink(i: nat, c: Chains, sz: Sizes, links: Links, t: Nodes, k: nat, x: Addr)
    requires Rep(i, c, links, t, k) && x !in c[k]
    ensures At(c, k) in links && links[At(c, k)].next in c[k] && links[At(c, k)].next in links
    ensures x != At(c, k) && x != links[At(c, k)].next
    ensures Ring(LinkBetween(links, At(c, k), x, links[At(c, k)].next), InsertAt(c[k], 1, x))
  {
    LinkRing(links, c[k], 1, x);
    assert links[c[k][0]].next == c[k][Succ(c[k], 0)];
  }

  lemma ChainLinkElsewhere(links: Links, r: seq<Addr>, x: Addr, other: seq<Addr>)
    requires Ring(links, r) && x !in r && x !in other && forall a :: a in other ==> a !in r
    ensures r[0] in links && links[r[0]].next in r && links[r[0]].next in links && x != r[0] && x != links[r[0]].next
    ensures var l' := LinkBetween(links, r[0], x, links[r[0]].next);
            forall a :: a in other ==> (a in links ==> a in l' && l'[a] == links[a])
  {
    assert links[r[0]].next == r[Succ(r, 0)];
    assert r[0] in r && r[Succ(r, 0)] in r;
  }

  lemma GrowPos(i: nat, c: Chains, sz: Sizes, k: nat, x: Addr)
    requires Pos(i, c, sz, k) && x > 0 && x in sz && sz[x] == sz[At(c, k)]
    ensures Pos(i, c[k := InsertAt(c[k], 1, x)], sz, k)
  {
    hide SizeAt;
    var s := InsertAt(c[k], 1, x);
    forall j | 0 <= j < |s| ensures s[j] > 0 && s[j] in sz && sz[s[j]] == sz[s[0]] {
      assert s[j] == if j == 0 then c[k][0] else if j == 1 then x else c[k][j-1];
    }
  }

  lemma GrowRep(i: nat, c: Chains, links: Links, t: Nodes, k: nat, x: Addr)
    requires Rep(i, c, links, t, k) && x !in c[k]
    requires At(c, k) in links && links[At(c, k)].next in links && x != links[At(c, k)].next
    requires Ring(LinkBetween(links, At(c, k), x, links[At(c, k)].next), InsertAt(c[k], 1, x))
    requires forall j :: At(c[k := InsertAt(c[k], 1, x)], j) == At(c, j)
    ensures Rep(i, c[k := InsertAt(c[k], 1, x)], LinkBetween(links, At(c, k), x, links[At(c, k)].next), t[x := TreeNode(0, 0, 0, i)], k)
  {
    hide Ring, LinkBetween;
    var s := InsertAt(c[k], 1, x);
    var t' := t[x := TreeNode(0, 0, 0, i)];
    assert s[0] == c[k][0] && c[k][0] in c[k];
    forall j | 1 <= j < |s| ensures s[j] in t' && t'[s[j]] == TreeNode(0, 0, 0, i) {
      if j > 1 { assert s[j] == c[k][j-1]; }
    }
  }

  // as a new leaf below position k
  function SetChild(t: Nodes, p: Addr, b: nat, v: Addr): (t': Nodes)
    requires p in t
    ensures t'.Keys == t.Keys
  {
    t[p := if b == 0 then t[p].(left := v) else t[p].(right := v)]
  }

  lemma InsertLeaf(i: nat, c: Chains, sz: Sizes, links: Links, t: Nodes, root: Addr, k: nat, b: nat, x: Addr)
    requires Trie(i, c, sz, links, t, root) && k in c && b < 2 && 2 * k + b !in c
    requires x > 0 && x in sz && !Member(c, x) && SizeAt(i, sz[x], 2 * k + b)
    requires forall j :: j in c ==> At(c, j) in sz && sz[At(c, j)] != sz[x]
    requires x in t && t[x] == TreeNode(0, 0, At(c, k), i) && x in links && links[x] == Link(x, x)
    ensures At(c, k) in t
    ensures Trie(i, c[2 * k + b := [x]], sz, links, SetChild(t, At(c, k), b, x), root)
  {
    hide Member, SizeAt, Pos, Rep, Ring;
    var n := 2 * k + b;
    var c' := c[n := [x]];
    assert Rep(i, c, links, t, k);
    RingAt(i, c, links, t, k);
    MemberOf(c, k);
    var h := At(c, k);
    var t' := SetChild(t, h, b, x);
    assert k >= 1 by { PosFacts(i, c, sz, k); }
    assert forall j :: j != n ==> At(c', j) == At(c, j);
    NoneBelow(i, c, sz, n);
    forall j | j in c'
      ensures Pos(i, c', sz, j) && Rep(i, c', links, t', j)
    {
      if j == n {
        NewPos(i, c', sz, n, x);
        NewRep(i, c', links, t', n, x);
      } else {
        assert Pos(i, c, sz, j) && Rep(i, c, links, t, j);
        PosFacts(i, c, sz, j);
        PosKept(i, c, c', sz, j);
        if j == k {
          ParentRep(i, c, links, t, k, b, x);
        } else {
          Apart(i, c, sz, j, k);
          MemberOf(c, j);
          assert 2 * j != n && 2 * j + 1 != n && j / 2 != n;
          RepKept(i, c, c', links, links, t, t', j);
        }
      }
    }
    forall j, l ensures Differ(c', sz, j, l) {
      assert Differ(c, sz, j, l);
    }
  }

  lemma PosFacts(i: nat, c: Chains, sz: Sizes, k: nat)
    requires Pos(i, c, sz, k)
    ensures k >= 1 && |c[k]| > 0 && (k > 1 ==> k / 2 in c) && At(c, k) == c[k][0] > 0 && At(c, k) in sz
    ensures SizeAt(i, sz[At(c, k)], k)
  {}

  // nothing is stored below an empty position
  lemma NoneBelow(i: nat, c: Chains, sz: Sizes, n: nat)
    requires Abstract(i, c, sz) && n >= 1 && n !in c
    ensures 2 * n !in c && 2 * n + 1 !in c
    ensures forall j :: j in c ==> j / 2 != n
  {
    UnderChild(n);
    forall j | j in c ensures j / 2 != n {
      if j / 2 == n { PrefixClosed(i, c, sz, j, n); }
    }
  }

  lemma NewPos(i: nat, c: Chains, sz: Sizes, n: nat, x: Addr)
    requires n in c && c[n] == [x] && n > 1 && n / 2 in c && x > 0 && x in sz && SizeAt(i, sz[x], n)
    ensures Pos(i, c, sz, n)
  {}

  lemma NewRep(i: nat, c: Chains, links: Links, t: Nodes, n: nat, x: Addr)
    requires n in c && c[n] == [x] && n > 1 && At(c, 2 * n) == 0 == At(c, 2 * n + 1)
    requires x in t && t[x] == TreeNode(0, 0, At(c, n / 2), i) && x in links && links[x] == Link(x, x)
    ensures Rep(i, c, links, t, n)
  {}

  lemma ParentRep(i: nat, c: Chains, links: Links, t: Nodes, k: nat, b: nat, x: Addr)
    requires Rep(i, c, links, t, k) && b < 2 && 2 * k + b !in c && k >= 1
    ensures Rep(i, c[2 * k + b := [x]], links, SetChild(t, At(c, k), b, x), k)
  {
    hide Ring;
    RingDistinctHead(links, c[k]);
  }

  lemma RingDistinctHead(links: Links, r: seq<Addr>)
    requires Ring(links, r)
    ensures forall j :: 1 <= j < |r| ==> r[j] != r[0]
  {}

  // ---------------- unlink_large_chunk ----------------

  ghost predicate Leaf(c: Chains, l: nat) {
    l in c && 2 * l !in c && 2 * l + 1 !in c
  }

  // a chunk chained behind a tree node leaves its ring; the tree does not change
  lemma UnlinkChained(i: nat, c: Chains, sz: Sizes, links: Links, t: Nodes, root: Addr, k: nat, j: nat)
    requires Trie(i, c, sz, links, t, root) && k in c && 1 <= j < |c[k]|
    ensures var x := c[k][j];
            && x in links && links[x].prev in links && links[x].next in links
            && Trie(i, c[k := RemoveAt(c[k], j)], sz, Bypass(links, x), t, root)
  {
    hide Member, SizeAt, Pos, Rep, Ring;
    assert Rep(i, c, links, t, k);
    RingAt(i, c, links, t, k);
    var s := RemoveAt(c[k], j);
    var x := c[k][j];
    BypassElsewhere(links, c[k], j);
    var links' := Bypass(links, x);
    var c' := c[k := s];
    assert s[0] == c[k][0];
    assert forall m :: At(c', m) == At(c, m);
    forall m | m in c'
      ensures Pos(i, c', sz, m) && Rep(i, c', links', t, m)
    {
      assert Pos(i, c, sz, m) && Rep(i, c, links, t, m);
      if m == k {
        ShrinkPos(i, c, sz, k, j);
        ShrinkRep(i, c, links, t, k, j);
      } else {
        Apart(i, c, sz, m, k);
        PosFacts(i, c, sz, m);
        PosKept(i, c, c', sz, m);
        RepKept(i, c, c', links, links', t, t, m);
      }
    }
    forall m, l ensures Differ(c', sz, m, l) {
      assert Differ(c, sz, m, l);
    }
  }

  lemma BypassElsewhere(links: Links, r: seq<Addr>, j: nat)
    requires Ring(links, r) && j < |r| && |r| > 1
    ensures var x := r[j];
            && x in links && links[x].prev in links && links[x].next in links
            && Ring(Bypass(links, x), RemoveAt(r, j))
            && (forall a :: a !in r ==> (a in links ==> a in Bypass(links, x) && Bypass(links, x)[a] == links[a]))
  {
    BypassRing(links, r, j);
  }

  lemma ShrinkPos(i: nat, c: Chains, sz: Sizes, k: nat, j: nat)
    requires Pos(i, c, sz, k) && 1 <= j < |c[k]|
    ensures Pos(i, c[k := RemoveAt(c[k], j)], sz, k)
  {
    hide SizeAt;
    var s := RemoveAt(c[k], j);
    forall m | 0 <= m < |s| ensures s[m] > 0 && s[m] in sz && sz[s[m]] == sz[s[0]] {
      assert s[m] == if m < j then c[k][m] else c[k][m+1];
    }
  }

  lemma ShrinkRep(i: nat, c: Chains, links: Links, t: Nodes, k: nat, j: nat)
    requires Rep(i, c, links, t, k) && 1 <= j < |c[k]|
    requires var x := c[k][j];
             && x in links && links[x].prev in links && links[x].next in links
             && Ring(Bypass(links, x), RemoveAt(c[k], j))
    requires forall m :: At(c[k := RemoveAt(c[k], j)], m) == At(c, m)
    ensures Rep(i, c[k := RemoveAt(c[k], j)], Bypass(links, c[k][j]), t, k)
  {
    hide Ring, Bypass, At;
    var s := RemoveAt(c[k], j);
    assert s[0] == c[k][0];
    forall m | 1 <= m < |s| ensures s[m] in t && t[s[m]] == TreeNode(0, 0, 0, i) {
      assert s[m] == if m < j then c[k][m] else c[k][m+1];
    }
  }

  // a leaf below the root is cut off by clearing its parent's child pointer
  lemma DetachLeaf(i: nat, c: Chains, sz: Sizes, links: Links, t: Nodes, root: Addr, l: nat)
    requires Trie(i, c, sz, links, t, root) && Leaf(c, l) && l > 1
    ensures l / 2 in c && At(c, l / 2) in t
    ensures Trie(i, c - {l}, sz, links, SetChild(t, At(c, l / 2), l % 2, 0), root)
  {
    hide Member, SizeAt, Pos, Rep, Ring;
    var k := l / 2;
    assert Pos(i, c, sz, l);
    PosFacts(i, c, sz, l);
    assert Rep(i, c, links, t, k);
    RingAt(i, c, links, t, k);
    var c' := c - {l};
    var t' := SetChild(t, At(c, k), l % 2, 0);
    assert forall j :: j != l ==> At(c', j) == At(c, j);
    forall j | j in c'
      ensures Pos(i, c', sz, j) && Rep(i, c', links, t', j)
    {
      assert Pos(i, c, sz, j) && Rep(i, c, links, t, j);
      PosFacts(i, c, sz, j);
      assert j / 2 != l;
      PosKept(i, c, c', sz, j);
      if j == k {
        OrphanRep(i, c, links, t, l);
      } else {
        Apart(i, c, sz, j, k);
        RepKept(i, c, c', links, links, t, t', j);
      }
    }
    forall j: nat, m: nat ensures Differ(c', sz, j, m) {
      assert Differ(c, sz, j, m);
    }
  }

  lemma OrphanRep(i: nat, c: Chains, links: Links, t: Nodes, l: nat)
    requires l > 1 && l in c && Rep(i, c, links, t, l / 2)
    ensures Rep(i, c - {l}, links, SetChild(t, At(c, l / 2), l % 2, 0), l / 2)
  {
    hide Ring;
    RingDistinctHead(links, c[l / 2]);
    assert l == 2 * (l / 2) + l % 2;
  }

  // removing the only position
  lemma RemoveRoot(i: nat, c: Chains, sz: Sizes, links: Links, t: Nodes, root: Addr)
    requires Trie(i, c, sz, links, t, root) && Leaf(c, 1)
    ensures c - {1} == map[]
    ensures Trie(i, map[], sz, links, t, 0)
  {
    forall j | j in c ensures j == 1 {
      assert Pos(i, c, sz, j);
      if j != 1 {
        UnderRoot(j);
        DescendOne(j, 1);
        var b := if Under(j, 2) then 2 else 3;
        PrefixClosed(i, c, sz, j, b);
      }
    }
  }

  // x's tree neighbours are themselves nodes of the map, and all different
  predicate Separate(t: Nodes, x: Addr, r: Addr, isRoot: bool) {
    && x in t && r in t && r != x
    && (!isRoot ==> t[x].parent in t && t[x].parent != x && t[x].parent != r)
    && (t[x].left != 0 ==> t[x].left in t && t[x].left != r && (!isRoot ==> t[x].left != t[x].parent))
    && (t[x].right != 0 ==> t[x].right in t && t[x].right != r && (!isRoot ==> t[x].right != t[x].parent))
    && (t[x].left != 0 ==> t[x].left != t[x].right)
    && t[x].left != x && t[x].right != x
    && t[r].left == 0 && t[r].right == 0
  }

  // The last block of unlink_large_chunk: r takes x's place in the tree. `isRoot` is the
  // test X == *H; then the bin header is redirected instead of a child pointer.
  function Replant(t: Nodes, x: Addr, r: Addr, isRoot: bool): (t': Nodes)
    requires Separate(t, x, r, isRoot)
    ensures t'.Keys == t.Keys
  {
    var p := t[x].parent;
    var t1 := if isRoot then t else SetChild(t, p, if t[p].left == x then 0 else 1, r);
    var t2 := t1[r := t1[r].(parent := p)];
    var c0 := t[x].left;
    var t3 := if c0 == 0 then t2 else
      var u := t2[r := t2[r].(left := c0)]; u[c0 := u[c0].(parent := r)];
    var c1 := t[x].right;
    if c1 == 0 then t3 else
      var u := t3[r := t3[r].(right := c1)]; u[c1 := u[c1].(parent := r)]
  }

  // the nodes Replant writes
  predicate Touched(t: Nodes, x: Addr, r: Addr, isRoot: bool, a: Addr)
    requires x in t
  {
    || a == r
    || (!isRoot && a == t[x].parent)
    || (t[x].left != 0 && a == t[x].left)
    || (t[x].right != 0 && a == t[x].right)
  }

  lemma ReplantEffect(t: Nodes, x: Addr, r: Addr, isRoot: bool)
    requires Separate(t, x, r, isRoot)
    ensures var t' := Replant(t, x, r, isRoot); var p := t[x].parent;
            && t'[r] == TreeNode(t[x].left, t[x].right, p, t[r].index)
            && (!isRoot ==> t'[p] == if t[p].left == x then t[p].(left := r) else t[p].(right := r))
            && (t[x].left != 0 ==> t'[t[x].left] == t[t[x].left].(parent := r))
            && (t[x].right != 0 ==> t'[t[x].right] == t[t[x].right].(parent := r))
            && (forall a :: a in t && !Touched(t, x, r, isRoot, a) ==> t'[a] == t[a])
  {}

  // a chain fit to stand at position k in place of the present one
  ghost predicate Replacement(i: nat, c: Chains, sz: Sizes, links': Links, t: Nodes, k: nat, s: seq<Addr>) {
    && |s| > 0 && Ring(links', s) && s[0] in sz && SizeAt(i, sz[s[0]], k)
    && (forall j :: 0 <= j < |s| ==> s[j] > 0 && s[j] in sz && sz[s[j]] == sz[s[0]])
    && s[0] in t && t[s[0]].left == 0 && t[s[0]].right == 0 && t[s[0]].index == i
    && (forall j :: 1 <= j < |s| ==> s[j] in t && t[s[j]] == TreeNode(0, 0, 0, i))
    && At(c, k) !in s
  }

  // position m shares neither chunk, link nor size with the replacement
  ghost predicate Unrelated(c: Chains, sz: Sizes, links: Links, links': Links, m: nat, s: seq<Addr>) {
    && m in c && |s| > 0
    && (forall a :: a in c[m] ==> a !in s && (a in links ==> a in links' && links'[a] == links[a]))
    && (At(c, m) in sz && s[0] in sz ==> sz[At(c, m)] != sz[s[0]])
  }

  // what a position's tree neighbours look like in memory
  lemma Neighbours(i: nat, c: Chains, sz: Sizes, links: Links, t: Nodes, root: Addr, k: nat)
    requires Trie(i, c, sz, links, t, root) && k in c
    ensures k >= 1 && |c[k]| > 0 && At(c, k) > 0 && At(c, k) == c[k][0] && At(c, k) in t
    ensures t[At(c, k)] == TreeNode(At(c, 2 * k), At(c, 2 * k + 1), if k == 1 then Header(i) else At(c, k / 2), i)
    ensures k > 1 ==> k / 2 in c && At(c, k / 2) in t && At(c, k / 2) > 0 && t[At(c, k / 2)].left == At(c, k / 2 * 2)
    ensures 2 * k in c <==> At(c, 2 * k) != 0
    ensures 2 * k + 1 in c <==> At(c, 2 * k + 1) != 0
    ensures 2 * k in c ==> At(c, 2 * k) in t
    ensures 2 * k + 1 in c ==> At(c, 2 * k + 1) in t
  {
    hide SizeAt, Ring;
    assert Pos(i, c, sz, k) && Rep(i, c, links, t, k);
    if k > 1 { assert Pos(i, c, sz, k / 2) && Rep(i, c, links, t, k / 2); }
    if 2 * k in c { assert Pos(i, c, sz, 2 * k) && Rep(i, c, links, t, 2 * k); }
    if 2 * k + 1 in c { assert Pos(i, c, sz, 2 * k + 1) && Rep(i, c, links, t, 2 * k + 1); }
  }

  lemma AtDiffer(i: nat, c: Chains, sz: Sizes, j: nat, k: nat)
    requires Abstract(i, c, sz) && j != k && (j in c || k in c)
    ensures At(c, j) != At(c, k)
  {
    hide SizeAt;
    if j in c { assert Pos(i, c, sz, j); }
    if k in c { assert Pos(i, c, sz, k); }
    if j in c && k in c { Apart(i, c, sz, j, k); }
  }

  lemma SubstituteSeparate(i: nat, c: Chains, sz: Sizes, links: Links, links': Links, t: Nodes, root: Addr, k: nat, s: seq<Addr>)
    requires Trie(i, c, sz, links, t, root) && k in c && Replacement(i, c, sz, links', t, k, s)
    requires forall m :: m in c && m != k ==> Unrelated(c, sz, links, links', m, s)
    ensures Separate(t, At(c, k), s[0], k == 1)
  {
    hide Ring, SizeAt, Pos, Rep;
    Neighbours(i, c, sz, links, t, root, k);
    if k > 1 {
      AtDiffer(i, c, sz, k / 2, k);
      AtDiffer(i, c, sz, k / 2, 2 * k);
      AtDiffer(i, c, sz, k / 2, 2 * k + 1);
      NotInReplacement(i, c, sz, links, links', k / 2, s);
    }
    AtDiffer(i, c, sz, 2 * k, k);
    AtDiffer(i, c, sz, 2 * k + 1, k);
    if 2 * k in c {
      AtDiffer(i, c, sz, 2 * k, 2 * k + 1);
      NotInReplacement(i, c, sz, links, links', 2 * k, s);
    }
    if 2 * k + 1 in c { NotInReplacement(i, c, sz, links, links', 2 * k + 1, s); }
  }

  lemma NotInReplacement(i: nat, c: Chains, sz: Sizes, links: Links, links': Links, m: nat, s: seq<Addr>)
    requires Abstract(i, c, sz) && m in c && Unrelated(c, sz, links, links', m, s)
    ensures At(c, m) !in s && At(c, m) != s[0]
  {
    hide SizeAt;
    assert Pos(i, c, sz, m);
    assert c[m][0] in c[m];
  }

  lemma Substitute(i: nat, c: Chains, sz: Sizes, links: Links, links': Links, t: Nodes, root: Addr, k: nat, s: seq<Addr>)
    requires Trie(i, c, sz, links, t, root) && k in c && Replacement(i, c, sz, links', t, k, s)
    requires forall m :: m in c && m != k ==> Unrelated(c, sz, links, links', m, s)
    ensures Separate(t, At(c, k), s[0], k == 1)
    ensures Trie(i, c[k := s], sz, links', Replant(t, At(c, k), s[0], k == 1), if k == 1 then s[0] else root)
  {
    hide Ring, SizeAt, Pos, Rep, Replant, Replacement, Unrelated;
    var c' := c[k := s];
    SubstituteSeparate(i, c, sz, links, links', t, root, k, s);
    ReplacementFacts(i, c, sz, links', t, k, s);
    hide Separate;
    var t' := Replant(t, At(c, k), s[0], k == 1);
    assert forall j :: j != k ==> At(c', j) == At(c, j);
    assert At(c', k) == s[0];
    forall j | j in c'
      ensures Pos(i, c', sz, j) && Rep(i, c', links', t', j)
      ensures At(c', j) in sz
    {
      if j == k {
        SubstitutePos(i, c, sz, links, links', t, root, k, s);
      } else {
        SubstituteElsewhere(i, c, sz, links, links', t, root, k, s, j);
      }
    }
    forall j: nat, m: nat ensures Differ(c', sz, j, m) {
      assert Differ(c, sz, j, m);
      if j in c && m in c && j != m && (j == k || m == k) {
        SubstituteDiffer(c, sz, links, links', t, i, k, s, if j == k then m else j);
      }
    }
  }

  lemma ReplacementFacts(i: nat, c: Chains, sz: Sizes, links': Links, t: Nodes, k: nat, s: seq<Addr>)
    requires Replacement(i, c, sz, links', t, k, s)
    ensures |s| > 0 && s[0] > 0 && s[0] in sz && s[0] in t
  {}

  lemma SubstituteDiffer(c: Chains, sz: Sizes, links: Links, links': Links, t: Nodes, i: nat, k: nat, s: seq<Addr>, m: nat)
    requires Replacement(i, c, sz, links', t, k, s) && m in c && m != k && Unrelated(c, sz, links, links', m, s)
    ensures At(c, m) in sz ==> sz[At(c, m)] != sz[s[0]]
  {}

  lemma SubstitutePos(i: nat, c: Chains, sz: Sizes, links: Links, links': Links, t: Nodes, root: Addr, k: nat, s: seq<Addr>)
    requires Trie(i, c, sz, links, t, root) && k in c && Replacement(i, c, sz, links', t, k, s)
    requires forall m :: m in c && m != k ==> Unrelated(c, sz, links, links', m, s)
    requires Separate(t, At(c, k), s[0], k == 1)
    ensures Pos(i, c[k := s], sz, k) && s[0] in sz
    ensures Rep(i, c[k := s], links', Replant(t, At(c, k), s[0], k == 1), k)
  {
    hide Ring, SizeAt, Replant, Rep, Unrelated;
    assert Pos(i, c, sz, k);
    Neighbours(i, c, sz, links, t, root, k);
    ReplantEffect(t, At(c, k), s[0], k == 1);
    SubstituteChain(i, c, sz, links, links', t, root, k, s);
    hide Separate, Pos;
    assert Pos(i, c[k := s], sz, k) by { NewChainPos(i, c, sz, links', t, k, s); }
    RepIntro(i, c[k := s], links', Replant(t, At(c, k), s[0], k == 1), k);
  }

  lemma NewChainPos(i: nat, c: Chains, sz: Sizes, links': Links, t: Nodes, k: nat, s: seq<Addr>)
    requires Pos(i, c, sz, k) && Replacement(i, c, sz, links', t, k, s)
    ensures Pos(i, c[k := s], sz, k)
  {}

  lemma SubstituteChain(i: nat, c: Chains, sz: Sizes, links: Links, links': Links, t: Nodes, root: Addr, k: nat, s: seq<Addr>)
    requires Trie(i, c, sz, links, t, root) && k in c && Replacement(i, c, sz, links', t, k, s)
    requires forall m :: m in c && m != k ==> Unrelated(c, sz, links, links', m, s)
    requires Separate(t, At(c, k), s[0], k == 1)
    ensures forall j :: 1 <= j < |s| ==> s[j] in t && Replant(t, At(c, k), s[0], k == 1)[s[j]] == TreeNode(0, 0, 0, i)
  {
    hide Ring, SizeAt, Replant, Rep, Unrelated, Pos;
    Neighbours(i, c, sz, links, t, root, k);
    ReplantEffect(t, At(c, k), s[0], k == 1);
    RingDistinctHead(links', s);
    if k > 1 { NotInReplacement(i, c, sz, links, links', k / 2, s); }
    if 2 * k in c { NotInReplacement(i, c, sz, links, links', 2 * k, s); }
    if 2 * k + 1 in c { NotInReplacement(i, c, sz, links, links', 2 * k + 1, s); }
    assert forall j :: 1 <= j < |s| ==> s[j] in s;
  }

  lemma RepIntro(i: nat, c: Chains, links: Links, t: Nodes, k: nat)
    requires k in c && |c[k]| > 0 && Ring(links, c[k]) && c[k][0] in t
    requires t[c[k][0]] == TreeNode(At(c, 2 * k), At(c, 2 * k + 1), if k == 1 then Header(i) else At(c, k / 2), i)
    requires forall j :: 1 <= j < |c[k]| ==> c[k][j] in t && t[c[k][j]] == TreeNode(0, 0, 0, i)
    ensures Rep(i, c, links, t, k)
  {}

  // chunks of another position: unchanged by Replant unless they are x's tree neighbours
  lemma ReplantElsewhere(i: nat, c: Chains, sz: Sizes, links: Links, links': Links, t: Nodes, root: Addr, k: nat, s: seq<Addr>, j: nat)
    requires Trie(i, c, sz, links, t, root) && k in c && j in c && j != k
    requires |s| > 0 && At(c, k) in t && Unrelated(c, sz, links, links', j, s) && Separate(t, At(c, k), s[0], k == 1)
    ensures |c[j]| > 0 && c[j][0] in t
    ensures forall m :: 1 <= m < |c[j]| ==> c[j][m] in t && Replant(t, At(c, k), s[0], k == 1)[c[j][m]] == t[c[j][m]]
    ensures (k > 1 ==> j != k / 2) && j != 2 * k && j != 2 * k + 1 ==>
              Replant(t, At(c, k), s[0], k == 1)[c[j][0]] == t[c[j][0]]
    ensures Ring(links', c[j])
  {
    hide SizeAt, Replant, Ring;
    assert Pos(i, c, sz, j) && Rep(i, c, links, t, j);
    Neighbours(i, c, sz, links, t, root, k);
    ReplantEffect(t, At(c, k), s[0], k == 1);
    RingFrame(links, links', c[j]);
    forall m | 0 <= m < |c[j]|
      ensures c[j][m] in c[j] && c[j][m] > 0
      ensures k > 1 && (m > 0 || j != k / 2) ==> c[j][m] != At(c, k / 2)
      ensures (m > 0 || j != 2 * k) && 2 * k in c ==> c[j][m] != At(c, 2 * k)
      ensures (m > 0 || j != 2 * k + 1) && 2 * k + 1 in c ==> c[j][m] != At(c, 2 * k + 1)
    {
      if k > 1 { NotHead(i, c, sz, links, t, j, m, k / 2); }
      if 2 * k in c { NotHead(i, c, sz, links, t, j, m, 2 * k); }
      if 2 * k + 1 in c { NotHead(i, c, sz, links, t, j, m, 2 * k + 1); }
    }
    RingAt(i, c, links, t, j);
  }

  lemma NotHead(i: nat, c: Chains, sz: Sizes, links: Links, t: Nodes, j: nat, m: nat, h: nat)
    requires Abstract(i, c, sz) && j in c && h in c && m < |c[j]| && Rep(i, c, links, t, j)
    ensures m > 0 || j != h ==> c[j][m] != At(c, h)
  {
    hide SizeAt, Ring;
    assert c[j][m] in c[j];
    if j != h {
      Apart(i, c, sz, j, h);
      assert c[h][0] in c[h];
    } else {
      RingDistinctHead(links, c[j]);
    }
  }

  lemma SubstituteElsewhere(i: nat, c: Chains, sz: Sizes, links: Links, links': Links, t: Nodes, root: Addr, k: nat, s: seq<Addr>, j: nat)
    requires Trie(i, c, sz, links, t, root) && k in c && Replacement(i, c, sz, links', t, k, s) && j in c && j != k
    requires forall m :: m in c && m != k ==> Unrelated(c, sz, links, links', m, s)
    requires Separate(t, At(c, k), s[0], k == 1)
    ensures Pos(i, c[k := s], sz, j) && At(c, j) in sz
    ensures Rep(i, c[k := s], links', Replant(t, At(c, k), s[0], k == 1), j)
  {
    hide SizeAt, Replant, Pos, Ring, Rep, Separate;
    var c' := c[k := s];
    assert Pos(i, c, sz, j);
    PosFacts(i, c, sz, j);
    PosKept(i, c, c', sz, j);
    assert Unrelated(c, sz, links, links', j, s);
    Neighbours(i, c, sz, links, t, root, k);
    ReplantElsewhere(i, c, sz, links, links', t, root, k, s, j);
    ChainedNodes(i, c, sz, links, t, root, j);
    Neighbours(i, c, sz, links, t, root, j);
    ReplantEffect(t, At(c, k), s[0], k == 1);
    hide Unrelated, Replacement;
    assert forall m :: m != k ==> At(c', m) == At(c, m);
    assert At(c', k) == s[0] by { ReplacementFacts(i, c, sz, links', t, k, s); }
    if k > 1 && j == k / 2 { AtDiffer(i, c, sz, 2 * j, 2 * j + 1); }
    RepIntro(i, c', links', Replant(t, At(c, k), s[0], k == 1), j);
  }

  lemma ChainedNodes(i: nat, c: Chains, sz: Sizes, links: Links, t: Nodes, root: Addr, k: nat)
    requires Trie(i, c, sz, links, t, root) && k in c
    ensures forall j :: 1 <= j < |c[k]| ==> c[k][j] in t && t[c[k][j]] == TreeNode(0, 0, 0, i)
  {
    assert Rep(i, c, links, t, k);
  }
}
