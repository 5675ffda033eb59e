/** Intrusive circular lists over a shared pool of nodes (kernel/include/list.h:24-67). */
module Lists {
  import opened Rings

  // the rings are well linked and share no node
  ghost predicate Rung(m: Links, rings: set<seq<Addr>>) {
    && (forall r :: r in rings ==> Ring(m, r))
    && (forall r, s :: r in rings && s in rings && r != s ==> Apart(r, s))
  }

  ghost predicate Apart(r: seq<Addr>, s: seq<Addr>) {
    forall a :: a in r ==> a !in s
  }

  // no ring but r is touched, and r becomes r'
  lemma Replaced(m: Links, m': Links, rings: set<seq<Addr>>, r: seq<Addr>, r': seq<Addr>)
    requires Rung(m, rings) && r in rings && Ring(m', r')
    requires forall a :: a in r' ==> a in r
    requires forall a :: a in m && a !in r ==> a in m' && m'[a] == m[a]
    ensures Rung(m', rings - {r} + {r'})
  {
    hide Ring;
    var rings' := rings - {r} + {r'};
    forall s | s in rings' ensures Ring(m', s) {
      if s != r' {
        assert Apart(s, r);
        RingFrame(m, m', s);
      }
    }
    forall s, t | s in rings' && t in rings' && s != t ensures Apart(s, t) {
      if s != r' { assert Apart(s, r); }
      if t != r' { assert Apart(r, t) && Apart(t, r); }
      if s != r' && t != r' { assert Apart(s, t); }
    }
  }

  // ... and a node x alone joins r
  lemma Grown(m: Links, m': Links, rings: set<seq<Addr>>, r: seq<Addr>, x: Addr, r': seq<Addr>)
    requires Rung(m, rings) && r in rings && [x] in rings && r != [x] && Ring(m', r')
    requires forall a :: a in r' <==> a in r || a == x
    requires forall a :: a in m && a !in r && a != x ==> a in m' && m'[a] == m[a]
    ensures Rung(m', rings - {r, [x]} + {r'})
  {
    hide Ring;
    var rings' := rings - {r, [x]} + {r'};
    forall s | s in rings' && s != r' ensures Apart(s, r) && x !in s {
      assert Apart(s, r) && Apart([x], s) && x in [x];
    }
    forall s | s in rings' ensures Ring(m', s) {
      if s != r' { RingFrame(m, m', s); }
    }
    forall s, t | s in rings' && t in rings' && s != t ensures Apart(s, t) {
      if s != r' && t != r' { assert Apart(s, t); }
    }
  }

  // ... and node x leaves r, to be alone
  lemma Shrunk(m: Links, m': Links, rings: set<seq<Addr>>, r: seq<Addr>, x: Addr, r': seq<Addr>)
    requires Rung(m, rings) && r in rings && Ring(m', r') && Ring(m', [x]) && x in r && x !in r'
    requires forall a :: a in r' ==> a in r
    requires forall a :: a in m && a !in r ==> a in m' && m'[a] == m[a]
    ensures Rung(m', rings - {r} + {r', [x]})
  {
    hide Ring;
    Replaced(m, m', rings, r, r');
    var rings' := rings - {r} + {r', [x]};
    forall s | s in rings' && s != [x] ensures Apart(s, [x]) && Apart([x], s) {
      if s != r' { assert Apart(s, r) && Apart(r, s); }
    }
    forall s, t | s in rings' && t in rings' && s != t ensures Apart(s, t) {
      if s != [x] && t != [x] {
        assert s in rings - {r} + {r'} && t in rings - {r} + {r'};
      }
    }
  }

  lemma SelfRing(m: Links, x: Addr)
    requires x in m && m[x] == Link(x, x)
    ensures Ring(m, [x])
  {}

  lemma RingFacts(m: Links, r: seq<Addr>)
    requires Ring(m, r)
    ensures Distinct(r) && forall a :: a in r ==> a in m
  {}

  lemma RungAt(m: Links, rings: set<seq<Addr>>, r: seq<Addr>)
    requires Rung(m, rings) && r in rings
    ensures Ring(m, r)
  {}

  lemma RemoveMembers(r: seq<Addr>, i: nat)
    requires Distinct(r) && i < |r|
    ensures forall a :: a in RemoveAt(r, i) <==> a in r && a != r[i]
  {
    var s := RemoveAt(r, i);
    forall a | a in r && a != r[i] ensures a in s {
      var j :| 0 <= j < |r| && r[j] == a;
      assert s[if j < i then j else j - 1] == a;
    }
  }

  lemma InsertMembers(r: seq<Addr>, i: nat, x: Addr)
    requires i <= |r|
    ensures forall a :: a in InsertAt(r, i, x) <==> a in r || a == x
  {
    assert r == r[..i] + r[i..];
  }

  lemma LinkElsewhere(m: Links, p: Addr, x: Addr, n: Addr, a: Addr)
    requires p in m && n in m && x != p && x != n && a in m && a != p && a != x && a != n
    ensures a in LinkBetween(m, p, x, n) && LinkBetween(m, p, x, n)[a] == m[a]
  {}

  lemma BypassElsewhere(m: Links, x: Addr, a: Addr)
    requires x in m && m[x].prev in m && m[x].next in m && a in m && a != m[x].prev && a != m[x].next
    ensures Bypass(m, x)[a] == m[a]
  {}

  class ListPool {
    var nodes: Links
    // what the links mean
    ghost var rings: set<seq<Addr>>

    ghost predicate Valid()
      reads this
    {
      Rung(nodes, rings)
    }

    constructor ()
      ensures Valid() && rings == {}
    {
      nodes, rings := map[], {};
    }

    // list_init, of a node on no list
    method Init(x: Addr)
      requires Valid() && forall r :: r in rings ==> x !in r
      modifies this
      ensures Valid() && rings == old(rings) + {[x]}
    {
      ghost var m := nodes;
      nodes := nodes[x := Link(x, x)];
      rings := rings + {[x]};
      assert Ring(nodes, [x]);
      hide Ring;
      forall r | r in rings ensures Ring(nodes, r) {
        if r != [x] { RingFrame(m, nodes, r); }
      }
    }

    // list_insert_after: x, alone until now, follows node r[i]
    method InsertAfter(node: Addr, x: Addr, ghost r: seq<Addr>, ghost i: nat)
      requires Valid() && r in rings && i < |r| && r[i] == node && [x] in rings && r != [x]
      modifies this
      ensures Valid() && rings == old(rings) - {r, [x]} + {InsertAt(r, i + 1, x)}
    {
      hide Ring, SetNext, SetPrev, LinkBetween, Rung, Distinct, InsertAt;
      InsertReady(r, i, x);
      ghost var m := nodes;
      var next := nodes[node].next;
      LinkRing(m, r, i + 1, x);
      nodes := nodes[x := Link(node, next)];
      nodes := SetPrev(SetNext(nodes, node, x), next, x);
      SameWrites(m, node, x, next);
      InsertMembers(r, i + 1, x);
      forall a | a in m && a !in r && a != x ensures a in nodes && nodes[a] == m[a] { LinkElsewhere(m, node, x, next, a); }
      Grown(m, nodes, rings, r, x, InsertAt(r, i + 1, x));
      rings := rings - {r, [x]} + {InsertAt(r, i + 1, x)};
    }

    lemma InsertReady(r: seq<Addr>, i: nat, x: Addr)
      requires Valid() && r in rings && i < |r| && [x] in rings && r != [x]
      ensures Ring(nodes, r) && x !in r && x in nodes && r[i] in nodes 
      ensures var n := if i + 1 == |r| then r[0] else r[i + 1]; nodes[r[i]].next == n && n in nodes && n in r && r[i] in r
      ensures var h := if i == 0 then |r| - 1 else i - 1; nodes[r[i]].prev == r[h] && r[h] in nodes && r[h] in r
    {
      assert Apart([x], r) && x in [x];
      assert Ring(nodes, r) && Ring(nodes, [x]);
      assert [x][0] == x;
      var h := if i == 0 then |r| - 1 else i - 1;
      assert Succ(r, h) == i;
    }

    // list_insert_before: x, alone until now, precedes node r[i]
    method InsertBefore(node: Addr, x: Addr, ghost r: seq<Addr>, ghost i: nat)
      requires Valid() && r in rings && i < |r| && r[i] == node && [x] in rings && r != [x]
      modifies this
      ensures Valid() && rings == old(rings) - {r, [x]} + {InsertAt(r, if i == 0 then |r| else i, x)}
    {
      hide Ring, SetNext, SetPrev, LinkBetween, Rung, Distinct, InsertAt;
      InsertReady(r, i, x);
      ghost var m := nodes;
      ghost var j := if i == 0 then |r| else i;
      var prev := nodes[node].prev;
      LinkRing(m, r, j, x);
      nodes := nodes[x := Link(prev, node)];
      nodes := SetPrev(SetNext(nodes, prev, x), node, x);
      SameWrites(m, prev, x, node);
      InsertMembers(r, j, x);
      forall a | a in m && a !in r && a != x ensures a in nodes && nodes[a] == m[a] { LinkElsewhere(m, prev, x, node, a); }
      Grown(m, nodes, rings, r, x, InsertAt(r, j, x));
      rings := rings - {r, [x]} + {InsertAt(r, j, x)};
    }

    lemma SameWrites(m: Links, p: Addr, x: Addr, n: Addr)
      requires p in m && n in m && x != p && x != n
      ensures SetPrev(SetNext(m[x := Link(p, n)], p, x), n, x) == LinkBetween(m, p, x, n)
    {}

    // list_remove: node r[i] is alone afterwards
    method Remove(node: Addr, ghost r: seq<Addr>, ghost i: nat)
      requires Valid() && r in rings && i < |r| && r[i] == node
      modifies this
      ensures Valid() && rings == if |r| == 1 then old(rings) else old(rings) - {r} + {RemoveAt(r, i), [node]}
    {
      assert Ring(nodes, r);
      AloneRing(nodes, r, i);
      ghost var m := nodes;
      var prev := nodes[node].prev;
      var next := nodes[node].next;
      nodes := SetPrev(SetNext(nodes, prev, next), next, prev);
      nodes := nodes[node := Link(node, node)];
      Removed(m, nodes, rings, r, i);
      rings := if |r| == 1 then rings else rings - {r} + {RemoveAt(r, i), [node]};
    }

    lemma SelfBypass(m: Links, x: Addr)
      requires x in m && m[x].prev == x && m[x].next == x
      ensures Bypass(m, x)[x := Link(x, x)] == m
    {}

    lemma Removed(m: Links, m': Links, rings: set<seq<Addr>>, r: seq<Addr>, i: nat)
      requires Rung(m, rings) && r in rings && i < |r| && m[r[i]].prev in m && m[r[i]].next in m
      requires m' == Bypass(m, r[i])[r[i] := Link(r[i], r[i])]
      ensures if |r| == 1 then Rung(m', rings) else Rung(m', rings - {r} + {RemoveAt(r, i), [r[i]]})
    {
      hide Ring, Bypass, Distinct, Rung;
      var node := r[i];
      RungAt(m, rings, r);
      RingFacts(m, r);
      assert node in r;
      AloneRing(m, r, i);
      if |r| == 1 {
        assert r == [node];
        SelfBypass(m, node);
      } else {
        BypassRing(m, r, i);
        RemoveMembers(r, i);
        var r' := RemoveAt(r, i);
        SelfRing(m', node);
        RingFrame(Bypass(m, node), m', r');
        forall a | a in m && a !in r ensures a in m' && m'[a] == m[a] { BypassElsewhere(m, node, a); }
        Shrunk(m, m', rings, r, node, r');
      }
    }

    // list_is_empty
    method IsEmpty(node: Addr, ghost r: seq<Addr>) returns (empty: bool)
      requires Valid() && r in rings && node in r
      ensures empty <==> r == [node]
    {
      assert Ring(nodes, r);
      ghost var i :| 0 <= i < |r| && r[i] == node;
      AloneRing(nodes, r, i);
      empty := nodes[node].prev == node;
    }
  }
}
