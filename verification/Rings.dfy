/** Circular doubly linked rings: the shape shared by `list_t` (kernel/include/list.h)
    and by the fd/bk links of dlmalloc's bins (kernel/libc/malloc/malloc.c).
    A ring is described by the sequence of its nodes in `next` order. */
module Rings {
  type Addr = int

  datatype Link = Link(prev: Addr, next: Addr)

  type Links = map<Addr, Link>

  ghost predicate Distinct(r: seq<Addr>) {
    forall i, j :: 0 <= i < j < |r| ==> r[i] != r[j]
  }

  // index of the successor of position i
  function Succ(r: seq<Addr>, i: nat): nat
    requires i < |r|
  {
    if i + 1 == |r| then 0 else i + 1
  }

  ghost predicate Ring(m: Links, r: seq<Addr>) {
    && |r| > 0
    && Distinct(r)
    && (forall i :: 0 <= i < |r| ==> r[i] in m)
    && (forall i :: 0 <= i < |r| ==> m[r[i]].next == r[Succ(r, i)])
    && (forall i :: 0 <= i < |r| ==> m[r[Succ(r, i)]].prev == r[i])
  }

  ghost predicate SameOn(m: Links, m': Links, r: seq<Addr>) {
    forall a :: a in r && a in m ==> a in m' && m'[a] == m[a]
  }

  lemma RingFrame(m: Links, m': Links, r: seq<Addr>)
    requires Ring(m, r) && SameOn(m, m', r)
    ensures Ring(m', r)
  {
    forall i | 0 <= i < |r|
      ensures r[i] in m' && m'[r[i]].next == r[Succ(r, i)] && m'[r[Succ(r, i)]].prev == r[i]
    {
      assert r[i] in m && r[i] in r;
      var j := Succ(r, i);
      assert r[j] in r;
    }
  }

  // ---- the pointer updates of list.h, as they are written there ----

  function SetNext(m: Links, a: Addr, v: Addr): (m': Links)
    requires a in m
    ensures m'.Keys == m.Keys
  {
    m[a := m[a].(next := v)]
  }

  function SetPrev(m: Links, a: Addr, v: Addr): (m': Links)
    requires a in m
    ensures m'.Keys == m.Keys
  {
    m[a := m[a].(prev := v)]
  }

  // node x between the neighbours p and n
  function LinkBetween(m: Links, p: Addr, x: Addr, n: Addr): Links
    requires p in m && n in m && x != p && x != n
  {
    SetNext(SetPrev(m[x := Link(p, n)], n, x), p, x)
  }

  // x's neighbours closed over x; x itself keeps its links
  function Bypass(m: Links, x: Addr): (m': Links)
    requires x in m && m[x].prev in m && m[x].next in m
    ensures m'.Keys == m.Keys
  {
    var p := m[x].prev;
    var n := m[x].next;
    SetPrev(SetNext(m, p, n), n, p)
  }

  // the four writes may come in any order
  lemma LinkOrder(m: Links, p: Addr, x: Addr, n: Addr)
    requires p in m && n in m && x != p && x != n
    ensures SetPrev(SetNext(m, p, x), n, x)[x := Link(p, n)] == LinkBetween(m, p, x, n)
    ensures SetNext(SetPrev(m, n, x), p, x)[x := Link(p, n)] == LinkBetween(m, p, x, n)
  {}

  lemma BypassOrder(m: Links, x: Addr)
    requires x in m && m[x].prev in m && m[x].next in m
    ensures SetNext(SetPrev(m, m[x].next, m[x].prev), m[x].prev, m[x].next) == Bypass(m, x)
  {}

  function InsertAt(r: seq<Addr>, i: nat, x: Addr): seq<Addr>
    requires i <= |r|
  {
    r[..i] + [x] + r[i..]
  }

  function RemoveAt(r: seq<Addr>, i: nat): seq<Addr>
    requires i < |r|
  {
    r[..i] + r[i+1..]
  }

  function Shift(n: nat, i: nat, j: nat): nat
    requires i < n && j < n
  {
    if j + i < n then j + i else j + i - n
  }

  // A ring may be read from any of its nodes.
  lemma RotateRing(m: Links, r: seq<Addr>, i: nat)
    requires Ring(m, r) && i < |r|
    ensures Ring(m, r[i..] + r[..i])
  {
    var s := r[i..] + r[..i];
    assert forall j :: 0 <= j < |r| ==> s[j] == r[Shift(|r|, i, j)];
    ShiftedRing(m, r, i, s);
  }

  lemma ShiftedRing(m: Links, r: seq<Addr>, i: nat, s: seq<Addr>)
    requires Ring(m, r) && i < |r| == |s|
    requires forall j :: 0 <= j < |r| ==> s[j] == r[Shift(|r|, i, j)]
    ensures Ring(m, s)
  {
    forall j | 0 <= j < |s|
      ensures s[j] in m && m[s[j]].next == s[Succ(s, j)] && m[s[Succ(s, j)]].prev == s[j]
    {
      assert Shift(|r|, i, Succ(s, j)) == Succ(r, Shift(|r|, i, j));
    }
  }

  lemma LinkLast(m: Links, r: seq<Addr>, x: Addr)
    requires Ring(m, r) && x !in r
    ensures Ring(LinkBetween(m, r[|r|-1], x, r[0]), r + [x])
  {
    var n := |r|;
    var s := r + [x];
    var m' := LinkBetween(m, r[n-1], x, r[0]);
    assert Succ(r, n - 1) == 0;
    forall j | 0 <= j < |s|
      ensures s[j] in m' && m'[s[j]].next == s[Succ(s, j)] && m'[s[Succ(s, j)]].prev == s[j]
    {
      if j < n - 1 {
        assert s[j] == r[j] && s[j+1] == r[j+1] && Succ(r, j) == j + 1;
        assert r[j+1] != r[0];
      }
    }
  }

  lemma BypassLast(m: Links, r: seq<Addr>, x: Addr)
    requires Ring(m, r + [x]) && |r| > 0
    ensures x in m && r[|r|-1] in m && r[0] in m
    ensures m[x] == Link(r[|r|-1], r[0])
    ensures Ring(Bypass(m, x), r)
    ensures Bypass(m, x)[x] == m[x]
  {
    var n := |r|;
    var s := r + [x];
    assert s[n] == x && Succ(s, n) == 0 && Succ(s, n - 1) == n;
    assert s[n-1] == r[n-1] && s[0] == r[0];
    var m' := Bypass(m, x);
    assert forall j :: 0 <= j < n ==> s[j] == r[j];
    forall j | 0 <= j < n
      ensures r[j] in m && r[Succ(r, j)] in m
      ensures m'[r[j]].next == r[Succ(r, j)] && m'[r[Succ(r, j)]].prev == r[j]
    {
      if j < n - 1 {
        assert Succ(s, j) == j + 1;
      }
    }
  }

  lemma RotatedInsert(r: seq<Addr>, i: nat, x: Addr)
    requires 1 <= i < |r|
    ensures var t := r[i..] + r[..i] + [x];
            |r| - i <= |t| && t[|r|-i..] + t[..|r|-i] == InsertAt(r, i, x)
  {
    var t := r[i..] + r[..i] + [x];
    assert t[|r|-i..] == r[..i] + [x];
    assert t[..|r|-i] == r[i..];
  }

  lemma RotatedRemove(r: seq<Addr>, i: nat)
    requires i + 1 < |r|
    ensures r[i+1..] + r[..i+1] == r[i+1..] + r[..i] + [r[i]]
    ensures var t := r[i+1..] + r[..i];
            t[|r|-i-1..] + t[..|r|-i-1] == RemoveAt(r, i)
  {
    assert r[..i+1] == r[..i] + [r[i]];
    var t := r[i+1..] + r[..i];
    assert t[|r|-i-1..] == r[..i];
    assert t[..|r|-i-1] == r[i+1..];
  }

  // Linking x between two neighbouring nodes r[i-1], r[i] inserts it at position i.
  lemma LinkRing(m: Links, r: seq<Addr>, i: nat, x: Addr)
    requires Ring(m, r) && x !in r && 1 <= i <= |r|
    ensures var n := if i == |r| then r[0] else r[i];
            Ring(LinkBetween(m, r[i-1], x, n), InsertAt(r, i, x))
  {
    if i == |r| {
      LinkLast(m, r, x);
      assert InsertAt(r, i, x) == r + [x];
    } else {
      RotateRing(m, r, i);
      var t := r[i..] + r[..i];
      assert t[|r|-1] == r[i-1] && t[0] == r[i];
      var m' := LinkBetween(m, r[i-1], x, r[i]);
      hide Ring;
      hide LinkBetween;
      LinkLast(m, t, x);
      RotateRing(m', t + [x], |r| - i);
      RotatedInsert(r, i, x);
    }
  }

  lemma UnrotateRing(m: Links, r: seq<Addr>, i: nat)
    requires i < |r| && |r| > 1 && Ring(m, r[i+1..] + r[..i])
    ensures Ring(m, RemoveAt(r, i))
  {
    var t := r[i+1..] + r[..i];
    if i == 0 || i + 1 == |r| {
      assert t == RemoveAt(r, i);
    } else {
      RotatedRemove(r, i);
      RotateRing(m, t, |r| - i - 1);
    }
  }

  // Bypassing r[i] removes it.
  lemma BypassRing(m: Links, r: seq<Addr>, i: nat)
    requires Ring(m, r) && i < |r| && |r| > 1
    ensures m[r[i]].prev in r && m[r[i]].next in r
    ensures Ring(Bypass(m, r[i]), RemoveAt(r, i))
    ensures Bypass(m, r[i])[r[i]] == m[r[i]]
  {
    AloneRing(m, r, i);
    var t := r[i+1..] + r[..i];
    hide Ring;
    hide Bypass;
    assert Ring(m, t + [r[i]]) by {
      if i + 1 == |r| {
        assert r == t + [r[i]];
      } else {
        RotateRing(m, r, i + 1);
        RotatedRemove(r, i);
      }
    }
    BypassLast(m, t, r[i]);
    UnrotateRing(Bypass(m, r[i]), r, i);
  }

  // list_is_empty, and dlmalloc's "bk != self": a node is its own neighbour iff it is alone.
  lemma AloneRing(m: Links, r: seq<Addr>, i: nat)
    requires Ring(m, r) && i < |r|
    ensures m[r[i]].prev == r[i] <==> |r| == 1
    ensures m[r[i]].next == r[i] <==> |r| == 1
    ensures m[r[i]].prev in r && m[r[i]].next in r
    ensures m[r[i]].prev == m[r[i]].next <==> |r| <= 2
  {
    var h := if i == 0 then |r| - 1 else i - 1;
    assert Succ(r, h) == i && m[r[i]].prev == r[h];
    assert m[r[i]].next == r[Succ(r, i)];
  }
}
