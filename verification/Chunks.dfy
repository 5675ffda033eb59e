/** Boundary tags (kernel/libc/malloc/malloc.c:2116-2151, 2235-2285). The heap memory is a
    map from chunk address to head word and a map from address to prev_foot word; `Chunks`
    is the partition of the segments that these words are meant to describe. */
module Chunks {
  import opened Rings
  import opened BinIndex
  import opened Tries

  // Used: handed out by malloc. Seg: holds a segment record. Free: binned. End: the marker
  // behind the last chunk of a segment (the fake trailing chunk of top, or a fencepost).
  datatype Kind = Used | Seg | Free | Dv | Top | End

  datatype Chunk = Chunk(size: nat, kind: Kind)

  type Partition = map<Addr, Chunk>

  // a head word: size | cinuse | pinuse
  datatype Head = Head(size: nat, cinuse: bool, pinuse: bool)

  type Heads = map<Addr, Head>
  type Feet = map<Addr, nat>

  const MIN_CHUNK_SIZE: nat := 16
  const TOP_FOOT_SIZE: nat := 40

  predicate InUse(k: Kind) { k == Used || k == Seg }

  // in a bin or the designated victim: has a foot and borders chunks in use
  predicate Loose(k: Kind) { k == Free || k == Dv }

  function Next(ch: Partition, p: Addr): Addr
    requires p in ch
  {
    p + ch[p].size
  }

  // ---------------- the partition ----------------

  // which kinds may border: an End follows exactly top and segment records, and what
  // follows a loose chunk is in use
  predicate MayPrecede(k: Kind, next: Kind) {
    && (next == End <==> k == Top || k == Seg)
    && (Loose(k) ==> InUse(next))
  }

  ghost predicate Placed(ch: Partition, p: Addr)
    requires p in ch
  {
    && p > 0 && p % 8 == 0 && p + ch[p].size < WORD
    && (ch[p].kind == End ==> ch[p].size == 0)
    && (ch[p].kind != End ==> ch[p].size % 8 == 0 && ch[p].size >= 8 && Next(ch, p) in ch)
    && (ch[p].kind != End && ch[p].kind != Top ==> ch[p].size >= MIN_CHUNK_SIZE)
    && (ch[p].kind != End ==> MayPrecede(ch[p].kind, ch[Next(ch, p)].kind))
  }

  ghost predicate Beyond(ch: Partition, p: Addr, q: Addr)
    requires p in ch && q in ch
  {
    p < q ==> p + ch[p].size <= q
  }

  ghost predicate Geo(ch: Partition) {
    && (forall p {:trigger Placed(ch, p)} :: p in ch ==> Placed(ch, p))
    && (forall p, q {:trigger Beyond(ch, p, q)} :: p in ch && q in ch ==> Beyond(ch, p, q))
  }

  // ---------------- the words ----------------

  ghost predicate Tagged(ch: Partition, head: Heads, foot: Feet, p: Addr)
    requires p in ch
  {
    && p in head
    && (ch[p].kind != End ==>
          && head[p].size == ch[p].size
          && (head[p].cinuse <==> InUse(ch[p].kind))
          && Next(ch, p) in head
          && (head[Next(ch, p)].pinuse <==> InUse(ch[p].kind))
          && (Loose(ch[p].kind) ==> Next(ch, p) in foot && foot[Next(ch, p)] == ch[p].size)
          && (!head[p].pinuse ==>
                && p in foot && foot[p] > 0 && p - foot[p] in ch
                && ch[p - foot[p]].size == foot[p] && Loose(ch[p - foot[p]].kind)))
  }

  ghost predicate Tags(ch: Partition, head: Heads, foot: Feet) {
    forall p {:trigger Tagged(ch, head, foot, p)} :: p in ch ==> Tagged(ch, head, foot, p)
  }

  // ---------------- fusing a run of chunks, and splitting one ----------------

  function Fuse(ch: Partition, q: Addr, s: nat, k: Kind): Partition {
    (map p | p in ch && (p <= q || p >= q + s) :: ch[p])[q := Chunk(s, k)]
  }

  function Split(ch: Partition, q: Addr, n: nat, k1: Kind, k2: Kind): Partition
    requires q in ch && n <= ch[q].size
  {
    ch[q := Chunk(n, k1)][q + n := Chunk(ch[q].size - n, k2)]
  }

  // no loose chunk ends where q starts
  ghost predicate NoLooseBefore(ch: Partition, q: Addr) {
    forall p :: p in ch && p < q && Next(ch, p) == q ==> !Loose(ch[p].kind)
  }

  // the pinuse bit of q
  lemma PinuseMeaning(ch: Partition, head: Heads, foot: Feet, q: Addr)
    requires Geo(ch) && Tags(ch, head, foot) && q in ch && q in head
    ensures head[q].pinuse ==> NoLooseBefore(ch, q)
  {
    forall p | p in ch && p < q && Next(ch, p) == q && Loose(ch[p].kind) ensures !head[q].pinuse {
      assert Tagged(ch, head, foot, p);
    }
  }

  lemma FuseGeo(ch: Partition, q: Addr, s: nat, k: Kind)
    requires Geo(ch) && q in ch && q + s in ch && k != End && ch[q].kind != End
    requires s % 8 == 0 && s >= 8 && (k != Top ==> s >= MIN_CHUNK_SIZE)
    requires MayPrecede(k, ch[q + s].kind)
    requires InUse(k) || NoLooseBefore(ch, q)
    ensures Geo(Fuse(ch, q, s, k))
  {
    var ch' := Fuse(ch, q, s, k);
    forall p | p in ch' ensures Placed(ch', p) {
      if p == q {
        assert Placed(ch, q) && Placed(ch, q + s);
      } else {
        assert Placed(ch, p) && Beyond(ch, p, q);
        var n := Next(ch, p);
        if ch[p].kind != End {
          assert n in ch' by { if p < q { assert n <= q; } }
          assert Placed(ch, n);
        }
      }
    }
    forall p, r | p in ch' && r in ch' ensures Beyond(ch', p, r) {
      if p != q {
        assert Beyond(ch, p, r);
      }
    }
  }

  // the words of chunk q and of its successor e are rewritten to (s, k); nothing else is
  ghost predicate Retagged(ch': Partition, head: Heads, head': Heads, foot: Feet, foot': Feet, q: Addr, s: nat, k: Kind) {
    var e := q + s;
    && q in head && q in head' && head'[q] == Head(s, InUse(k), head[q].pinuse)
    && e in head && e in head' && head'[e] == head[e].(pinuse := InUse(k))
    && (Loose(k) ==> e in foot' && foot'[e] == s)
    && (forall a :: a in ch' && a != q && a != e && a in head ==> a in head' && head'[a] == head[a])
    && (forall a :: a in ch' && a != e && a in foot ==> a in foot' && foot'[a] == foot[a])
  }

  lemma FuseTags(ch: Partition, head: Heads, head': Heads, foot: Feet, foot': Feet, q: Addr, s: nat, k: Kind)
    requires Geo(ch) && Tags(ch, head, foot) && q in ch && q + s in ch && k != End && ch[q].kind != End && s >= 8
    requires MayPrecede(k, ch[q + s].kind)
    requires Retagged(Fuse(ch, q, s, k), head, head', foot, foot', q, s, k)
    ensures Tags(Fuse(ch, q, s, k), head', foot')
  {
    var ch' := Fuse(ch, q, s, k);
    var e := q + s;
    forall p | p in ch' ensures Tagged(ch', head', foot', p) {
      FuseTagOne(ch, head, head', foot, foot', q, s, k, p);
    }
  }

  lemma FuseTagOne(ch: Partition, head: Heads, head': Heads, foot: Feet, foot': Feet, q: Addr, s: nat, k: Kind, p: Addr)
    requires Geo(ch) && Tags(ch, head, foot) && q in ch && q + s in ch && k != End && ch[q].kind != End && s >= 8
    requires MayPrecede(k, ch[q + s].kind)
    requires Retagged(Fuse(ch, q, s, k), head, head', foot, foot', q, s, k)
    requires p in Fuse(ch, q, s, k)
    ensures Tagged(Fuse(ch, q, s, k), head', foot', p)
  {
    var ch' := Fuse(ch, q, s, k);
    var e := q + s;
    assert Tagged(ch, head, foot, p) && Placed(ch, p) && Tagged(ch, head, foot, q);
    if p != q && ch[p].kind != End {
      var n := Next(ch, p);
      assert Beyond(ch, p, q) && Beyond(ch, p, e);
      assert n in ch' && n != e;
    }
    if ch'[p].kind != End && !head'[p].pinuse {
      if p != e {
        var w := p - foot[p];
        assert Beyond(ch, w, e) && Beyond(ch, q, e) && Beyond(ch, w, q);
        assert w in ch';
      }
    }
  }

  // ---------------- splitting ----------------

  lemma SplitGeo(ch: Partition, q: Addr, n: nat, k1: Kind, k2: Kind)
    requires Geo(ch) && q in ch && ch[q].kind != End && n % 8 == 0
    requires MIN_CHUNK_SIZE <= n < ch[q].size && (k2 != Top ==> ch[q].size - n >= MIN_CHUNK_SIZE)
    requires k1 == Used && k2 != End && Next(ch, q) in ch && MayPrecede(k2, ch[Next(ch, q)].kind)
    ensures Geo(Split(ch, q, n, k1, k2))
  {
    var ch' := Split(ch, q, n, k1, k2);
    var e := Next(ch, q);
    assert Placed(ch, q) && Placed(ch, e);
    NothingInside(ch, q, n);
    forall p | p in ch' ensures Placed(ch', p) {
      if p != q && p != q + n {
        assert Placed(ch, p);
      }
    }
    forall p, r | p in ch' && r in ch' ensures Beyond(ch', p, r) {
      SplitApart(ch, q, n, k1, k2, p, r);
    }
  }

  lemma SplitApart(ch: Partition, q: Addr, n: nat, k1: Kind, k2: Kind, p: Addr, r: Addr)
    requires Geo(ch) && q in ch && n < ch[q].size && q + n !in ch
    requires p in Split(ch, q, n, k1, k2) && r in Split(ch, q, n, k1, k2)
    ensures Beyond(Split(ch, q, n, k1, k2), p, r)
  {
    var p', r' := if p == q + n then q else p, if r == q + n then q else r;
    assert Beyond(ch, p', r') && Beyond(ch, r', p') && Beyond(ch, q, r') && Beyond(ch, p', q);
  }

  // the words after splitting q into n bytes in use and a remainder of kind k2
  ghost predicate SplitWords(ch: Partition, head: Heads, head': Heads, foot: Feet, foot': Feet, q: Addr, n: nat, k2: Kind)
    requires q in ch && n <= ch[q].size
  {
    var r := q + n;
    var e := Next(ch, q);
    && q in head && q in head' && head'[q] == Head(n, true, head[q].pinuse)
    && r in head' && head'[r] == Head(ch[q].size - n, InUse(k2), true)
    && e in head && e in head' && head'[e] == head[e].(pinuse := InUse(k2))
    && (Loose(k2) ==> e in foot' && foot'[e] == ch[q].size - n)
    && (forall a :: a in ch && a != q && a != e && a in head ==> a in head' && head'[a] == head[a])
    && (forall a :: a in ch && a != e && a in foot ==> a in foot' && foot'[a] == foot[a])
  }

  lemma SplitTags(ch: Partition, head: Heads, head': Heads, foot: Feet, foot': Feet, q: Addr, n: nat, k2: Kind)
    requires Geo(ch) && Tags(ch, head, foot) && q in ch && ch[q].kind != End && k2 != End
    requires MIN_CHUNK_SIZE <= n < ch[q].size && Next(ch, q) in ch && MayPrecede(k2, ch[Next(ch, q)].kind)
    requires SplitWords(ch, head, head', foot, foot', q, n, k2)
    ensures Tags(Split(ch, q, n, Used, k2), head', foot')
  {
    var ch' := Split(ch, q, n, Used, k2);
    NothingInside(ch, q, n);
    forall p | p in ch' ensures Tagged(ch', head', foot', p) {
      SplitTagOne(ch, head, head', foot, foot', q, n, k2, p);
    }
  }

  lemma SplitTagOne(ch: Partition, head: Heads, head': Heads, foot: Feet, foot': Feet, q: Addr, n: nat, k2: Kind, p: Addr)
    requires Geo(ch) && Tags(ch, head, foot) && q in ch && ch[q].kind != End && k2 != End && q + n !in ch
    requires MIN_CHUNK_SIZE <= n < ch[q].size && Next(ch, q) in ch && MayPrecede(k2, ch[Next(ch, q)].kind)
    requires SplitWords(ch, head, head', foot, foot', q, n, k2)
    requires p in Split(ch, q, n, Used, k2)
    ensures Tagged(Split(ch, q, n, Used, k2), head', foot', p)
  {
    var ch' := Split(ch, q, n, Used, k2);
    var e := Next(ch, q);
    assert Tagged(ch, head, foot, q) && Placed(ch, q);
    if p != q + n {
      assert Tagged(ch, head, foot, p) && Placed(ch, p);
      if p != q && ch[p].kind != End {
        assert Beyond(ch, p, q) && Beyond(ch, p, e) && Beyond(ch, q, p);
        assert Next(ch, p) != e;
      }
      if p != q && p != e && ch[p].kind != End && !head[p].pinuse {
        var w := p - foot[p];
        assert Tagged(ch, head, foot, w);
        assert w != q;
      }
    }
  }

  // ---------------- the chunks by kind ----------------

  ghost function FreeOf(ch: Partition): Sizes {
    map p | p in ch && ch[p].kind == Free :: ch[p].size
  }

  // the blocks handed out
  ghost function LiveOf(ch: Partition): Sizes {
    map p | p in ch && ch[p].kind == Used :: ch[p].size
  }

  // the bytes the chunks hold, and where the end markers are
  datatype Extent = Extent(bytes: iset<int>, ends: set<Addr>)

  ghost predicate Covered(ch: Partition, a: int) {
    exists p :: p in ch && ch[p].kind != End && p <= a < p + ch[p].size
  }

  ghost function ExtentOf(ch: Partition): Extent {
    Extent(iset a | Covered(ch, a), set p | p in ch && ch[p].kind == End)
  }

  // rs are the chunks that make up [q, q + s)
  ghost predicate Run(ch: Partition, q: Addr, s: nat, rs: set<Addr>) {
    && (forall p :: p in ch && q <= p < q + s <==> p in rs)
    && (forall p :: p in rs ==> ch[p].kind != End && p + ch[p].size <= q + s)
    && (forall a :: q <= a < q + s ==> Covered(ch, a))
  }

  lemma FuseExtent(ch: Partition, q: Addr, s: nat, k: Kind, rs: set<Addr>)
    requires Run(ch, q, s, rs) && q in rs && k != End
    ensures ExtentOf(Fuse(ch, q, s, k)) == ExtentOf(ch)
  {
    var ch' := Fuse(ch, q, s, k);
    forall a ensures Covered(ch', a) <==> Covered(ch, a) {
      if Covered(ch, a) {
        var p :| p in ch && ch[p].kind != End && p <= a < p + ch[p].size;
        assert if p in rs then ch'[q].kind != End && q <= a < q + ch'[q].size else p in ch' && ch'[p] == ch[p];
      }
      if Covered(ch', a) {
        var p :| p in ch' && ch'[p].kind != End && p <= a < p + ch'[p].size;
        assert p != q ==> p in ch && ch[p] == ch'[p];
      }
    }
    assert ExtentOf(ch').ends == ExtentOf(ch).ends;
  }

  lemma SplitExtent(ch: Partition, q: Addr, n: nat, k1: Kind, k2: Kind)
    requires q in ch && ch[q].kind != End && k1 != End && k2 != End && n < ch[q].size && q + n !in ch
    ensures ExtentOf(Split(ch, q, n, k1, k2)) == ExtentOf(ch)
  {
    var ch' := Split(ch, q, n, k1, k2);
    forall a ensures Covered(ch', a) <==> Covered(ch, a) {
      if Covered(ch, a) {
        var p :| p in ch && ch[p].kind != End && p <= a < p + ch[p].size;
        var p' := if p == q && a >= q + n then q + n else p;
        assert p' in ch' && ch'[p'].kind != End && p' <= a < p' + ch'[p'].size;
      }
      if Covered(ch', a) {
        var p :| p in ch' && ch'[p].kind != End && p <= a < p + ch'[p].size;
        var p' := if p == q + n then q else p;
        assert p' in ch && ch[p'].kind != End && p' <= a < p' + ch[p'].size;
      }
    }
    assert ExtentOf(ch').ends == ExtentOf(ch).ends;
  }

  lemma RunOne(ch: Partition, q: Addr)
    requires Geo(ch) && q in ch && ch[q].kind != End
    ensures Run(ch, q, ch[q].size, {q})
  {
    assert Placed(ch, q);
    forall p | p in ch && q <= p < q + ch[q].size ensures p == q {
      assert Beyond(ch, q, p);
    }
    forall a | q <= a < q + ch[q].size ensures Covered(ch, a) {}
  }

  lemma RunMore(ch: Partition, q: Addr, s: nat, rs: set<Addr>)
    requires Geo(ch) && q in ch && q + s in ch && ch[q + s].kind != End && Run(ch, q, s, rs)
    ensures Run(ch, q, s + ch[q + s].size, rs + {q + s})
  {
    RunOne(ch, q + s);
  }

  lemma FuseMaps(ch: Partition, q: Addr, s: nat, k: Kind, rs: set<Addr>)
    requires Run(ch, q, s, rs) && q in rs && k != End
    ensures ExtentOf(Fuse(ch, q, s, k)) == ExtentOf(ch)
    ensures FreeOf(Fuse(ch, q, s, k)) == if k == Free then (FreeOf(ch) - rs)[q := s] else FreeOf(ch) - rs
    ensures LiveOf(Fuse(ch, q, s, k)) == if k == Used then (LiveOf(ch) - rs)[q := s] else LiveOf(ch) - rs
  {
    FuseExtent(ch, q, s, k, rs);
  }

  lemma SplitMaps(ch: Partition, q: Addr, n: nat, k2: Kind)
    requires q in ch && ch[q].kind != End && k2 != End && 0 < n < ch[q].size && q + n !in ch
    ensures ExtentOf(Split(ch, q, n, Used, k2)) == ExtentOf(ch)
    ensures var r := q + n; var m := ch[q].size - n; var ch' := Split(ch, q, n, Used, k2);
            && FreeOf(ch') == (if k2 == Free then (FreeOf(ch) - {q})[r := m] else FreeOf(ch) - {q})
            && LiveOf(ch') == (if k2 == Used then LiveOf(ch)[q := n][r := m] else LiveOf(ch)[q := n])
  {
    SplitExtent(ch, q, n, Used, k2);
  }

  // ---------------- the heap ----------------

  ghost predicate TopOk(ch: Partition, top: Addr, topsize: nat) {
    && (topsize == 0 ==> top == 0 && ch == map[])
    && (topsize > 0 ==> top in ch && ch[top] == Chunk(topsize, Top))
    && (forall p :: p in ch && ch[p].kind == Top ==> p == top)
  }

  ghost predicate DvOk(ch: Partition, dv: Addr, dvsize: nat) {
    && (dvsize == 0 ==> dv == 0)
    && (dvsize > 0 ==> dv in ch && ch[dv] == Chunk(dvsize, Dv))
    && (forall p :: p in ch && ch[p].kind == Dv ==> p == dv && dvsize > 0)
  }

  ghost predicate HeapOk(ch: Partition, head: Heads, foot: Feet, free: Sizes,
                         dv: Addr, dvsize: nat, top: Addr, topsize: nat)
  {
    Geo(ch) && Tags(ch, head, foot) && free == FreeOf(ch) && DvOk(ch, dv, dvsize) && TopOk(ch, top, topsize)
  }

  ghost predicate HeadSizes(free: Sizes, head: Heads) {
    forall a :: a in free ==> a in head && head[a].size == free[a]
  }

  lemma FreeSizes(ch: Partition, head: Heads, foot: Feet)
    requires Tags(ch, head, foot)
    ensures HeadSizes(FreeOf(ch), head)
  {
    forall a | a in FreeOf(ch) ensures a in head && head[a].size == ch[a].size {
      assert Tagged(ch, head, foot, a);
    }
  }

  // ---------------- word updates of the allocator, as they are written ----------------

  // set_inuse_and_pinuse
  function SetInuseAndPinuse(head: Heads, p: Addr, s: nat): Heads
    requires p + s in head
  {
    var h := head[p := Head(s, true, true)];
    h[p + s := h[p + s].(pinuse := true)]
  }

  // `head |= PINUSE_BIT` at an address that need not hold a tag yet
  function SetPinuse(head: Heads, a: Addr): Heads {
    head[a := (if a in head then head[a] else Head(0, false, false)).(pinuse := true)]
  }

  // set_inuse: the pinuse bit of p stays
  function SetInuse(head: Heads, p: Addr, s: nat): Heads
    requires p in head
  {
    SetPinuse(head[p := Head(s, true, head[p].pinuse)], p + s)
  }

  // set_inuse on both halves of a block that was in use
  lemma SetInuseTwice(head: Heads, p: Addr, n: nat, m: nat)
    requires p in head && p + n + m in head && head[p + n + m].pinuse && n > 0 && m > 0
    ensures p + n in SetInuse(head, p, n)
    ensures SetInuse(SetInuse(head, p, n), p + n, m) == head[p := Head(n, true, head[p].pinuse)][p + n := Head(m, true, true)]
  {}

  // set_inuse on p, and a new loose tag behind it
  lemma SetInuseThenTag(head: Heads, p: Addr, n: nat, h: Head)
    requires p in head && n > 0
    ensures SetInuse(head, p, n)[p + n := h] == head[p := Head(n, true, head[p].pinuse)][p + n := h]
  {}

  // ... and the pinuse bit of what follows that tag cleared again
  lemma ExtendDvWords(head: Heads, p: Addr, n: nat, m: nat)
    requires p in head && p + n + m in head && !head[p + n + m].pinuse && n > 0 && m > 0
    ensures var h := SetInuse(head, p, n)[p + n := Head(m, false, true)];
            && p + n + m in h
            && h[p + n + m := h[p + n + m].(pinuse := false)] == head[p := Head(n, true, head[p].pinuse)][p + n := Head(m, false, true)]
  {}

  lemma FuseRun(ch: Partition, q: Addr, s: nat, k: Kind, rs: set<Addr>)
    requires Run(ch, q, s, rs) && q in rs
    ensures Fuse(ch, q, s, k) == (ch - rs)[q := Chunk(s, k)]
  {}

  lemma FuseOne(ch: Partition, q: Addr, k: Kind)
    requires Geo(ch) && q in ch && ch[q].kind != End && k != End
    ensures ExtentOf(ch[q := Chunk(ch[q].size, k)]) == ExtentOf(ch)
    ensures Fuse(ch, q, ch[q].size, k) == ch[q := Chunk(ch[q].size, k)]
    ensures FreeOf(ch[q := Chunk(ch[q].size, k)]) == if k == Free then FreeOf(ch)[q := ch[q].size] else FreeOf(ch) - {q}
    ensures LiveOf(ch[q := Chunk(ch[q].size, k)]) == if k == Used then LiveOf(ch)[q := ch[q].size] else LiveOf(ch) - {q}
  {
    RunOne(ch, q);
    FuseRun(ch, q, ch[q].size, k, {q});
    FuseMaps(ch, q, ch[q].size, k, {q});
    assert (ch - {q})[q := Chunk(ch[q].size, k)] == ch[q := Chunk(ch[q].size, k)];
  }

  lemma PriorOf(ch: Partition, head: Heads, foot: Feet, q: Addr)
    requires Geo(ch) && Tags(ch, head, foot) && q in ch && ch[q].kind != End && q in head && !head[q].pinuse
    ensures q in foot && foot[q] > 0 && q - foot[q] in ch
    ensures var w := q - foot[q]; ch[w].size == foot[q] && Loose(ch[w].kind) && InUse(ch[q].kind)
  {
    assert Tagged(ch, head, foot, q);
    assert Placed(ch, q - foot[q]);
  }

  lemma BeyondFacts(ch: Partition, p: Addr, q: Addr)
    requires Geo(ch) && p in ch && q in ch
    ensures p < q ==> p + ch[p].size <= q
  {
    assert Beyond(ch, p, q);
  }

  // a loose chunk is always preceded by a chunk in use
  lemma LooseFacts(ch: Partition, head: Heads, foot: Feet, v: Addr)
    requires Geo(ch) && Tags(ch, head, foot) && v in ch && ch[v].kind != End
    ensures v > 0 && v % 8 == 0 && ch[v].size % 8 == 0 && v + ch[v].size < WORD
    ensures ch[v].kind != Top ==> ch[v].size >= MIN_CHUNK_SIZE
    ensures v in head && head[v].size == ch[v].size && (head[v].cinuse <==> InUse(ch[v].kind))
    ensures Next(ch, v) in ch && Next(ch, v) in head && (head[Next(ch, v)].pinuse <==> InUse(ch[v].kind))
    ensures MayPrecede(ch[v].kind, ch[Next(ch, v)].kind)
    ensures Loose(ch[v].kind) || ch[v].kind == Top ==> head[v].pinuse && NoLooseBefore(ch, v)
  {
    assert Placed(ch, v) && Tagged(ch, head, foot, v);
    if Loose(ch[v].kind) || ch[v].kind == Top {
      if !head[v].pinuse {
        PriorOf(ch, head, foot, v);
        assert false;
      }
      PinuseMeaning(ch, head, foot, v);
    }
  }

  // The pinuse bit is clear exactly when a loose chunk ends where q starts.
  lemma PinuseIff(ch: Partition, head: Heads, foot: Feet, q: Addr)
    requires Geo(ch) && Tags(ch, head, foot) && q in ch && ch[q].kind != End
    ensures q in head && (head[q].pinuse <==> NoLooseBefore(ch, q))
  {
    assert Tagged(ch, head, foot, q);
    if head[q].pinuse {
      PinuseMeaning(ch, head, foot, q);
    } else {
      PriorOf(ch, head, foot, q);
      var w := q - foot[q];
      assert w in ch && w < q && Next(ch, w) == q;
    }
  }

  // A loose chunk lies between chunks in use: it says so, the one behind it knows it is loose,
  // and its foot repeats its size.
  lemma FreeChunk(ch: Partition, head: Heads, foot: Feet, p: Addr)
    requires Geo(ch) && Tags(ch, head, foot) && p in ch && Loose(ch[p].kind)
    ensures p in head && head[p] == Head(ch[p].size, false, true) && NoLooseBefore(ch, p)
    ensures var n := Next(ch, p); n in ch && InUse(ch[n].kind) && n in head && !head[n].pinuse && n in foot && foot[n] == ch[p].size
  {
    LooseFacts(ch, head, foot, p);
    assert Tagged(ch, head, foot, p);
  }

  // v is handed out whole
  lemma TakeWhole(ch: Partition, head: Heads, foot: Feet, v: Addr)
    requires Geo(ch) && Tags(ch, head, foot) && v in ch && Loose(ch[v].kind)
    ensures v + ch[v].size in head
    ensures var s := ch[v].size; var ch' := ch[v := Chunk(s, Used)];
            && Geo(ch') && Tags(ch', SetInuseAndPinuse(head, v, s), foot)
            && FreeOf(ch') == FreeOf(ch) - {v} && ExtentOf(ch') == ExtentOf(ch) && LiveOf(ch') == LiveOf(ch)[v := s]
  {
    hide Geo, Tags;
    LooseFacts(ch, head, foot, v);
    var s := ch[v].size;
    FuseOne(ch, v, Used);
    FuseGeo(ch, v, s, Used);
    assert Retagged(Fuse(ch, v, s, Used), head, SetInuseAndPinuse(head, v, s), foot, foot, v, s, Used);
    FuseTags(ch, head, SetInuseAndPinuse(head, v, s), foot, foot, v, s, Used);
  }

  // v is split: n bytes in use, the rest stays loose as kind k2
  lemma Carve(ch: Partition, head: Heads, foot: Feet, v: Addr, n: nat, k2: Kind)
    requires Geo(ch) && Tags(ch, head, foot) && v in ch && Loose(ch[v].kind) && Loose(k2)
    requires n % 8 == 0 && MIN_CHUNK_SIZE <= n && n + MIN_CHUNK_SIZE <= ch[v].size
    ensures v + n !in ch
    ensures var r := v + n; var m := ch[v].size - n; var ch' := ch[v := Chunk(n, Used)][r := Chunk(m, k2)];
            && Geo(ch') && Tags(ch', head[v := Head(n, true, true)][r := Head(m, false, true)], foot[r + m := m])
            && FreeOf(ch') == (if k2 == Free then (FreeOf(ch) - {v})[r := m] else FreeOf(ch) - {v})
            && ExtentOf(ch') == ExtentOf(ch) && LiveOf(ch') == LiveOf(ch)[v := n]
  {
    hide Geo, Tags;
    LooseFacts(ch, head, foot, v);
    var r := v + n;
    var m := ch[v].size - n;
    NothingInside(ch, v, n);
    SplitGeo(ch, v, n, Used, k2);
    var head', foot' := head[v := Head(n, true, true)][r := Head(m, false, true)], foot[r + m := m];
    assert SplitWords(ch, head, head', foot, foot', v, n, k2);
    SplitTags(ch, head, head', foot, foot', v, n, k2);
    SplitMaps(ch, v, n, k2);
  }

  lemma NothingInside(ch: Partition, v: Addr, n: nat)
    requires Geo(ch) && v in ch && 0 < n < ch[v].size
    ensures v + n !in ch
  {
    if v + n in ch { BeyondFacts(ch, v, v + n); }
  }

  // the top chunk gives up its first n bytes
  lemma CarveTop(ch: Partition, head: Heads, foot: Feet, top: Addr, n: nat)
    requires Geo(ch) && Tags(ch, head, foot) && top in ch && ch[top].kind == Top
    requires n % 8 == 0 && MIN_CHUNK_SIZE <= n < ch[top].size
    ensures top + n !in ch
    ensures var r := top + n; var m := ch[top].size - n; var ch' := ch[top := Chunk(n, Used)][r := Chunk(m, Top)];
            && Geo(ch') && Tags(ch', head[r := Head(m, false, true)][top := Head(n, true, true)], foot)
            && FreeOf(ch') == FreeOf(ch) && ExtentOf(ch') == ExtentOf(ch) && LiveOf(ch') == LiveOf(ch)[top := n]
  {
    hide Geo, Tags;
    LooseFacts(ch, head, foot, top);
    var r := top + n;
    var m := ch[top].size - n;
    NothingInside(ch, top, n);
    SplitGeo(ch, top, n, Used, Top);
    var head' := head[r := Head(m, false, true)][top := Head(n, true, true)];
    assert SplitWords(ch, head, head', foot, foot, top, n, Top);
    SplitTags(ch, head, head', foot, foot, top, n, Top);
    SplitMaps(ch, top, n, Top);
    assert top !in FreeOf(ch);
  }

  // dv and top survive a change of chunks other than themselves
  lemma OthersKept(ch: Partition, ch': Partition, dv: Addr, dvsize: nat, top: Addr, topsize: nat, xs: set<Addr>)
    requires DvOk(ch, dv, dvsize) && TopOk(ch, top, topsize) && dv !in xs && top !in xs && (topsize == 0 ==> ch' == map[])
    requires forall p :: p in ch && p !in xs ==> p in ch' && ch'[p] == ch[p]
    requires forall p :: p in ch' && p !in xs ==> p in ch
    requires forall p :: p in ch' && p in xs ==> ch'[p].kind != Dv && ch'[p].kind != Top
    ensures DvOk(ch', dv, dvsize) && TopOk(ch', top, topsize)
  {}

  // the old designated victim goes to a bin; its words stay as they are
  lemma RetireDv(ch: Partition, head: Heads, foot: Feet, v: Addr)
    requires Geo(ch) && Tags(ch, head, foot) && v in ch && ch[v].kind == Dv
    ensures var s := ch[v].size; var ch' := ch[v := Chunk(s, Free)];
            && Geo(ch') && Tags(ch', head, foot)
            && FreeOf(ch') == FreeOf(ch)[v := s] && ExtentOf(ch') == ExtentOf(ch) && LiveOf(ch') == LiveOf(ch)
  {
    hide Geo, Tags;
    LooseFacts(ch, head, foot, v);
    var s := ch[v].size;
    DvFoot(ch, head, foot, v);
    FuseOne(ch, v, Free);
    FuseGeo(ch, v, s, Free);
    assert Retagged(Fuse(ch, v, s, Free), head, head, foot, foot, v, s, Free);
    FuseTags(ch, head, head, foot, foot, v, s, Free);
    assert v !in LiveOf(ch);
  }

  lemma DvFoot(ch: Partition, head: Heads, foot: Feet, v: Addr)
    requires Tags(ch, head, foot) && v in ch && Loose(ch[v].kind)
    ensures Next(ch, v) in foot && foot[Next(ch, v)] == ch[v].size
  {
    assert Tagged(ch, head, foot, v);
  }

  // ---------------- whole-heap steps of malloc ----------------

  lemma TakeFreeOk(ch: Partition, head: Heads, foot: Feet, free: Sizes, dv: Addr, dvsize: nat, top: Addr, topsize: nat, v: Addr)
    requires HeapOk(ch, head, foot, free, dv, dvsize, top, topsize) && v in free
    ensures v + free[v] in head && v in ch && ch[v] == Chunk(free[v], Free)
    ensures var ch' := ch[v := Chunk(free[v], Used)];
            && HeapOk(ch', SetInuseAndPinuse(head, v, free[v]), foot, free - {v}, dv, dvsize, top, topsize)
            && ExtentOf(ch') == ExtentOf(ch) && LiveOf(ch') == LiveOf(ch)[v := free[v]]
  {
    hide Geo, Tags;
    LooseFacts(ch, head, foot, v);
    TakeWhole(ch, head, foot, v);
    OthersKept(ch, ch[v := Chunk(free[v], Used)], dv, dvsize, top, topsize, {v});
  }

  lemma CarveFreeOk(ch: Partition, head: Heads, foot: Feet, free: Sizes, dv: Addr, dvsize: nat, top: Addr, topsize: nat, v: Addr, n: nat)
    requires HeapOk(ch, head, foot, free, dv, dvsize, top, topsize) && v in free
    requires n % 8 == 0 && MIN_CHUNK_SIZE <= n && n + MIN_CHUNK_SIZE <= free[v]
    ensures v in ch && ch[v] == Chunk(free[v], Free) && v + n !in free && v + n > 0 && free[v] % 8 == 0 && free[v] < WORD
    ensures var r := v + n; var m := free[v] - n; var ch' := ch[v := Chunk(n, Used)][r := Chunk(m, Free)];
            var head' := head[v := Head(n, true, true)][r := Head(m, false, true)];
            && HeapOk(ch', head', foot[r + m := m], (free - {v})[r := m], dv, dvsize, top, topsize)
            && ExtentOf(ch') == ExtentOf(ch) && LiveOf(ch') == LiveOf(ch)[v := n]
            && HeadSizes(free - {v}, head')
  {
    hide Geo, Tags;
    LooseFacts(ch, head, foot, v);
    Carve(ch, head, foot, v, n, Free);
    var r := v + n;
    var m := free[v] - n;
    var ch' := ch[v := Chunk(n, Used)][r := Chunk(m, Free)];
    OthersKept(ch, ch', dv, dvsize, top, topsize, {v, r});
    FreeSizes(ch', head[v := Head(n, true, true)][r := Head(m, false, true)], foot[r + m := m]);
  }

  lemma TakeDvOk(ch: Partition, head: Heads, foot: Feet, free: Sizes, dv: Addr, dvsize: nat, top: Addr, topsize: nat)
    requires HeapOk(ch, head, foot, free, dv, dvsize, top, topsize) && dvsize > 0
    ensures dv > 0 && dvsize % 8 == 0 && dvsize >= MIN_CHUNK_SIZE && dv + dvsize in head && dv !in LiveOf(ch)
    ensures var ch' := ch[dv := Chunk(dvsize, Used)];
            && HeapOk(ch', SetInuseAndPinuse(head, dv, dvsize), foot, free, 0, 0, top, topsize)
            && ExtentOf(ch') == ExtentOf(ch) && LiveOf(ch') == LiveOf(ch)[dv := dvsize]
  {
    hide Geo, Tags;
    LooseFacts(ch, head, foot, dv);
    TakeWhole(ch, head, foot, dv);
    var ch' := ch[dv := Chunk(dvsize, Used)];
    assert FreeOf(ch) - {dv} == FreeOf(ch);
  }

  lemma CarveDvOk(ch: Partition, head: Heads, foot: Feet, free: Sizes, dv: Addr, dvsize: nat, top: Addr, topsize: nat, n: nat)
    requires HeapOk(ch, head, foot, free, dv, dvsize, top, topsize)
    requires n % 8 == 0 && MIN_CHUNK_SIZE <= n && n + MIN_CHUNK_SIZE <= dvsize
    ensures dv > 0 && dv !in LiveOf(ch)
    ensures var r := dv + n; var m := dvsize - n; var ch' := ch[dv := Chunk(n, Used)][r := Chunk(m, Dv)];
            && HeapOk(ch', head[r := Head(m, false, true)][dv := Head(n, true, true)], foot[r + m := m], free, r, m, top, topsize)
            && ExtentOf(ch') == ExtentOf(ch) && LiveOf(ch') == LiveOf(ch)[dv := n]
  {
    hide Geo, Tags;
    LooseFacts(ch, head, foot, dv);
    Carve(ch, head, foot, dv, n, Dv);
    var r := dv + n;
    var m := dvsize - n;
    assert head[r := Head(m, false, true)][dv := Head(n, true, true)] == head[dv := Head(n, true, true)][r := Head(m, false, true)];
    assert FreeOf(ch) - {dv} == FreeOf(ch);
  }

  lemma CarveTopOk(ch: Partition, head: Heads, foot: Feet, free: Sizes, dv: Addr, dvsize: nat, top: Addr, topsize: nat, n: nat)
    requires HeapOk(ch, head, foot, free, dv, dvsize, top, topsize) && n % 8 == 0 && MIN_CHUNK_SIZE <= n < topsize
    ensures top > 0 && top !in LiveOf(ch)
    ensures var r := top + n; var m := topsize - n; var ch' := ch[top := Chunk(n, Used)][r := Chunk(m, Top)];
            && HeapOk(ch', head[r := Head(m, false, true)][top := Head(n, true, true)], foot, free, dv, dvsize, r, m)
            && ExtentOf(ch') == ExtentOf(ch) && LiveOf(ch') == LiveOf(ch)[top := n]
  {
    hide Geo, Tags;
    LooseFacts(ch, head, foot, top);
    CarveTop(ch, head, foot, top, n);
  }

  // replace_dv: the remainder of v becomes the designated victim, the old one is binned
  lemma CarveToDvOk(ch: Partition, head: Heads, foot: Feet, free: Sizes, dv: Addr, dvsize: nat, top: Addr, topsize: nat, v: Addr, n: nat)
    requires HeapOk(ch, head, foot, free, dv, dvsize, top, topsize) && v in free
    requires n % 8 == 0 && MIN_CHUNK_SIZE <= n && n + MIN_CHUNK_SIZE <= free[v]
    ensures v in ch && ch[v] == Chunk(free[v], Free) && v + n > 0 && free[v] < WORD && v !in LiveOf(ch)
    ensures dvsize > 0 ==> dv > 0 && dv !in free && dvsize % 8 == 0 && dvsize >= MIN_CHUNK_SIZE
    ensures var r := v + n; var m := free[v] - n;
            var ch0 := if dvsize > 0 then ch[dv := Chunk(dvsize, Free)] else ch;
            var ch' := ch0[v := Chunk(n, Used)][r := Chunk(m, Dv)];
            var free' := if dvsize > 0 then (free - {v})[dv := dvsize] else free - {v};
            && HeapOk(ch', head[v := Head(n, true, true)][r := Head(m, false, true)], foot[r + m := m], free', r, m, top, topsize)
            && ExtentOf(ch') == ExtentOf(ch) && LiveOf(ch') == LiveOf(ch)[v := n]
  {
    hide Geo, Tags;
    LooseFacts(ch, head, foot, v);
    var r := v + n;
    var m := free[v] - n;
    if dvsize > 0 {
      LooseFacts(ch, head, foot, dv);
      RetireDv(ch, head, foot, dv);
      var ch0 := ch[dv := Chunk(dvsize, Free)];
      Carve(ch0, head, foot, v, n, Dv);
      assert free[dv := dvsize] - {v} == (free - {v})[dv := dvsize];
    } else {
      Carve(ch, head, foot, v, n, Dv);
    }
  }

  // ---------------- giving a block back ----------------

  // The chunks rs, making up [q, q + s), are about to become one chunk: nothing loose
  // ends at q, and the chunk behind them is neither an end marker nor part of rs.
  ghost predicate Pend(ch: Partition, head: Heads, q: Addr, s: nat, rs: set<Addr>) {
    && q in rs && q in ch && ch[q].kind != End && q + s in ch && ch[q + s].kind != End
    && Run(ch, q, s, rs) && s % 8 == 0 && s >= MIN_CHUNK_SIZE
    && q > 0 && q + s < WORD && q in head && head[q].pinuse && NoLooseBefore(ch, q)
  }

  // consolidate backward: with the loose chunk in front of p, if there is one
  lemma BackMerge(ch: Partition, head: Heads, foot: Feet, p: Addr)
    requires Geo(ch) && Tags(ch, head, foot) && p in ch && ch[p].kind == Used
    ensures p in head && p > 0
    ensures head[p].pinuse ==> Pend(ch, head, p, ch[p].size, {p})
    ensures !head[p].pinuse ==> p in foot && (var w := p - foot[p];
              && w in ch && w > 0 && Loose(ch[w].kind) && ch[w].size == foot[p] && w != p
              && Pend(ch, head, w, foot[p] + ch[p].size, {w, p}))
  {
    hide Geo, Tags;
    LooseFacts(ch, head, foot, p);
    PinuseMeaning(ch, head, foot, p);
    RunOne(ch, p);
    if !head[p].pinuse {
      PriorOf(ch, head, foot, p);
      var w := p - foot[p];
      LooseFacts(ch, head, foot, w);
      RunOne(ch, w);
      RunMore(ch, w, foot[p], {w});
      assert {w} + {p} == {w, p};
    }
  }

  // consolidate forward: with the loose chunk behind the run
  lemma ForwardMerge(ch: Partition, head: Heads, foot: Feet, q: Addr, s: nat, rs: set<Addr>)
    requires Geo(ch) && Tags(ch, head, foot) && Pend(ch, head, q, s, rs) && Loose(ch[q + s].kind)
    ensures q + s !in rs && Pend(ch, head, q, s + ch[q + s].size, rs + {q + s})
    ensures InUse(ch[q + s + ch[q + s].size].kind)
    ensures q + s + ch[q + s].size in head && !head[q + s + ch[q + s].size].pinuse
  {
    hide Geo, Tags;
    LooseFacts(ch, head, foot, q + s);
    RunMore(ch, q, s, rs);
    LooseThenUsed(ch, q + s);
  }

  lemma LooseThenUsed(ch: Partition, v: Addr)
    requires Geo(ch) && v in ch && Loose(ch[v].kind)
    ensures Next(ch, v) in ch && InUse(ch[Next(ch, v)].kind) && v + ch[v].size < WORD
  {
    assert Placed(ch, v);
  }

  // set_free_with_pinuse
  function SetFree(head: Heads, q: Addr, s: nat): Heads
    requires q + s in head
  {
    var h := head[q + s := head[q + s].(pinuse := false)];
    h[q := Head(s, false, true)]
  }

  // the run becomes a free chunk or the designated victim
  lemma SettleLoose(ch: Partition, head: Heads, foot: Feet, q: Addr, s: nat, rs: set<Addr>, k: Kind)
    requires Geo(ch) && Tags(ch, head, foot) && Pend(ch, head, q, s, rs) && InUse(ch[q + s].kind) && Loose(k)
    ensures q + s in head
    ensures var ch' := (ch - rs)[q := Chunk(s, k)];
            && Geo(ch') && Tags(ch', SetFree(head, q, s), foot[q + s := s])
            && FreeOf(ch') == (if k == Free then (FreeOf(ch) - rs)[q := s] else FreeOf(ch) - rs)
            && ExtentOf(ch') == ExtentOf(ch) && LiveOf(ch') == LiveOf(ch) - rs
  {
    hide Geo, Tags;
    InHead(ch, head, foot, q + s);
    FuseRun(ch, q, s, k, rs);
    FuseMaps(ch, q, s, k, rs);
    FuseGeo(ch, q, s, k);
    assert Retagged(Fuse(ch, q, s, k), head, SetFree(head, q, s), foot, foot[q + s := s], q, s, k);
    FuseTags(ch, head, SetFree(head, q, s), foot, foot[q + s := s], q, s, k);
  }

  lemma InHead(ch: Partition, head: Heads, foot: Feet, p: Addr)
    requires Tags(ch, head, foot) && p in ch
    ensures p in head
  {
    assert Tagged(ch, head, foot, p);
  }

  // the run and the top chunk behind it become the top chunk
  lemma SettleTop(ch: Partition, head: Heads, foot: Feet, q: Addr, s: nat, rs: set<Addr>)
    requires Geo(ch) && Tags(ch, head, foot) && Pend(ch, head, q, s, rs) && ch[q + s].kind == Top
    ensures var t := s + ch[q + s].size; var ch' := (ch - (rs + {q + s}))[q := Chunk(t, Top)];
            && Geo(ch') && Tags(ch', head[q := Head(t, false, true)], foot)
            && FreeOf(ch') == FreeOf(ch) - rs && ExtentOf(ch') == ExtentOf(ch) && LiveOf(ch') == LiveOf(ch) - rs
  {
    hide Geo, Tags;
    var n := q + s;
    LooseFacts(ch, head, foot, n);
    RunMore(ch, q, s, rs);
    var t := s + ch[n].size;
    var rs' := rs + {n};
    InHead(ch, head, foot, n + ch[n].size);
    FuseRun(ch, q, t, Top, rs');
    FuseMaps(ch, q, t, Top, rs');
    FuseGeo(ch, q, t, Top);
    var head' := head[q := Head(t, false, true)];
    assert Retagged(Fuse(ch, q, t, Top), head, head', foot, foot, q, t, Top);
    FuseTags(ch, head, head', foot, foot, q, t, Top);
    assert FreeOf(ch) - rs' == FreeOf(ch) - rs;
    assert LiveOf(ch) - rs' == LiveOf(ch) - rs;
  }

  lemma DoneLoose(ch: Partition, head: Heads, foot: Feet, dv: Addr, dvsize: nat, top: Addr, topsize: nat,
                  q: Addr, s: nat, rs: set<Addr>, k: Kind)
    requires Geo(ch) && Tags(ch, head, foot) && DvOk(ch, dv, dvsize) && TopOk(ch, top, topsize)
    requires Pend(ch, head, q, s, rs) && InUse(ch[q + s].kind) && Loose(k) && top !in rs
    requires if k == Free then dv !in rs else dv in rs
    ensures q + s in head
    ensures var ch' := (ch - rs)[q := Chunk(s, k)];
            && HeapOk(ch', SetFree(head, q, s), foot[q + s := s],
                      if k == Free then (FreeOf(ch) - rs)[q := s] else FreeOf(ch) - rs,
                      if k == Free then dv else q, if k == Free then dvsize else s, top, topsize)
            && ExtentOf(ch') == ExtentOf(ch) && LiveOf(ch') == LiveOf(ch) - rs
  {
    hide Geo, Tags;
    SettleLoose(ch, head, foot, q, s, rs, k);
    hide Pend;
    assert q in rs && q in ch && s > 0 && (topsize > 0) by { PendFacts(ch, head, q, s, rs, top, topsize); }
  }

  lemma PendFacts(ch: Partition, head: Heads, q: Addr, s: nat, rs: set<Addr>, top: Addr, topsize: nat)
    requires Pend(ch, head, q, s, rs) && TopOk(ch, top, topsize)
    ensures q in rs && q in ch && q > 0 && s >= MIN_CHUNK_SIZE && s % 8 == 0 && topsize > 0 && q + s in ch && q + s < WORD
    ensures forall r :: r in rs ==> r in ch && q <= r < q + s
  {}

  lemma DoneTop(ch: Partition, head: Heads, foot: Feet, dv: Addr, dvsize: nat, top: Addr, topsize: nat,
                q: Addr, s: nat, rs: set<Addr>)
    requires Geo(ch) && Tags(ch, head, foot) && DvOk(ch, dv, dvsize) && TopOk(ch, top, topsize)
    requires Pend(ch, head, q, s, rs) && q + s == top && topsize > 0
    ensures var t := s + topsize; var ch' := (ch - (rs + {top}))[q := Chunk(t, Top)];
            && HeapOk(ch', head[q := Head(t, false, true)], foot, FreeOf(ch) - rs,
                      if dv in rs then 0 else dv, if dv in rs then 0 else dvsize, q, t)
            && ExtentOf(ch') == ExtentOf(ch) && LiveOf(ch') == LiveOf(ch) - rs
  {
    hide Geo, Tags;
    SettleTop(ch, head, foot, q, s, rs);
    PendFacts(ch, head, q, s, rs, top, topsize);
    hide Pend;
  }

  lemma HeapHeadSizes(ch: Partition, head: Heads, foot: Feet, free: Sizes, dv: Addr, dvsize: nat, top: Addr, topsize: nat)
    requires HeapOk(ch, head, foot, free, dv, dvsize, top, topsize)
    ensures HeadSizes(free, head)
  {
    FreeSizes(ch, head, foot);
  }

  // ---------------- resizing in place ----------------

  lemma UsedFacts(ch: Partition, head: Heads, foot: Feet, p: Addr)
    requires Geo(ch) && Tags(ch, head, foot) && p in ch && ch[p].kind == Used
    ensures p > 0 && p in head && head[p] == Head(ch[p].size, true, head[p].pinuse) && p + ch[p].size < WORD
    ensures ch[p].size % 8 == 0 && ch[p].size >= MIN_CHUNK_SIZE
    ensures Next(ch, p) in ch && Next(ch, p) in head && head[Next(ch, p)].pinuse && ch[Next(ch, p)].kind != End
  {
    LooseFacts(ch, head, foot, p);
  }

  // a block in use is cut in two blocks in use
  lemma SplitUsed(ch: Partition, head: Heads, foot: Feet, free: Sizes, dv: Addr, dvsize: nat, top: Addr, topsize: nat, p: Addr, n: nat)
    requires HeapOk(ch, head, foot, free, dv, dvsize, top, topsize) && p in ch && ch[p].kind == Used
    requires n % 8 == 0 && MIN_CHUNK_SIZE <= n && n + MIN_CHUNK_SIZE <= ch[p].size
    ensures p in head && p + ch[p].size in head && p + n !in ch
    ensures var r := p + n; var m := ch[p].size - n; var ch' := ch[p := Chunk(n, Used)][r := Chunk(m, Used)];
            && HeapOk(ch', head[p := Head(n, true, head[p].pinuse)][r := Head(m, true, true)], foot, free, dv, dvsize, top, topsize)
            && ExtentOf(ch') == ExtentOf(ch) && LiveOf(ch') == LiveOf(ch)[p := n][r := m]
  {
    hide Geo, Tags;
    UsedFacts(ch, head, foot, p);
    NothingInside(ch, p, n);
    var r := p + n;
    var m := ch[p].size - n;
    var head' := head[p := Head(n, true, head[p].pinuse)][r := Head(m, true, true)];
    SplitGeo(ch, p, n, Used, Used);
    assert SplitWords(ch, head, head', foot, foot, p, n, Used);
    SplitTags(ch, head, head', foot, foot, p, n, Used);
    SplitMaps(ch, p, n, Used);
    assert FreeOf(ch) - {p} == FreeOf(ch);
  }

  // p takes over all of the chunk behind it
  lemma Absorb(ch: Partition, head: Heads, foot: Feet, p: Addr, k: Kind)
    requires Geo(ch) && Tags(ch, head, foot) && p in ch && ch[p].kind == Used
    requires var n := Next(ch, p); n in ch && (if k == Used then Loose(ch[n].kind) else k == Seg && ch[n].kind == Top)
    ensures var n := Next(ch, p); var t := ch[p].size + ch[n].size; var e := p + t;
            var ch' := (ch - {n})[p := Chunk(t, k)];
            && n != p && p in head && e in head && e in ch && n + ch[n].size == e && e < WORD
            && Geo(ch') && Tags(ch', head[p := Head(t, true, head[p].pinuse)][e := head[e].(pinuse := true)], foot)
            && head[e].pinuse == false && ch[e].kind != Dv && ch[e].kind != Top && MayPrecede(ch[n].kind, ch[e].kind)
            && t % 8 == 0
            && ExtentOf(ch') == ExtentOf(ch) && FreeOf(ch') == FreeOf(ch) - {n} && (LiveOf(ch') == if k == Used then LiveOf(ch)[p := t] else LiveOf(ch) - {p})
  {
    hide Geo, Tags, ExtentOf, FreeOf, LiveOf, Retagged;
    UsedFacts(ch, head, foot, p);
    var n := Next(ch, p);
    LooseFacts(ch, head, foot, n);
    RunOne(ch, p);
    RunMore(ch, p, ch[p].size, {p});
    var t := ch[p].size + ch[n].size;
    var e := p + t;
    var rs := {p} + {n};
    var head' := head[p := Head(t, true, head[p].pinuse)][e := head[e].(pinuse := true)];
    FuseRun(ch, p, t, k, rs);
    FuseMaps(ch, p, t, k, rs);
    FuseGeo(ch, p, t, k);
    AbsorbWords(Fuse(ch, p, t, k), head, foot, p, t, k);
    FuseTags(ch, head, head', foot, foot, p, t, k);
    AbsorbMaps(ch, p, n, t, k);
  }

  lemma AbsorbWords(ch': Partition, head: Heads, foot: Feet, p: Addr, t: nat, k: Kind)
    requires p in head && head[p].cinuse && p + t in head && t > 0 && InUse(k)
    ensures Retagged(ch', head, head[p := Head(t, true, head[p].pinuse)][p + t := head[p + t].(pinuse := true)], foot, foot, p, t, k)
  {}

  lemma AbsorbMaps(ch: Partition, p: Addr, n: Addr, t: nat, k: Kind)
    requires p in ch && n in ch && ch[p].kind == Used && !(ch[n].kind == Used)
    ensures (ch - ({p} + {n}))[p := Chunk(t, k)] == (ch - {n})[p := Chunk(t, k)]
    ensures FreeOf(ch) - ({p} + {n}) == FreeOf(ch) - {n}
    ensures (LiveOf(ch) - ({p} + {n}))[p := t] == LiveOf(ch)[p := t]
    ensures LiveOf(ch) - ({p} + {n}) == LiveOf(ch) - {p}
  {}

  // the words after p took n bytes more than it had out of what follows it
  lemma AbsorbSplitWords(ch: Partition, head: Heads, foot: Feet, p: Addr, nb: nat, m: nat, k2: Kind)
    requires p in ch && ch[p].size == nb + m && m > 0 && nb > 0 && p in head && p + nb + m in head && p + nb !in ch
    requires !InUse(k2) && !head[p + nb + m].pinuse
    ensures var r := p + nb; var e := r + m; var t := nb + m;
            SplitWords(ch, head[p := Head(t, true, head[p].pinuse)][e := head[e].(pinuse := true)],
                       head[p := Head(nb, true, head[p].pinuse)][r := Head(m, false, true)],
                       foot, if Loose(k2) then foot[e := m] else foot, p, nb, k2)
  {}

  // p takes over the first bytes of the chunk behind it, which stays loose (or top)
  lemma AbsorbSplit(ch: Partition, head: Heads, foot: Feet, p: Addr, nb: nat, k2: Kind)
    requires Geo(ch) && Tags(ch, head, foot) && p in ch && ch[p].kind == Used && Next(ch, p) in ch
    requires var n := Next(ch, p);
             && (if k2 == Top then ch[n].kind == Top else k2 == Dv && Loose(ch[n].kind))
             && nb % 8 == 0 && ch[p].size < nb
             && nb + (if k2 == Top then 1 else MIN_CHUNK_SIZE) <= ch[p].size + ch[n].size
    ensures var n := Next(ch, p); var m := ch[p].size + ch[n].size - nb; var r := p + nb; var e := r + m;
            var ch' := (ch - {n})[p := Chunk(nb, Used)][r := Chunk(m, k2)];
            && p in head && e in head && !head[e].pinuse && r !in ch && n != p && p > 0
            && Geo(ch') && Tags(ch', head[p := Head(nb, true, head[p].pinuse)][r := Head(m, false, true)], if k2 == Dv then foot[e := m] else foot)
            && FreeOf(ch') == FreeOf(ch) - {n} && ExtentOf(ch') == ExtentOf(ch) && LiveOf(ch') == LiveOf(ch)[p := nb]
  {
    hide Geo, Tags, SplitWords, ExtentOf;
    var n := Next(ch, p);
    var kI := if k2 == Top then Seg else Used;
    UsedFacts(ch, head, foot, p);
    NothingInside(ch, n, nb - ch[p].size);
    Absorb(ch, head, foot, p, kI);
    var t := ch[p].size + ch[n].size;
    var e := p + t;
    var ch1 := (ch - {n})[p := Chunk(t, kI)];
    var head1 := head[p := Head(t, true, head[p].pinuse)][e := head[e].(pinuse := true)];
    NothingInside(ch1, p, nb);
    var r := p + nb;
    var m := t - nb;
    SplitGeo(ch1, p, nb, Used, k2);
    var head' := head[p := Head(nb, true, head[p].pinuse)][r := Head(m, false, true)];
    var foot' := if Loose(k2) then foot[e := m] else foot;
    AbsorbSplitWords(ch1, head, foot, p, nb, m, k2);
    SplitTags(ch1, head1, head', foot, foot', p, nb, k2);
    SplitMaps(ch1, p, nb, k2);
    AbsorbSplitMaps(ch, p, n, t, nb, kI, k2);
  }

  lemma AbsorbSplitMaps(ch: Partition, p: Addr, n: Addr, t: nat, nb: nat, kI: Kind, k2: Kind)
    requires p in ch && n in ch && p != n && ch[p].kind == Used && nb < t && n != p + nb
    ensures Split((ch - {n})[p := Chunk(t, kI)], p, nb, Used, k2) == (ch - {n})[p := Chunk(nb, Used)][p + nb := Chunk(t - nb, k2)]
    ensures FreeOf(ch) - {n} - {p} == FreeOf(ch) - {n}
    ensures LiveOf(ch)[p := t][p := nb] == LiveOf(ch)[p := nb] == (LiveOf(ch) - {p})[p := nb]
  {}

  lemma ExtendTopOk(ch: Partition, head: Heads, foot: Feet, free: Sizes, dv: Addr, dvsize: nat, top: Addr, topsize: nat, p: Addr, nb: nat)
    requires HeapOk(ch, head, foot, free, dv, dvsize, top, topsize) && p in ch && ch[p].kind == Used && Next(ch, p) == top && topsize > 0
    requires nb % 8 == 0 && ch[p].size < nb < ch[p].size + topsize
    ensures var m := ch[p].size + topsize - nb; var r := p + nb;
            var ch' := (ch - {top})[p := Chunk(nb, Used)][r := Chunk(m, Top)];
            && p in head
            && HeapOk(ch', head[p := Head(nb, true, head[p].pinuse)][r := Head(m, false, true)], foot, free, dv, dvsize, r, m)
            && ExtentOf(ch') == ExtentOf(ch) && LiveOf(ch') == LiveOf(ch)[p := nb]
  {
    hide Geo, Tags;
    AbsorbSplit(ch, head, foot, p, nb, Top);
    assert FreeOf(ch) - {top} == FreeOf(ch);
    hide FreeOf, LiveOf, ExtentOf;
  }

  lemma ExtendDvOk(ch: Partition, head: Heads, foot: Feet, free: Sizes, dv: Addr, dvsize: nat, top: Addr, topsize: nat, p: Addr, nb: nat)
    requires HeapOk(ch, head, foot, free, dv, dvsize, top, topsize) && p in ch && ch[p].kind == Used && Next(ch, p) == dv && dvsize > 0
    requires nb % 8 == 0 && ch[p].size < nb && nb + MIN_CHUNK_SIZE <= ch[p].size + dvsize
    ensures var m := ch[p].size + dvsize - nb; var r := p + nb; var e := r + m;
            var ch' := (ch - {dv})[p := Chunk(nb, Used)][r := Chunk(m, Dv)];
            && p in head && e in head && !head[e].pinuse
            && HeapOk(ch', head[p := Head(nb, true, head[p].pinuse)][r := Head(m, false, true)], foot[e := m], free, r, m, top, topsize)
            && ExtentOf(ch') == ExtentOf(ch) && LiveOf(ch') == LiveOf(ch)[p := nb]
  {
    hide Geo, Tags;
    AbsorbSplit(ch, head, foot, p, nb, Dv);
    assert FreeOf(ch) - {dv} == FreeOf(ch);
    hide FreeOf, LiveOf, ExtentOf;
  }

  // p takes over dv, or a free chunk just unlinked, entirely
  lemma AbsorbOk(ch: Partition, head: Heads, foot: Feet, free: Sizes, dv: Addr, dvsize: nat, top: Addr, topsize: nat, p: Addr)
    requires HeapOk(ch, head, foot, free, dv, dvsize, top, topsize) && p in ch && ch[p].kind == Used
    requires Next(ch, p) in ch && Loose(ch[Next(ch, p)].kind)
    ensures var n := Next(ch, p); var t := ch[p].size + ch[n].size; var ch' := (ch - {n})[p := Chunk(t, Used)];
            && p in head && p + t in head && t % 8 == 0
            && HeapOk(ch', SetInuse(head, p, t), foot, free - {n}, if n == dv then 0 else dv, if n == dv then 0 else dvsize, top, topsize)
            && ExtentOf(ch') == ExtentOf(ch) && LiveOf(ch') == LiveOf(ch)[p := t]
  {
    hide Geo, Tags;
    var n := Next(ch, p);
    Absorb(ch, head, foot, p, Used);
    LooseFacts(ch, head, foot, n);
    hide FreeOf, LiveOf, ExtentOf;
  }

  // set_inuse on the tail first, then on the head, of a block that was in use
  lemma SetInuseTail(head: Heads, p: Addr, n: nat, m: nat)
    requires p in head && p + n + m in head && head[p + n + m].pinuse && n > 0 && m > 0
    ensures var h := SetPinuse(head[p + n := Head(m, true, if p + n in head then head[p + n].pinuse else false)], p + n + m);
            p in h && SetInuse(h, p, n) == head[p := Head(n, true, head[p].pinuse)][p + n := Head(m, true, true)]
  {}

  // ---------------- what the partition means ----------------

  // The words the heap reads lie outside the bytes of block p: another chunk's head, and, of a
  // loose chunk, everything from its links to its foot.
  lemma WordsApart(ch: Partition, p: Addr, q: Addr)
    requires Geo(ch) && p in ch && q in ch && p != q && ch[p].kind == Used
    ensures q + 8 <= p + 8 || Next(ch, p) + 4 <= q + 4
    ensures Loose(ch[q].kind) ==> Next(ch, q) + 4 <= p + 8 || Next(ch, p) + 4 <= q + 8
  {
    assert Beyond(ch, p, q) && Beyond(ch, q, p);
  }

  // Blocks handed out are aligned, hold their bytes below the address limit, and do not overlap.
  lemma LiveDisjoint(ch: Partition, p: Addr, q: Addr)
    requires Geo(ch) && p in LiveOf(ch) && q in LiveOf(ch) && p < q
    ensures p > 0 && p % 8 == 0 && p + LiveOf(ch)[p] <= q
  {
    assert Placed(ch, p) && Beyond(ch, p, q);
  }

  // the chunks met by walking from p by sizes up to the address e
  function Walk(ch: Partition, p: Addr, e: Addr): seq<Addr>
    decreases e - p
  {
    if p < e && p in ch && ch[p].size > 0 then [p] + Walk(ch, p + ch[p].size, e) else []
  }

  function TotalSize(ch: Partition, ps: seq<Addr>): nat {
    if ps == [] then 0 else (if ps[0] in ch then ch[ps[0]].size else 0) + TotalSize(ch, ps[1..])
  }

  // Walking by sizes from a chunk to a later end marker, with no other marker in between,
  // meets exactly the chunks lying there, without gap or overlap.
  lemma {:induction false} WalkReaches(ch: Partition, p: Addr, e: Addr)
    requires Geo(ch) && p in ch && e in ch && p <= e && forall q :: q in ch && p <= q < e ==> ch[q].kind != End
    ensures forall q :: q in Walk(ch, p, e) <==> q in ch && p <= q < e
    ensures TotalSize(ch, Walk(ch, p, e)) == e - p
    decreases e - p
  {
    hide Geo;
    if p < e {
      var n := p + ch[p].size;
      NextStep(ch, p, e);
      WalkReaches(ch, n, e);
      var w := Walk(ch, n, e);
      assert Walk(ch, p, e) == [p] + w;
      assert ([p] + w)[1..] == w;
    }
  }

  lemma NextStep(ch: Partition, p: Addr, e: Addr)
    requires Geo(ch) && p in ch && e in ch && p < e && ch[p].kind != End
    ensures ch[p].size > 0 && p + ch[p].size in ch && p + ch[p].size <= e
    ensures forall q :: q in ch && p <= q < e ==> q == p || p + ch[p].size <= q
  {
    assert Placed(ch, p) && Beyond(ch, p, e);
    forall q | q in ch && p < q < e ensures p + ch[p].size <= q { assert Beyond(ch, p, q); }
  }

  // ---------------- the first segment ----------------

  // sys_alloc's first segment: one top chunk and the marker behind it
  lemma FirstSegment(head: Heads, foot: Feet, base: Addr, size: nat)
    requires base > 0 && base % 8 == 0 && size % 8 == 0 && TOP_FOOT_SIZE < size && base + size <= WORD
    ensures var ts := size - TOP_FOOT_SIZE; var ch: Partition := map[base := Chunk(ts, Top), base + ts := Chunk(0, End)];
            && HeapOk(ch, head[base := Head(ts, false, true)][base + ts := Head(TOP_FOOT_SIZE, false, false)], foot, map[], 0, 0, base, ts)
            && LiveOf(ch) == map[]
  {
    var ts := size - TOP_FOOT_SIZE;
    var ch: Partition := map[base := Chunk(ts, Top), base + ts := Chunk(0, End)];
    assert FreeOf(ch) == map[];
  }
}
