/** The allocator of kernel/libc/malloc/malloc.c as the kernel builds it (kernel/libc/heap.c:21-66):
    32-bit words, 8-byte alignment, no footers, locks, MORECORE or mspaces. */
module Malloc {
  import opened Rings
  import opened BinIndex
  import opened BinMaps
  import opened Codes
  import opened Tries
  import opened Bins
  import opened Ages
  import opened BestFit
  import opened Chunks
  import opened Segments
  import opened Alignment

  lemma SizeOfAt(c: Chains, sz: Sizes, k: nat)
    requires At(c, k) in sz
    ensures SizeOf(c, sz, k) == sz[At(c, k)]
  {}

  lemma RingDistinct(m: Links, r: seq<Addr>)
    requires Ring(m, r)
    ensures Distinct(r)
  {}

  // p has left the small bin l of index i
  ghost predicate Extracted(l: seq<Addr>, p: Addr, small: seq<seq<Addr>>, small0: seq<seq<Addr>>, i: nat) {
    i < |small0| && exists j: nat :: j < |l| && l[j] == p && small == small0[i := RemoveAt(l, j)]
  }

  // of the small chunks of size s, v is the last to have entered their bin
  ghost predicate Newest(small: seq<seq<Addr>>, v: Addr, s: nat) {
    s / 8 < |small| && small[s / 8] != [] && v == small[s / 8][0]
  }

  lemma RemainingNone(c: Chains, sz: Sizes, nb: nat, best: nat)
    requires c == map[]
    ensures Remaining(c, sz, nb, best, 0)
  {}

  lemma StartAhead(i: nat, c: Chains, sz: Sizes, nb: nat)
    requires Abstract(i, c, sz)
    ensures AllAhead(c, sz, nb, WORD, 1, 0) && Untaken(i, c, nb, 1, 0)
  {
    hide Pos, Differ;
    forall j | j in c && SizeOf(c, sz, j) >= nb ensures Ahead(c, sz, WORD, 1, 0, j) {
      PosKey(i, c, sz, j);
      UnderRoot(j);
    }
  }

  lemma ExactMatch(c: Chains, sz: Sizes, nb: nat, k: nat)
    ensures Remaining(c, sz, nb, nb, k)
  {
    forall j | j in c && SizeOf(c, sz, j) >= nb ensures Left(c, sz, nb, k, j) {}
  }

  lemma HereFits(c: Chains, sz: Sizes, nb: nat, k: nat)
    requires k in c && k != 0
    ensures SubtreeFits(c, sz, nb, k) ==> SizeOf(c, sz, k) >= nb
  {
    assert Under(k, k);
  }

  lemma LeftmostOf(c: Chains, k: nat)
    requires k >= 1
    ensures var n := LeftmostChild(c, k);
            && (n != 0 ==> n in c && Log2(n) == Log2(k) + 1)
            && n == (if 2 * k in c then 2 * k else if 2 * k + 1 in c then 2 * k + 1 else 0)
  {
    ChildLog(k);
  }

  lemma StartDescent(s: nat)
    requires 256 <= s < WORD
    ensures LeftShift(TreeIndex(s)) >= 0 && TreeIndex(s) < NTREEBINS
    ensures var i := TreeIndex(s); Key(i, s) > 0 && Register((s * Pow2(LeftShift(i))) % WORD, Key(i, s), 1)
  {
    hide TreeIndex, Log2, Pow2;
    IndexBounds(s);
    KeyBounds(s);
    SizeBits(s);
    RegisterRoot((s * Pow2(LeftShift(TreeIndex(s)))) % WORD, Key(TreeIndex(s), s), Width(TreeIndex(s)));
  }

  lemma VisitedRoot(i: nat, c: Chains, sz: Sizes, s: nat)
    requires Abstract(i, c, sz)
    ensures Visited(c, sz, 1, s)
  {
    hide Pos, Differ;
    forall j | j in c ensures j >= 1 {
      PosKey(i, c, sz, j);
    }
  }

  // with no small chunk of size at least nb, a smallest tree chunk is a smallest chunk
  lemma BestLargeIsBest(free: Sizes, v: Addr, nb: nat)
    requires BestLarge(free, v, nb) && forall a :: a in free && free[a] >= nb ==> free[a] >= 256
    ensures SmallestFit(free, v, nb)
  {}

  lemma SmallestFitIntro(free: Sizes, v: Addr, nb: nat)
    requires v in free && free[v] >= nb && forall a :: a in free && free[a] >= nb ==> free[a] >= free[v]
    ensures SmallestFit(free, v, nb)
  {}

  const MAX_REQUEST: nat := 0xFFFF_FFC0        // (-MIN_CHUNK_SIZE) << 2
  const MAX_SMALL_REQUEST: nat := 244          // MAX_SMALL_SIZE - CHUNK_ALIGN_MASK - CHUNK_OVERHEAD
  const MIN_REQUEST: nat := 11                 // MIN_CHUNK_SIZE - CHUNK_OVERHEAD - 1

  // pad_request: room for the head word, rounded up to the alignment
  function PadRequest(bytes: nat): nat {
    (bytes + 4 + 7) % WORD / 8 * 8
  }

  // the chunk size dlmalloc looks for
  function RequestSize(bytes: nat): nat {
    if bytes < MIN_REQUEST then MIN_CHUNK_SIZE
    else if bytes >= MAX_REQUEST then WORD - 1
    else PadRequest(bytes)
  }

  // A request's chunk holds the requested bytes besides its head word, is a multiple of 8
  // of at least 16 bytes, and no smaller such size would do.
  lemma RequestFits(bytes: nat)
    requires bytes < MAX_REQUEST
    ensures var nb := RequestSize(bytes);
            && nb % 8 == 0 && MIN_CHUNK_SIZE <= nb < WORD && nb >= bytes + 4
            && (nb > MIN_CHUNK_SIZE ==> nb - 8 < bytes + 4)
            && (bytes <= MAX_SMALL_REQUEST <==> nb < 256)
  {}

  // what may be handed out: the binned chunks, the designated victim, of size 0 when there is
  // none, and the top chunk
  datatype Stock = Stock(free: Sizes, dv: Addr, dvsize: nat, top: Addr, topsize: nat)

  // What handing out nb bytes from v leaves. Fewer than 16 bytes too much go with the block.
  // Otherwise the rest of a binned chunk is the designated victim after a small request, and
  // the one until then is binned; after a large request the rest is binned. The rest of the
  // designated victim or of top stays that.
  ghost predicate Served(s: Stock, s': Stock, nb: nat, v: Addr) {
    if v in s.free then
      if s.free[v] < nb + 16 then s' == s.(free := s.free - {v})
      else if nb < 256 then
        && s'.dv == v + nb && s'.dvsize == s.free[v] - nb && s'.top == s.top && s'.topsize == s.topsize
        && s'.free == if s.dvsize > 0 then (s.free - {v})[s.dv := s.dvsize] else s.free - {v}
      else s' == s.(free := (s.free - {v})[v + nb := s.free[v] - nb])
    else if nb <= s.dvsize then
      s' == if s.dvsize < nb + 16 then s.(dv := 0, dvsize := 0) else s.(dv := s.dv + nb, dvsize := s.dvsize - nb)
    else
      s'.free == s.free && s'.dv == s.dv && s'.dvsize == s.dvsize && s'.top == s.top + nb && s'.topsize == s.topsize - nb
  }

  // q is where the chunk starts that block p becomes part of: the loose chunk in front, or p
  ghost predicate Front(ch: Partition, p: Addr, q: Addr) {
    q in ch && if q == p then NoLooseBefore(ch, p) else Loose(ch[q].kind) && Next(ch, q) == p
  }

  // What giving back block p leaves. The loose chunks around it, top included, and the block are
  // one chunk afterwards: top when top was behind, else the designated victim when that was on
  // either side, else a binned chunk.
  ghost predicate Returned(ch: Partition, s: Stock, s': Stock, p: Addr, q: Addr)
    requires p in ch && q in ch && Next(ch, p) in ch
  {
    var n := Next(ch, p);
    var e := if Loose(ch[n].kind) then Next(ch, n) else n;
    q <= p &&
    if ch[n].kind == Top then
      s' == Stock(s.free - {q}, if ch[q].kind == Dv then 0 else s.dv, if ch[q].kind == Dv then 0 else s.dvsize, q, n - q + s.topsize)
    else if ch[q].kind == Dv || ch[n].kind == Dv then
      s' == s.(free := s.free - {q, n}, dv := q, dvsize := e - q)
    else
      s' == s.(free := (s.free - {q, n})[q := e - q])
  }

  // What resizing block p in place to nb bytes leaves: fewer than 16 bytes too much stay with
  // the block, other bytes it does not need go with what is behind.
  ghost predicate Resized(ch: Partition, s: Stock, s': Stock, p: Addr, nb: nat)
    requires p in ch && Next(ch, p) in ch
  {
    var size, n := ch[p].size, Next(ch, p);
    var total := if ch[n].kind == Top || Loose(ch[n].kind) then size + ch[n].size else size;
    if nb <= size < nb + 16 then s' == s
    else if total < nb then false
    else if ch[n].kind == Top then s' == s.(top := p + nb, topsize := total - nb)
    else if total < nb + 16 then s' == if ch[n].kind == Dv then s.(dv := 0, dvsize := 0) else s.(free := s.free - {n})
    else if ch[n].kind == Dv then s' == s.(dv := p + nb, dvsize := total - nb)
    else s' == s.(free := (s.free - {n})[p + nb := total - nb])
  }

  ghost predicate GivenBack(ch: Partition, s: Stock, s': Stock, p: Addr) {
    p in ch && Next(ch, p) in ch && exists q :: Front(ch, p, q) && Returned(ch, s, s', p, q)
  }

  // What a region that ends where the chunk n starts leaves when a block of nb bytes is cut from
  // its front at p: the rest is joined to n when that is not in use.
  ghost predicate FrontTaken(ch: Partition, s: Stock, s': Stock, p: Addr, nb: nat, n: Addr) {
    && n in ch && n - p >= nb
    && var rest, behind := n - p - nb, ch[n];
       if behind.kind == Top then s' == s.(top := p + nb, topsize := rest + s.topsize)
       else if behind.kind == Dv then s' == s.(dv := p + nb, dvsize := rest + behind.size)
       else if behind.kind == Free then s' == s.(free := (s.free - {n})[p + nb := rest + behind.size])
       else s' == s.(free := s.free[p + nb := rest])
  }

  // What a region at b apart from the others leaves: it is top, less 40 bytes, and the top until
  // then is binned, unless it has less than 16 bytes.
  ghost predicate OldTopBinned(s: Stock, s': Stock, b: Addr, size: nat) {
    size >= 40 && s' == Stock(if s.topsize < 16 then s.free else s.free[s.top := s.topsize], s.dv, s.dvsize, b, size - 40)
  }

  // a segment starts at a
  ghost predicate StartsAt(segs: seq<Segment>, a: Addr) {
    exists i :: 0 <= i < |segs| && segs[i].base == a
  }

  // What a region of the system leaves of which nb bytes are handed out: the first becomes top,
  // one behind the current segment lengthens top, one in front of a segment is taken from its
  // front, and any other becomes the new top.
  ghost predicate TakenIn(segs: seq<Segment>, ch: Partition, s: Stock, s': Stock, nb: nat, mp: Addr, size: nat) {
    if s.topsize == 0 then size >= nb + 40 && s' == Stock(map[], 0, 0, mp + nb, size - 40 - nb)
    else if segs != [] && segs[0].base + segs[0].size == mp then s.topsize + size >= nb && s' == s.(top := s.top + nb, topsize := s.topsize + size - nb)
    else if StartsAt(segs, mp + size) then FrontTaken(ch, s, s', mp, nb, mp + size)
    else size >= nb + 40 && s'.top == mp + nb && s'.topsize == size - 40 - nb && OldTopBinned(s, s'.(top := mp, topsize := size - 40), mp, size)
  }

  lemma FrontIn(ch: Partition, p: Addr, nb: nat, m: nat)
    requires nb > 0 && m > 0 && p + nb + m in ch && ch[p + nb + m].kind != End
    ensures var ch1 := Fronted(ch, p, nb, m); p + nb in ch1 && ch1[p + nb] == Chunk(m, Used) && p + nb + m in ch1 && ch1[p + nb + m].kind != End
  {}

  lemma FrontTakenIs(ch: Partition, s: Stock, s': Stock, p: Addr, nb: nat, n: Addr)
    requires n in ch && ch[n].kind != End && p + nb < n && nb > 0 && p + nb !in s.free
    requires (ch[n].kind == Free <==> n in s.free) && (ch[n].kind == Dv ==> n == s.dv)
    requires var ch1 := Fronted(ch, p, nb, n - p - nb); p + nb in ch1 && Next(ch1, p + nb) in ch1 && Returned(ch1, s, s', p + nb, p + nb)
    ensures FrontTaken(ch, s, s', p, nb, n)
  {
    var q := p + nb;
    var ch1 := Fronted(ch, p, nb, n - q);
    assert Next(ch1, q) == n && ch1[n] == ch[n];
    assert s.free - {q} == s.free && s.free - {q, n} == s.free - {n};
    assert n !in s.free ==> s.free - {n} == s.free;
  }

  // what is cut off a block has the block in front
  lemma ShrunkIs(ch: Partition, s: Stock, s': Stock, p: Addr, nb: nat)
    requires Geo(ch) && s.free == FreeOf(ch) && TopOk(ch, s.top, s.topsize) && p + nb !in ch
    requires p in ch && ch[p].kind == Used && nb + 16 <= ch[p].size && nb > 0 && Next(ch, p) in ch
    requires GivenBack(ch[p := Chunk(nb, Used)][p + nb := Chunk(ch[p].size - nb, Used)], s, s', p + nb)
    ensures Resized(ch, s, s', p, nb)
  {
    var r, n := p + nb, Next(ch, p);
    var ch1 := ch[p := Chunk(nb, Used)][r := Chunk(ch[p].size - nb, Used)];
    var q :| Front(ch1, r, q) && Returned(ch1, s, s', r, q);
    assert Next(ch1, r) == n && ch1[n] == ch[n];
    forall a | a in ch ensures Beyond(ch, p, a) && Beyond(ch, a, p) {}
    assert q == r;
    assert s.free - {r} == s.free && s.free - {r, n} == s.free - {n};
    assert ch[n].kind != Free ==> s.free - {n} == s.free;
  }

  // growing into the free chunk n, and perhaps shrinking again
  lemma ResizedAbsorbed(ch: Partition, s: Stock, s1: Stock, s': Stock, p: Addr, nb: nat)
    requires Geo(ch) && s.free == FreeOf(ch) && p in ch && ch[p].kind == Used && Next(ch, p) in ch && ch[Next(ch, p)].kind == Free
    requires var n := Next(ch, p); var total := ch[p].size + ch[n].size;
             && ch[p].size < nb <= total && s1 == s.(free := s.free - {n})
             && var ch1 := (ch - {n})[p := Chunk(total, Used)];
                if total < nb + 16 then s' == s1 else Next(ch1, p) in ch1 && Resized(ch1, s1, s', p, nb)
    ensures Resized(ch, s, s', p, nb)
  {
    var n := Next(ch, p);
    assert Placed(ch, p) && Placed(ch, n);
    var m := Next(ch, n);
    assert ch[m].kind != Free && m != n && m != p;
    assert s.free - {n} - {m} == s.free - {n};
  }

  lemma Kinds(ch: Partition, dv: Addr, dvsize: nat, top: Addr, topsize: nat)
    requires DvOk(ch, dv, dvsize) && TopOk(ch, top, topsize)
    ensures forall a :: a in ch && a > 0 ==> (ch[a].kind == Dv <==> a == dv) && (ch[a].kind == Top <==> a == top)
  {}

  lemma FrontIs(ch: Partition, head: Heads, foot: Feet, p: Addr)
    requires Geo(ch) && Tags(ch, head, foot) && p in ch && ch[p].kind == Used && p in head
    ensures head[p].pinuse ==> Front(ch, p, p)
    ensures !head[p].pinuse ==> p in foot && Front(ch, p, p - foot[p])
  {
    PinuseMeaning(ch, head, foot, p);
    if !head[p].pinuse { PriorOf(ch, head, foot, p); }
  }

  // the three outcomes
  lemma ReturnedTop(ch: Partition, s: Stock, s': Stock, p: Addr, q: Addr)
    requires p in ch && q in ch && Next(ch, p) in ch && ch[Next(ch, p)].kind == Top && (ch[q].kind == Dv <==> q == s.dv)
    requires q <= p && s'.free == s.free - {q} && s'.top == q && s'.topsize == Next(ch, p) - q + s.topsize
    requires if q == s.dv then s'.dv == 0 && s'.dvsize == 0 else s'.dv == s.dv && s'.dvsize == s.dvsize
    ensures Returned(ch, s, s', p, q)
  {}

  lemma ReturnedDv(ch: Partition, s: Stock, s': Stock, p: Addr, q: Addr)
    requires p in ch && q in ch && Next(ch, p) in ch && ch[Next(ch, p)].kind != Top
    requires (ch[q].kind == Dv <==> q == s.dv) && (ch[Next(ch, p)].kind == Dv <==> Next(ch, p) == s.dv) && (q == s.dv || Next(ch, p) == s.dv)
    requires var n := Next(ch, p); var e := if Loose(ch[n].kind) then Next(ch, n) else n;
             q <= p && s' == s.(free := s.free - {q, n}, dv := q, dvsize := s'.dvsize) && s'.dvsize == e - q
    ensures Returned(ch, s, s', p, q)
  {}

  lemma ReturnedBin(ch: Partition, s: Stock, s': Stock, p: Addr, q: Addr)
    requires p in ch && q in ch && Next(ch, p) in ch && ch[Next(ch, p)].kind != Top && ch[q].kind != Dv && ch[Next(ch, p)].kind != Dv
    requires var n := Next(ch, p); var e := if Loose(ch[n].kind) then Next(ch, n) else n;
             q <= p && s' == s.(free := (s.free - {q, n})[q := e - q])
    ensures Returned(ch, s, s', p, q)
  {}

  // The product check of dlcalloc: the request is the true product, or "too big".
  function CallocRequest(n: nat, e: nat): nat {
    if n == 0 then 0 else Checked(n, e, (n * e) % WORD)
  }

  function Checked(n: nat, e: nat, req: nat): nat
    requires n > 0
  {
    if (n >= 0x1_0000 || e >= 0x1_0000) && req / n != e then WORD - 1 else req
  }

  lemma CallocExact(n: nat, e: nat)
    requires n < WORD && e < WORD
    ensures CallocRequest(n, e) == if n * e < WORD then n * e else WORD - 1
  {
    hide Checked;
    if n > 0 { CheckedProduct(n, e, n * e); }
  }

  lemma CheckedProduct(n: nat, e: nat, p: nat)
    requires n > 0 && p == n * e
    ensures Checked(n, e, p % WORD) == if p < WORD then p else WORD - 1
  {
    if p < WORD {
      ExactQuotient(n, e);
    } else {
      if n < 0x1_0000 && e < 0x1_0000 { SmallProduct(n, e); }
      QuotientBelow(p % WORD, n, e);
    }
  }

  lemma ExactQuotient(n: nat, e: nat)
    requires n > 0
    ensures n * e / n == e
  {
    QuotientIs(n * e, n, e);
  }

  lemma MulMono(a: nat, b: nat, c: nat)
    requires a <= b
    ensures a * c <= b * c
  {}

  // the quotient is determined by its product
  lemma QuotientIs(r: nat, n: nat, e: nat)
    requires n > 0 && r == n * e
    ensures r / n == e
  {
    var q := r / n;
    DivMod(r, n);
    if q < e { MulMono(q + 1, e, n); }
    if q > e { MulMono(e + 1, q, n); }
  }

  lemma DivMod(r: nat, n: nat)
    requires n > 0
    ensures r / n * n <= r < (r / n + 1) * n
  {}

  lemma SmallProduct(n: nat, e: nat)
    requires n < 0x1_0000 && e < 0x1_0000
    ensures n * e < WORD
  {
    MulMono(n, 0xFFFF, e);
  }

  lemma QuotientBelow(r: nat, n: nat, e: nat)
    requires n > 0 && r < n * e
    ensures r / n != e
  {
    DivMod(r, n);
  }

  lemma NoBins(small: seq<seq<Addr>>, tries: seq<Chains>, links: Links, treebins: seq<Addr>)
    requires |small| == NBINS == |tries| == |treebins|
    requires forall i: nat :: i < NBINS ==> SmallHeader(i) in links && small[i] == [] && tries[i] == map[] && treebins[i] == 0
    ensures BinsOk(small, tries, map[], links, map[], 0, 0, treebins)
  {
    ZeroMap(0);
  }

  lemma StillNoBins(small: seq<seq<Addr>>, tries: seq<Chains>, links: Links, links': Links, t: Nodes,
                    smallmap: BinMap, treemap: BinMap, treebins: seq<Addr>)
    requires BinsOk(small, tries, map[], links, t, smallmap, treemap, treebins)
    requires forall i: nat :: i < NBINS ==> SmallHeader(i) in links'
    ensures BinsOk(small, tries, map[], links', t, smallmap, treemap, treebins)
  {
    hide Trie, Marked;
    forall i | 0 <= i < NBINS ensures SmallBin(i, small[i], map[], links', smallmap) {
      assert SmallBin(i, small[i], map[], links, smallmap);
    }
    forall i | 0 <= i < NBINS ensures TreeBin(i, tries[i], map[], links', t, treemap, treebins[i]) {
      assert TreeBin(i, tries[i], map[], links, t, treemap, treebins[i]);
      forall a | Member(tries[i], a) ensures false { TrieMember(i, tries[i], map[], links, t, treemap, treebins[i], a); }
      TreeBinKept(i, tries[i], map[], map[], links, links', t, t, treemap, treemap, treebins[i]);
    }
  }

  // align_offset
  function AlignOffset(a: Addr): nat {
    if a % 8 == 0 then 0 else (8 - a % 8) % 8
  }

  // An aligned chunk needs no offset; add_segment's record lands on top's end marker, or on
  // top itself when top is too small to be a chunk.
  lemma NoOffset(p: Addr)
    requires p % 8 == 0
    ensures AlignOffset(p + 8) == 0
  {}

  method RecordSpot(oldTop: Addr, oldEnd: Addr, ghost ts: nat) returns (csp: Addr)
    requires oldTop > 0 && oldTop % 8 == 0 && ts % 8 == 0 && ts >= 8 && oldEnd == oldTop + ts + TOP_FOOT_SIZE
    ensures csp == RecordAt(oldTop, ts) && oldTop <= csp && csp + RECORD_SIZE + 12 <= oldEnd
    ensures if ts < MIN_CHUNK_SIZE then csp == oldTop else csp == oldTop + ts
  {
    var rawsp := oldEnd - (RECORD_SIZE + 16 + 7);
    var asp := rawsp + AlignOffset(rawsp + 8);
    RoundedSpot(oldTop / 8, ts / 8);
    csp := if asp < oldTop + MIN_CHUNK_SIZE then oldTop else asp;
  }

  lemma RoundedSpot(t: nat, n: nat)
    ensures AlignOffset(8 * t + 8 * n + 1) == 7
  {
    assert (8 * t + 8 * n + 1) % 8 == 1;
  }

  // head1 differs from head at most in having a word for q
  predicate Shadow(head: Heads, head1: Heads, q: Addr) {
    q in head1 && head1 == head[q := head1[q]]
  }

  lemma ShadowWrite(head: Heads, head1: Heads, q: Addr, h: Head)
    requires Shadow(head, head1, q)
    ensures head[q := h] == head1[q := h]
  {}

  lemma PendShadow(ch: Partition, head: Heads, foot: Feet, q: Addr, s: nat, rs: set<Addr>)
    requires Tags(ch, head, foot) && Pend(ch, head, q, s, rs)
    ensures Shadow(head, head, q) && q + s in head
  {
    assert head == head[q := head[q]];
    InHead(ch, head, foot, q + s);
  }

  lemma ShadowOne(head: Heads, head1: Heads, q: Addr)
    requires q in head1 && head1 == head[q := head1[q]]
    ensures Shadow(head, head1, q)
    ensures forall a :: a in head1 && a != q ==> a in head && head[a] == head1[a]
  {}

  // a block in use is neither dv, nor top, nor binned
  lemma OnlyUsed(ch: Partition, free: Sizes, dv: Addr, dvsize: nat, top: Addr, topsize: nat, q: Addr)
    requires free == FreeOf(ch) && DvOk(ch, dv, dvsize) && TopOk(ch, top, topsize) && q in ch && ch[q].kind == Used && q > 0
    ensures q != dv && q != top && free == FreeOf(ch) - {q} && LiveOf(ch) - {q} == LiveOf(ch) - {q}
  {
    assert q !in FreeOf(ch);
  }

  // the chunk n is dv, top, binned or in use
  lemma AfterUsed(ch: Partition, head: Heads, foot: Feet, dv: Addr, dvsize: nat, top: Addr, topsize: nat, n: Addr)
    requires Geo(ch) && Tags(ch, head, foot) && DvOk(ch, dv, dvsize) && TopOk(ch, top, topsize) && n in ch && ch[n].kind != End
    ensures n > 0 && n in head && head[n].size == ch[n].size && (head[n].cinuse <==> InUse(ch[n].kind))
    ensures n == top <==> ch[n].kind == Top
    ensures n == dv <==> ch[n].kind == Dv
    ensures n == dv ==> ch[n].size == dvsize
  {
    hide Geo, Tags;
    LooseFacts(ch, head, foot, n);
  }

  lemma SkipNext(ch: Partition, free: Sizes, dv: Addr, dvsize: nat, top: Addr, topsize: nat, n: Addr, rs: set<Addr>)
    requires DvOk(ch, dv, dvsize) && TopOk(ch, top, topsize) && n in ch && n > 0 && Loose(ch[n].kind) && n !in rs
    requires free == FreeOf(ch) - rs
    ensures LiveOf(ch) - (rs + {n}) == LiveOf(ch) - rs && n != top
    ensures ch[n].kind == Free ==> n in free && free[n] == ch[n].size && n != dv && free - {n} == FreeOf(ch) - (rs + {n})
    ensures ch[n].kind == Dv ==> free == FreeOf(ch) - (rs + {n}) && n == dv
  {}

  lemma HeapParts(ch: Partition, head: Heads, foot: Feet, free: Sizes, dv: Addr, dvsize: nat, top: Addr, topsize: nat)
    requires HeapOk(ch, head, foot, free, dv, dvsize, top, topsize)
    ensures Geo(ch) && Tags(ch, head, foot) && free == FreeOf(ch) && DvOk(ch, dv, dvsize) && TopOk(ch, top, topsize)
  {}

  // the words add_segment writes, one after the other
  lemma SealWordsIntro(ch: Partition, head: Heads, head': Heads, foot: Feet, foot': Feet, top: Addr, ts: nat, b: Addr, bs: nat)
    requires Sealable(ch, top, ts) && Vacant(ch, b, b + bs + 1)
    requires b + bs < top || b >= top + ts + TOP_FOOT_SIZE
    requires ts % 8 == 0 && ts >= 8
    requires var sp := RecordAt(top, ts);
             && sp in head' && head'[sp] == Head(RECORD_SIZE, true, sp == top)
             && sp + RECORD_SIZE in head' && head'[sp + RECORD_SIZE] == Head(0, true, true)
             && (sp != top ==> top in head' && head'[top] == Head(ts, false, true))
             && (forall a :: (a < sp + RECORD_SIZE || a >= top + ts + TOP_FOOT_SIZE) && a != sp && a != top && a != b && a != b + bs ==>
                   (a in head <==> a in head') && (a in head ==> head'[a] == head[a]))
             && foot' == (if sp != top then foot[sp := ts] else foot)
    ensures SealWords(ch, head, head', foot, foot', top, ts)
  {}

  lemma FewerSizes(free: Sizes, head: Heads, p: Addr, s: nat)
    requires HeadSizes(free[p := s], head) && p !in free
    ensures HeadSizes(free, head)
  {
    forall a | a in free ensures a in head && head[a].size == free[a] { assert a in free[p := s]; }
  }

  lemma HoldsIs(s: Segment, a: Addr)
    ensures Holds(s, a) <==> s.base <= a < s.base + s.size
  {}

  // the heap and the land before add_segment, and the vacant region it is given
  ghost predicate AddReady(ch: Partition, head: Heads, foot: Feet, free: Sizes, dv: Addr, dvsize: nat, top: Addr, topsize: nat,
                           tbase: Addr, tsize: nat, l: Land)
  {
    && HeapOk(ch, head, foot, free, dv, dvsize, top, topsize) && topsize > 0 && Sealable(ch, top, topsize)
    && LandOk(l) && l == Land(ExtentOf(ch), top + topsize, l.segs, l.fins) && l.segs != []
    && Fresh(l.segs, tbase, tsize) && tsize % 8 == 0 && tsize >= GRANULARITY
    && tbase > 0 && tbase % 8 == 0 && tbase + tsize <= WORD && Vacant(ch, tbase, tbase + tsize - TOP_FOOT_SIZE + 1)
    && (forall p :: p in ch && p < tbase ==> p + ch[p].size <= tbase)
    && (tbase + tsize <= top || tbase >= top + topsize + TOP_FOOT_SIZE)
  }

  // mem is a new block of nb bytes, 8-aligned
  ghost predicate Supplied(live: Sizes, live': Sizes, mem: Addr, nb: nat) {
    mem > 8 && mem % 8 == 0 && mem - 8 !in live && live' == live[mem - 8 := nb]
  }

  // a is on some bin's list or in some bin's trie
  ghost predicate InBins(small: seq<seq<Addr>>, tries: seq<Chains>, a: Addr)
    requires |small| == NBINS == |tries|
  {
    exists i: nat :: i < NBINS && InBin(small, tries, a, i)
  }

  ghost predicate InBin(small: seq<seq<Addr>>, tries: seq<Chains>, a: Addr, i: nat)
    requires |small| == NBINS == |tries| && i < NBINS
  {
    a in small[i] || Member(tries[i], a)
  }

  // The chunks in the bins are exactly the free ones other than dv and top, each in the bin of
  // its size, and a bin's bit is set exactly when the bin holds something.
  lemma ExactlyBinned(small: seq<seq<Addr>>, tries: seq<Chains>, free: Sizes, links: Links, t: Nodes, smallmap: BinMap, treemap: BinMap,
                      treebins: seq<Addr>, ch: Partition, head: Heads, foot: Feet, dv: Addr, dvsize: nat, top: Addr, topsize: nat)
    requires BinsOk(small, tries, free, links, t, smallmap, treemap, treebins)
    requires HeapOk(ch, head, foot, free, dv, dvsize, top, topsize)
    ensures forall a :: InBins(small, tries, a) <==> a in ch && !InUse(ch[a].kind) && ch[a].kind != End && a != dv && a != top
    ensures forall a, i: nat :: i < NBINS && InBin(small, tries, a, i) ==> a in ch && (if a in small[i] then ch[a].size == 8 * i else TreeIndex(ch[a].size) == i)
    ensures forall i: nat :: i < NBINS ==> (Marked(smallmap, i) <==> small[i] != []) && (Marked(treemap, i) <==> tries[i] != map[])
  {
    assert |small| == NBINS == |tries|;
    hide Tags, Marked, Ring, Trie, BinsOk;
    assert free == FreeOf(ch) && DvOk(ch, dv, dvsize) && TopOk(ch, top, topsize);
    forall a, i: nat | i < NBINS && InBin(small, tries, a, i)
      ensures a in free && (if a in small[i] then free[a] == 8 * i else TreeIndex(free[a]) == i)
    {
      InBinIs(small, tries, free, links, t, smallmap, treemap, treebins, a, i);
    }
    forall a ensures InBins(small, tries, a) <==> a in free {
      if a in free { FreeInBin(small, tries, free, links, t, smallmap, treemap, treebins, a); }
      if InBins(small, tries, a) { var i: nat :| i < NBINS && InBin(small, tries, a, i); }
    }
    forall a ensures a in free <==> a in ch && !InUse(ch[a].kind) && ch[a].kind != End && a != dv && a != top {
      assert a in ch ==> Placed(ch, a);
    }
    forall i: nat | i < NBINS ensures (Marked(smallmap, i) <==> small[i] != []) && (Marked(treemap, i) <==> tries[i] != map[]) {
      BitIs(small, tries, free, links, t, smallmap, treemap, treebins, i);
    }
  }

  lemma InBinIs(small: seq<seq<Addr>>, tries: seq<Chains>, free: Sizes, links: Links, t: Nodes, smallmap: BinMap, treemap: BinMap,
                treebins: seq<Addr>, a: Addr, i: nat)
    requires BinsOk(small, tries, free, links, t, smallmap, treemap, treebins) && i < NBINS && InBin(small, tries, a, i)
    ensures a in free && (if a in small[i] then free[a] == 8 * i else TreeIndex(free[a]) == i)
  {
    hide Marked, Ring, Trie, TreeIndex;
    if a in small[i] {
      SmallMember(small, tries, free, links, t, smallmap, treemap, treebins, i, a);
    } else {
      assert TreeBin(i, tries[i], free, links, t, treemap, treebins[i]);
      TrieMember(i, tries[i], free, links, t, treemap, treebins[i], a);
    }
  }

  lemma FreeInBin(small: seq<seq<Addr>>, tries: seq<Chains>, free: Sizes, links: Links, t: Nodes, smallmap: BinMap, treemap: BinMap,
                  treebins: seq<Addr>, a: Addr)
    requires BinsOk(small, tries, free, links, t, smallmap, treemap, treebins) && a in free
    ensures InBins(small, tries, a)
  {
    hide Marked, Ring, Trie, TreeIndex, SmallBin, TreeBin;
    var s := free[a];
    assert Binned(small, tries, a, s);
    var i: nat := if s < 256 then s / 8 else TreeIndex(s);
    assert InBin(small, tries, a, i);
  }

  lemma BitIs(small: seq<seq<Addr>>, tries: seq<Chains>, free: Sizes, links: Links, t: Nodes, smallmap: BinMap, treemap: BinMap,
              treebins: seq<Addr>, i: nat)
    requires BinsOk(small, tries, free, links, t, smallmap, treemap, treebins) && i < NBINS
    ensures (Marked(smallmap, i) <==> small[i] != []) && (Marked(treemap, i) <==> tries[i] != map[])
  {
    hide Marked, Ring;
    assert SmallBin(i, small[i], free, links, smallmap);
    assert TreeBin(i, tries[i], free, links, t, treemap, treebins[i]);
    if 1 !in tries[i] { EmptyTrie(i, tries[i], free); }
  }

  // what internal_memalign asks dlmalloc for
  function MemalignRequest(asked: nat, bytes: nat): nat {
    RequestSize(bytes) + RoundAlignment(asked) + MIN_CHUNK_SIZE - 4
  }

  lemma MemalignSize(bytes: nat, a: nat, n: nat)
    requires 4 <= n < 32 && a == Pow2(n) && a <= 0x8000_0000 && bytes < MAX_REQUEST - a
    ensures var nb := RequestSize(bytes); var req := nb + a + MIN_CHUNK_SIZE - 4;
            req < WORD && (req < MAX_REQUEST ==> RequestSize(req) == nb + a + MIN_CHUNK_SIZE)
  {
    hide Pow2;
    Pow2Multiple(n, 4);
    Sixteen();
    RequestFits(bytes);
    hide RequestSize;
    if RequestSize(bytes) + a + MIN_CHUNK_SIZE - 4 < MAX_REQUEST { PadMemalign(RequestSize(bytes), a); }
  }

  lemma PadMemalign(nb: nat, a: nat)
    requires nb % 8 == 0 && a % 16 == 0 && nb >= MIN_CHUNK_SIZE
    requires nb + a + MIN_CHUNK_SIZE - 4 < MAX_REQUEST
    ensures RequestSize(nb + a + MIN_CHUNK_SIZE - 4) == nb + a + MIN_CHUNK_SIZE
  {
    hide RequestSize;
    PadEight(nb / 8 + 2 * (a / 16));
  }

  lemma PadEight(t: nat)
    requires 8 * t + 12 < MAX_REQUEST && t >= 1
    ensures RequestSize(8 * t + 12) == 8 * t + 16
  {
    var x := 8 * t + 23;
    assert x % WORD == x;
    assert x / 8 == t + 2;
  }

  // the next aligned address leaves a lead of 16 up to a + 8 bytes, possibly after one more step
  lemma LeadFits(mem: nat, n: nat, y: nat)
    requires 4 <= n && mem % 8 == 0 && !MultipleOf(mem, Pow2(n)) && MultipleOf(y, Pow2(n)) && mem <= y < mem + Pow2(n)
    ensures var a := Pow2(n); var pos := if y - mem >= 16 then y else y + a;
            16 <= pos - mem <= a + 8 && pos % 8 == 0 && MultipleOf(pos, a)
  {
    hide Pow2;
    var a := Pow2(n);
    Pow2Multiple(n, 4);
    Sixteen();
    DivisorOf(y, a, 16);
    LeadBounds(mem, a, y);
    OneMore(y, a);
  }

  lemma LeadBounds(mem: nat, a: nat, y: nat)
    requires mem % 8 == 0 && a % 16 == 0 && y % 16 == 0 && mem < y < mem + a
    ensures var pos := if y - mem >= 16 then y else y + a; 16 <= pos - mem <= a + 8 && pos % 8 == 0
  {
    var m, k, j := mem / 8, a / 16, y / 16;
    LeadQuotients(m, k, j);
    EightTimes(2 * j);
    EightTimes(2 * (j + k));
  }

  lemma LeadQuotients(m: nat, k: nat, j: nat)
    requires 8 * m < 16 * j < 8 * m + 16 * k
    ensures 16 * j - 8 * m < 16 ==> 16 * j - 8 * m == 8
    ensures 16 * j - 8 * m <= 16 * k - 8
  {}

  lemma EightTimes(t: nat)
    ensures 8 * t % 8 == 0
  {}

  // where memalign puts the aligned block inside the misaligned one at p
  method AlignedSpot(p: Addr, a: nat, ghost n: nat) returns (pos: Addr)
    requires p > 0 && p % 8 == 0 && 4 <= n < 32 && a == Pow2(n) && a <= 0x8000_0000 && p + 8 + a <= WORD
    requires !MultipleOf(p + 8, a)
    ensures MIN_CHUNK_SIZE <= pos - p <= a + 8 && (pos - p) % 8 == 0 && MultipleOf(pos + 8, a)
  {
    hide And, Pow2, MultipleOf;
    var mem := p + 8;
    RoundUp(mem, n);
    var up := And(mem + a - 1, Neg(a));
    LeadFits(mem, n, up);
    var br := up - 8;
    pos := if br - p >= MIN_CHUNK_SIZE then br else br + a;
  }

  lemma OneMore(y: nat, a: nat)
    requires a > 0 && y % a == 0
    ensures (y + a) % a == 0
  {
    ModIs(y + a, a, y / a + 1, 0);
  }

  lemma LiveAt(ch: Partition, p: Addr)
    ensures p in LiveOf(ch) <==> p in ch && ch[p].kind == Used
    ensures p in LiveOf(ch) ==> LiveOf(ch)[p] == ch[p].size
  {}

  lemma NotFree(ch0: Partition, q: Addr, rs: set<Addr>, free: Sizes)
    requires q in rs && free == FreeOf(ch0) - rs
    ensures q !in free
  {}

  lemma LiveIn(ch: Partition)
    ensures forall p :: p in LiveOf(ch) <==> p in ch && ch[p].kind == Used
  {}

  class MallocState {
    // chunk memory, one map per field of malloc_chunk and malloc_tree_chunk
    var head: Heads
    var foot: Feet
    var links: Links
    var nodes: Nodes
    // malloc_state
    var smallmap: BinMap
    var treemap: BinMap
    var treebins: seq<Addr>
    var dvsize: nat
    var topsize: nat
    var dv: Addr
    var top: Addr
    var segs: seq<Segment>     // seg, and the records it leads to
    // what the words above describe
    ghost var small: seq<seq<Addr>>
    ghost var tries: seq<Chains>
    ghost var free: Sizes
    ghost var ch: Partition
    ghost var fins: seq<Addr>

    ghost predicate BinsValid()
      reads this`links, this`nodes, this`smallmap, this`treemap, this`treebins, this`small, this`tries, this`free
    {
      BinsOk(small, tries, free, links, nodes, smallmap, treemap, treebins)
    }

    ghost predicate Valid()
      reads this
    {
      BinsValid() && HeapOk(ch, head, foot, free, dv, dvsize, top, topsize)
    }

    ghost function Held(): Stock
      reads this`free, this`dv, this`dvsize, this`top, this`topsize
    {
      Stock(free, dv, dvsize, top, topsize)
    }

    // where the heap lies
    ghost function Ground(): Land
      reads this`ch, this`top, this`topsize, this`segs, this`fins
    {
      Land(ExtentOf(ch), top + topsize, segs, fins)
    }

    // The invariant of the allocator: words and chunks agree, free chunks are binned, and the
    // chunks make up the segments.
    ghost predicate Sound()
      reads this
    {
      Valid() && LandOk(Ground())
    }

    lemma GroundIs()
      ensures Ground() == Land(ExtentOf(ch), top + topsize, segs, fins)
    {}

    lemma Split()
      requires Valid()
      ensures BinsValid() && HeapOk(ch, head, foot, free, dv, dvsize, top, topsize)
    {}

    lemma Join()
      requires BinsValid() && HeapOk(ch, head, foot, free, dv, dvsize, top, topsize)
      ensures Valid()
    {}

    // ---------------- small bins ----------------

    method InsertSmallChunk(p: Addr, s: nat)
      requires BinsValid() && p > 0 && p !in free && MIN_CHUNK_SIZE <= s < 256 && s % 8 == 0
      modifies this`links, this`smallmap, this`small, this`free
      ensures BinsValid() && free == old(free)[p := s]
      // a small bin is a stack
      ensures |old(small)| == NBINS && small == old(small)[s / 8 := [p] + old(small)[s / 8]]
    {
      var i := s / 8;
      assert |small| == NBINS && 2 <= i < NBINS && s == 8 * i;
      hide Marked, Mark, Ring, BinsOk, SetNext, SetPrev, LinkBetween;
      InsertSmallOk(small, tries, free, links, nodes, smallmap, treemap, treebins, i, p);
      var b := SmallHeader(i);
      LinkOrder(links, b, p, if Marked(smallmap, i) then links[b].next else b);
      var f := b;
      if !Marked(smallmap, i) {
        smallmap := Mark(smallmap, i);
      } else {
        f := links[b].next;
      }
      links := SetNext(links, b, p);
      links := SetPrev(links, f, p);
      links := links[p := Link(b, f)];
      small := small[i := [p] + small[i]];
      free := free[p := s];
    }

    // where a small chunk sits in its bin
    lemma SmallPosition(p: Addr) returns (j: nat)
      requires BinsValid() && p in free && free[p] < 256
      ensures free[p] / 8 < NBINS && free[p] % 8 == 0 && j < |small[free[p] / 8]| && small[free[p] / 8][j] == p
      ensures p > 0
    {
      hide SmallBin, TreeBin;
      assert Binned(small, tries, p, free[p]);
      j :| 0 <= j < |small[free[p] / 8]| && small[free[p] / 8][j] == p;
    }

    method UnlinkSmallChunk(p: Addr, s: nat)
      requires BinsValid() && p in free && free[p] == s < 256
      modifies this`links, this`smallmap, this`small, this`free
      ensures BinsValid() && free == old(free) - {p}
      ensures |old(small)| == NBINS && Extracted(old(small)[s / 8], p, small, old(small), s / 8)
    {
      var i := s / 8;
      ghost var j := SmallPosition(p);
      UnlinkSmallOk(small, tries, free, links, nodes, smallmap, treemap, treebins, i, j);
      BypassOrder(links, p);
      hide Marked, Clear, Ring, BinsOk, SetNext, SetPrev, Bypass;
      var f := links[p].next;
      var b := links[p].prev;
      if b == f {
        smallmap := Clear(smallmap, i);
      } else {
        links := SetPrev(links, f, b);
        links := SetNext(links, b, f);
      }
      assert small[i][j] == p;
      small := small[i := RemoveAt(small[i], j)];
      free := free - {p};
    }

    // ---------------- tree bins ----------------

    // where a large chunk sits in its trie
    lemma TreePosition(x: Addr) returns (i: nat, k: nat, j: nat)
      requires BinsValid() && x in free && free[x] >= 256
      ensures free[x] < WORD && i == TreeIndex(free[x]) < NBINS && k in tries[i] && j < |tries[i][k]| && tries[i][k][j] == x
      ensures x > 0 && x in links && x in nodes && nodes[x].index == i
      ensures Trie(i, tries[i], free, links, nodes, treebins[i])
    {
      hide SmallBin, Pos, Ring, TreeIndex;
      assert Binned(small, tries, x, free[x]);
      i := TreeIndex(free[x]);
      assert TreeBin(i, tries[i], free, links, nodes, treemap, treebins[i]);
      k :| k in tries[i] && x in tries[i][k];
      assert Rep(i, tries[i], links, nodes, k);
      RingAt(i, tries[i], links, nodes, k);
      RingIn(links, tries[i][k]);
      j :| 0 <= j < |tries[i][k]| && tries[i][k][j] == x;
    }

    // what a tree bin looks like to a walk that stands at position k
    lemma AtNode(i: nat, k: nat)
      requires BinsValid() && i < NBINS && k in tries[i]
      ensures k >= 1 && At(tries[i], k) > 0 && At(tries[i], k) in nodes && At(tries[i], k) in links
      ensures nodes[At(tries[i], k)].left == At(tries[i], 2 * k) && nodes[At(tries[i], k)].right == At(tries[i], 2 * k + 1)
      ensures 2 * k in tries[i] <==> At(tries[i], 2 * k) != 0
      ensures 2 * k + 1 in tries[i] <==> At(tries[i], 2 * k + 1) != 0
      ensures links[At(tries[i], k)].next in links
      ensures At(tries[i], k) in free && 256 <= free[At(tries[i], k)] < WORD
      ensures Abstract(i, tries[i], free) && Log2(k) <= Width(i)
    {
      hide SmallBin, Pos, Ring, TreeIndex, Rep, Pow2, Differ;
      var c := tries[i];
      assert TreeBin(i, c, free, links, nodes, treemap, treebins[i]);
      Neighbours(i, c, free, links, nodes, treebins[i], k);
      TrieRing(i, c, free, links, nodes, treebins[i], k);
      PosKey(i, c, free, k);
      KeyBounds(free[At(c, k)]);
      UnderLog(Key(i, free[At(c, k)]), k);
    }

    lemma RootOf(i: nat)
      requires BinsValid() && i < NBINS
      ensures |tries| == NBINS == |treebins|
      ensures treebins[i] == At(tries[i], 1) && (Marked(treemap, i) <==> 1 in tries[i])
      ensures 1 in tries[i] <==> treebins[i] != 0
      ensures Abstract(i, tries[i], free)
      ensures treebins[i] == 0 ==> tries[i] == map[]
    {
      hide SmallBin, Ring, TreeIndex, Rep, Differ, Pos;
      var c := tries[i];
      assert TreeBin(i, c, free, links, nodes, treemap, treebins[i]);
      if 1 in c { PosKey(i, c, free, 1); } else { EmptyTrie(i, c, free); }
    }

    // ---------------- the chunks of one size ----------------

    lemma SameSizes(i: nat, k: nat)
      requires BinsValid() && i < NBINS && k in tries[i]
      ensures forall a :: a in tries[i][k] <==> a in free && At(tries[i], k) in free && free[a] == free[At(tries[i], k)]
    {
      hide BinsOk, Trie, TreeIndex, Differ, Pos;
      RootOf(i);
      AtNode(i, k);
      NodeIndex(i, k);
      forall a | a in tries[i][k] ensures a in free && free[a] == free[At(tries[i], k)] { MemberSize(i, tries[i], free, k, a); }
      forall a | a in free && free[a] == free[At(tries[i], k)] ensures a in tries[i][k] {
        var i1, k1, j := TreePosition(a);
        MemberSize(i, tries[i], free, k1, a);
        assert Differ(tries[i], free, k1, k);
        OnePlace(i, k1, k);
      }
    }

    lemma OnePlace(i: nat, j: nat, k: nat)
      requires BinsValid() && i < NBINS && j in tries[i] && k in tries[i]
      requires At(tries[i], j) in free && At(tries[i], k) in free && free[At(tries[i], j)] == free[At(tries[i], k)]
      ensures j == k
    {
      hide BinsOk, Trie, TreeIndex, Pos;
      RootOf(i);
      assert Differ(tries[i], free, j, k);
    }

    // an empty position on the path of s
    lemma NoneSized(i: nat, n: nat, s: nat)
      requires BinsValid() && i < NBINS && n !in tries[i] && n >= 1 && 256 <= s && TreeIndex(s) == i
      requires Visited(tries[i], free, n, s) && SizeAt(i, s, n)
      ensures forall a :: a in free ==> free[a] != s
    {
      hide BinsOk, Trie, TreeIndex, Differ, Pos, SizeAt, Visited;
      RootOf(i);
      NoneOfSize(i, tries[i], free, s, n);
      forall a | a in free ensures free[a] != s {
        if free[a] == s {
          var i1, k1, j := TreePosition(a);
          MemberSize(i, tries[i], free, k1, a);
        }
      }
    }

    lemma Planted(i: nat, n: nat, x: Addr, s: nat)
      requires BinsValid() && i < NBINS && n !in tries[i] && n >= 1 && 256 <= s && TreeIndex(s) == i
      requires Visited(tries[i], free, n, s) && SizeAt(i, s, n)
      ensures Entered(tries, tries[i := Put(tries[i], n, [x])], free, x, s)
    {
      hide Visited, SizeAt, TreeIndex;
      NoneSized(i, n, s);
      RootOf(i);
      hide BinsOk, Entered;
      PlantAge(tries, free, i, n, x, s);
    }

    // a leaf with one chunk goes
    lemma LeafGone(i: nat, k: nat)
      requires BinsValid() && i < NBINS && k in tries[i] && |tries[i][k]| == 1 && Leaf(tries[i], k)
      ensures Gone(tries, tries[i := if k == 1 then map[] else tries[i] - {k}], tries[i][k][0])
    {
      hide Trie, TreeIndex, Gone, OnlyAt, SmallBin;
      RootOf(i);
      Placement(i, k, 0);
      assert TreeBin(i, tries[i], free, links, nodes, treemap, treebins[i]);
      if k == 1 { RemoveRoot(i, tries[i], free, links, nodes, treebins[i]); }
      DropAge(tries, i, k, if k == 1 then map[] else tries[i] - {k});
    }

    // each chunk of a bin is there once
    lemma Placement(i: nat, k: nat, j: nat)
      requires BinsValid() && i < NBINS && k in tries[i] && j < |tries[i][k]|
      ensures Distinct(tries[i][k]) && OnlyAt(tries, i, k, tries[i][k][j])
    {
      hide SmallBin, Pos, Ring, TreeIndex, Differ, Trie, Distinct;
      var x := tries[i][k][j];
      assert TreeBin(i, tries[i], free, links, nodes, treemap, treebins[i]);
      TrieRing(i, tries[i], free, links, nodes, treebins[i], k);
      RingDistinct(links, tries[i][k]);
      forall m, l | 0 <= m < |tries| && l in tries[m] && x in tries[m][l] ensures m == i && l == k {
        assert TreeBin(m, tries[m], free, links, nodes, treemap, treebins[m]);
        TrieMember(m, tries[m], free, links, nodes, treemap, treebins[m], x);
        TrieMember(i, tries[i], free, links, nodes, treemap, treebins[i], x);
        RootOf(i);
        OnePosition(i, tries[i], free, l, k, x);
      }
    }

    // x becomes the only chunk of an empty bin
    method PlantRoot(i: nat, x: Addr, ghost s: nat)
      requires BinsValid() && x > 0 && x !in free && 256 <= s < WORD && TreeIndex(s) == i && i < NBINS && !Marked(treemap, i)
      modifies this`links, this`nodes, this`treemap, this`treebins, this`tries, this`free
      ensures BinsValid() && free == old(free)[x := s]
      ensures Entered(old(tries), tries, old(free), x, s)
    {
      RootOf(i);
      EmptyBin(i);
      PlantAge(tries, free, i, 1, x, s);
      assert Put(tries[i], 1, [x]) == map[1 := [x]];
      hide Entered;
      InsertFirstOk(small, tries, free, links, nodes, smallmap, treemap, treebins, i, x, s);
      hide BinsOk, Mark;
      treemap := Mark(treemap, i);
      treebins := treebins[i := x];
      nodes := nodes[x := TreeNode(0, 0, Header(i), i)];
      links := links[x := Link(x, x)];
      tries := tries[i := map[1 := [x]]];
      free := free[x := s];
    }

    // *C = X: x becomes child b of the node t at position k
    method PlantLeaf(i: nat, ghost k: nat, t: Addr, b: nat, x: Addr, ghost s: nat)
      requires BinsValid() && x > 0 && x !in free && 256 <= s < WORD && TreeIndex(s) == i && i < NBINS
      requires k in tries[i] && t == At(tries[i], k) && b < 2 && 2 * k + b !in tries[i]
      requires SizeAt(i, s, 2 * k + b) && Visited(tries[i], free, 2 * k + b, s)
      modifies this`links, this`nodes, this`tries, this`free
      ensures BinsValid() && free == old(free)[x := s]
      ensures Entered(old(tries), tries, old(free), x, s)
    {
      Planted(i, 2 * k + b, x, s);
      hide Entered, Visited, SizeAt;
      InsertLeafOk(small, tries, free, links, nodes, smallmap, treemap, treebins, i, k, b, x, s);
      hide BinsOk;
      nodes := nodes[x := TreeNode(0, 0, t, i)];
      nodes := SetChild(nodes, t, b, x);
      links := links[x := Link(x, x)];
      tries := tries[i := Put(tries[i], 2 * k + b, [x])];
      free := free[x := s];
    }

    // x joins the ring of the equal-sized node t at position k
    method Chain(i: nat, ghost k: nat, t: Addr, x: Addr, ghost s: nat)
      requires BinsValid() && x > 0 && x !in free && 256 <= s < WORD && TreeIndex(s) == i && i < NBINS
      requires k in tries[i] && t == At(tries[i], k) && t in free && free[t] == s
      modifies this`links, this`nodes, this`tries, this`free
      ensures BinsValid() && free == old(free)[x := s]
      ensures Entered(old(tries), tries, old(free), x, s)
    {
      SameSizes(i, k);
      InsertChainOk(small, tries, free, links, nodes, smallmap, treemap, treebins, i, k, x, s);
      ChainAge(tries, free, i, k, x, s);
      hide Entered;
      LinkOrder(links, t, x, links[t].next);
      hide BinsOk, SetNext, SetPrev, LinkBetween;
      var f := links[t].next;
      links := SetNext(links, t, x);
      links := SetPrev(links, f, x);
      links := links[x := Link(t, f)];
      nodes := nodes[x := TreeNode(0, 0, 0, i)];
      tries := tries[i := Put(tries[i], k, InsertAt(tries[i][k], 1, x))];
      free := free[x := s];
    }

    method InsertLargeChunk(x: Addr, s: nat)
      requires BinsValid() && x > 0 && x !in free && 256 <= s < WORD && HeadSizes(free, head)
      modifies this`links, this`nodes, this`treemap, this`treebins, this`tries, this`free
      ensures BinsValid() && free == old(free)[x := s]
      ensures Entered(old(tries), tries, old(free), x, s)
    {
      hide Entered, TreeIndex, Marked, BinsOk, Abstract, Pow2, Visited, Key, Under, SizeAt, Register;
      var i := TreeIndex(s);
      StartDescent(s);
      RootOf(i);
      if !Marked(treemap, i) {
        PlantRoot(i, x, s);
      } else {
        var t := treebins[i];
        var bits: nat := (s * Pow2(LeftShift(i))) % WORD;
        ghost var k: nat := 1;
        VisitedRoot(i, tries[i], free, s);
        while true
          invariant BinsValid() && free == old(free) && tries == old(tries) && |tries| == NBINS
          invariant k >= 1 && Key(i, s) > 0 && k in tries[i] && t == At(tries[i], k)
          invariant Register(bits, Key(i, s), k) && Visited(tries[i], free, k, s)
          decreases Width(i) - Log2(k)
        {
          AtNode(i, k);
          if head[t].size != s {
            DescendOn(i, tries[i], free, s, bits, k);
            var b := if bits >= WORD / 2 then 1 else 0;
            var c := if b == 0 then nodes[t].left else nodes[t].right;
            bits := (2 * bits) % WORD;
            if c != 0 {
              t := c;
              k := 2 * k + b;
              AtNode(i, k);
            } else {
              PlantLeaf(i, k, t, b, x, s);
              break;
            }
          } else {
            Chain(i, k, t, x, s);
            break;
          }
        }
      }
    }
  
    // the rightmost-preferring walk to a leaf below the interior node x, with the child
    // slot (rp, side) that points to it
    method DeepestLeaf(x: Addr, ghost i: nat, ghost k: nat) returns (r: Addr, rp: Addr, side: nat, ghost l: nat)
      requires BinsValid() && i < NBINS && k in tries[i] && x == At(tries[i], k) && !Leaf(tries[i], k)
      ensures k >= 1 && Leaf(tries[i], l) && Under(l, k) && l != k && l > 1
      ensures r == At(tries[i], l) && rp == At(tries[i], l / 2) && side == l % 2
    {
      hide TreeIndex, Marked, BinsOk, Abstract, Pow2, Log2, Key;
      RootOf(i);
      AtNode(i, k);
      UnderChild(k);
      rp := x;
      side := 1;
      r := nodes[x].right;
      l := 2 * k + 1;
      if r == 0 {
        side := 0;
        r := nodes[x].left;
        l := 2 * k;
      }
      AtNode(i, l);
      while nodes[r].right != 0 || nodes[r].left != 0
        invariant l in tries[i] && l > 1 && Under(l, k) && l != k && r == At(tries[i], l) && r in nodes
        invariant rp == At(tries[i], l / 2) && side == l % 2
        invariant nodes[r].left == At(tries[i], 2 * l) && nodes[r].right == At(tries[i], 2 * l + 1)
        invariant 2 * l in tries[i] <==> At(tries[i], 2 * l) != 0
        invariant 2 * l + 1 in tries[i] <==> At(tries[i], 2 * l + 1) != 0
        invariant Log2(l) <= Width(i)
        decreases Width(i) - Log2(l)
      {
        ChildLog(l);
        UnderChild(l);
        UnderLe(l, k);
        rp := r;
        if nodes[r].right != 0 {
          side := 1;
          r := nodes[r].right;
          l := 2 * l + 1;
        } else {
          side := 0;
          r := nodes[r].left;
          l := 2 * l;
        }
        UnderTrans(l, l / 2, k);
        AtNode(i, l);
      }
    }

    // The last block of unlink_large_chunk: redirect x's parent (or the bin header) to the
    // replacement r, null if there is none, and hand x's children over to r.
    method Relink(x: Addr, r: Addr, h: nat)
      requires h < |treebins| && h < 32 && x in nodes
      requires r != 0 ==> Separate(nodes, x, r, x == treebins[h])
      requires r == 0 && x != treebins[h] ==> nodes[x].parent in nodes
      modifies this`nodes, this`treebins, this`treemap
      ensures r != 0 ==> nodes == Replant(old(nodes), x, r, x == old(treebins)[h])
      ensures r == 0 ==> nodes == if x == old(treebins)[h] then old(nodes) else
                                  var p := old(nodes)[x].parent;
                                  SetChild(old(nodes), p, if old(nodes)[p].left == x then 0 else 1, 0)
      ensures treebins == if x == old(treebins)[h] then old(treebins)[h := r] else old(treebins)
      ensures treemap == if x == old(treebins)[h] && r == 0 then Clear(old(treemap), h) else old(treemap)
    {
      hide Clear;
      var xp := nodes[x].parent;
      if x == treebins[h] {
        treebins := treebins[h := r];
        if r == 0 {
          treemap := Clear(treemap, h);
        }
      } else {
        nodes := SetChild(nodes, xp, if nodes[xp].left == x then 0 else 1, r);
      }
      if r != 0 {
        nodes := nodes[r := nodes[r].(parent := xp)];
        var c0 := nodes[x].left;
        if c0 != 0 {
          nodes := nodes[r := nodes[r].(left := c0)];
          nodes := nodes[c0 := nodes[c0].(parent := r)];
        }
        var c1 := nodes[x].right;
        if c1 != 0 {
          nodes := nodes[r := nodes[r].(right := c1)];
          nodes := nodes[c1 := nodes[c1].(parent := r)];
        }
      }
    }

    // how the links and tree words of x tell where it sits
    lemma Anatomy(x: Addr, i: nat, k: nat, j: nat)
      requires BinsValid() && i < NBINS && k in tries[i] && j < |tries[i][k]| && tries[i][k][j] == x
      ensures x > 0 && x in links && x in nodes && nodes[x].index == i
      ensures links[x].prev != x <==> |tries[i][k]| > 1
      ensures nodes[x].parent != 0 <==> j == 0
      ensures j == 0 ==> x == At(tries[i], k) && (x == treebins[i] <==> k == 1)
      ensures j == 0 ==> nodes[x].left == At(tries[i], 2 * k) && nodes[x].right == At(tries[i], 2 * k + 1)
      ensures j == 0 ==> (Leaf(tries[i], k) <==> nodes[x].left == 0 && nodes[x].right == 0)
      ensures j == 0 && k > 1 ==> nodes[x].parent == At(tries[i], k / 2)
      ensures k >= 1 && tries[i][k][|tries[i][k]|-1] > 0
    {
      hide SmallBin, Pos, Ring, TreeIndex, Differ;
      var c := tries[i];
      assert TreeBin(i, c, free, links, nodes, treemap, treebins[i]);
      assert Rep(i, c, links, nodes, k);
      AloneRing(links, c[k], j);
      RingIn(links, c[k]);
      assert x in c[k];
      Neighbours(i, c, free, links, nodes, treebins[i], k);
      PosKey(i, c, free, k);
      MemberOf(c, k);
      TrieMember(i, c, free, links, nodes, treemap, treebins[i], x);
      assert c[k][|c[k]|-1] in c[k];
      TrieMember(i, c, free, links, nodes, treemap, treebins[i], c[k][|c[k]|-1]);
      if j == 0 && k != 1 { AtDiffer(i, c, free, k, 1); }
    }

    method UnlinkLargeChunk(x: Addr)
      requires BinsValid() && x in free && free[x] >= 256
      modifies this`links, this`nodes, this`treemap, this`treebins, this`tries, this`free
      ensures BinsValid() && free == old(free) - {x}
      ensures Gone(old(tries), tries, x)
    {
      hide Gone, OnlyAt, Distinct, BinsOk, Trie, TreeIndex, Ring, Bypass, SetNext, SetPrev, Replant, Separate, Clear, Log2, Pow2;
      ghost var i, k, j := TreePosition(x);
      RootOf(i);
      Anatomy(x, i, k, j);
      Placement(i, k, j);
      ghost var c := tries[i];
      assert treebins[i := treebins[i]] == treebins;
      var xp := nodes[x].parent;
      var h := nodes[x].index;
      var r;
      if links[x].prev != x {
        if j > 0 {
          UnlinkChainedOk(small, tries, free, links, nodes, smallmap, treemap, treebins, i, k, j);
        } else {
          UnlinkHeadOk(small, tries, free, links, nodes, smallmap, treemap, treebins, i, k);
        }
        CutAge(tries, i, k, j);
        tries := tries[i := Put(c, k, if j > 0 then RemoveAt(c[k], j) else Rehead(c[k]))];
        BypassOrder(links, x);
        var f := links[x].next;
        r := links[x].prev;
        links := SetPrev(links, f, r);
        links := SetNext(links, r, f);
      } else if nodes[x].right != 0 || nodes[x].left != 0 {
        var rp, side;
        ghost var l;
        r, rp, side, l := DeepestLeaf(x, i, k);
        UnlinkInteriorOk(small, tries, free, links, nodes, smallmap, treemap, treebins, i, k, l);
        AtNode(i, l);
        nodes := SetChild(nodes, rp, side, 0);
        MoveAge(tries, i, k, l);
        tries := tries[i := Put(c - {l}, k, c[l])];
      } else {
        r := 0;
        if k == 1 {
          UnlinkRootOk(small, tries, free, links, nodes, smallmap, treemap, treebins, i);
        } else {
          UnlinkLeafOk(small, tries, free, links, nodes, smallmap, treemap, treebins, i, k);
        }
        LeafGone(i, k);
        tries := tries[i := if k == 1 then map[] else c - {k}];
      }
      if xp != 0 {
        Relink(x, r, h);
      }
      free := free - {x};
    }
  
    // ---------------- searching the tree bins ----------------

    // v is null, or a chunk of bin i with rsize bytes more than nb; rsize starts out as -nb
    ghost predicate Candidate(i: nat, v: Addr, rsize: nat, nb: nat)
      reads this`free, this`tries
    {
      && nb < WORD
      && (v == 0 ==> rsize == WORD - nb)
      && (v != 0 ==> v in free && 256 <= free[v] < WORD && TreeIndex(free[v]) == i && free[v] >= nb && rsize == free[v] - nb)
      && (v != 0 ==> i < |tries| && InTree(tries[i], v))
    }

    // the comparison `trem < rsize` on unsigned words, at the node of position k
    lemma Compare(i: nat, k: nat, nb: nat, v: Addr, rsize: nat)
      requires BinsValid() && HeadSizes(free, head) && i < NBINS && k in tries[i] && Candidate(i, v, rsize, nb)
      ensures var t := At(tries[i], k);
              && t in head && t in free && t > 0 && SizeOf(tries[i], free, k) == free[t] == head[t].size
              && (var trem := (head[t].size - nb) % WORD;
                  && (trem < rsize <==> free[t] >= nb && free[t] - nb < rsize)
                  && (trem < rsize ==> trem == free[t] - nb && Candidate(i, t, trem, nb)))
    {
      hide BinsOk, Abstract, Log2, TreeIndex;
      RootOf(i);
      AtNode(i, k);
      NodeIndex(i, k);
      assert InTree(tries[i], At(tries[i], k));
    }

    lemma NodeIndex(i: nat, k: nat)
      requires BinsValid() && i < NBINS && k in tries[i]
      ensures At(tries[i], k) in free && TreeIndex(free[At(tries[i], k)]) == i
    {
      hide SmallBin, Pos, Rep, Ring;
      assert TreeBin(i, tries[i], free, links, nodes, treemap, treebins[i]);
      PosKey(i, tries[i], free, k);
    }

    // tmalloc_large: follow the bits of nb, remembering the deepest untaken right subtree
    method WalkBits(i: nat, nb: nat) returns (t: Addr, v: Addr, rsize: nat, ghost k: nat)
      requires BinsValid() && HeadSizes(free, head) && 256 <= nb < WORD && i == TreeIndex(nb) < NBINS && treebins[i] != 0
      ensures Candidate(i, v, rsize, nb) && t == (if k == 0 then 0 else At(tries[i], k)) && (k != 0 ==> k in tries[i])
      ensures Remaining(tries[i], free, nb, rsize + nb, k)
      ensures SubtreeFits(tries[i], free, nb, k) || rsize == 0
    {
      hide BinsOk, Abstract, Log2, TreeIndex, Pow2, Key, Register, Under, Candidate, AllAhead, Untaken, Remaining, SubtreeFits;
      StartDescent(nb);
      RootOf(i);
      v := 0;
      rsize := WORD - nb;
      t := treebins[i];
      k := 1;
      var sizebits: nat := (nb * Pow2(LeftShift(i))) % WORD;
      var rst := 0;
      ghost var rk: nat := 0;
      StartAhead(i, tries[i], free, nb);
      StartCandidate(i, nb);
      while true
        invariant |tries| == NBINS && k >= 1 && Key(i, nb) > 0 && k in tries[i] && t == At(tries[i], k)
        invariant Register(sizebits, Key(i, nb), k) && Candidate(i, v, rsize, nb) && rsize > 0
        invariant Untaken(i, tries[i], nb, k, rk) && AllAhead(tries[i], free, nb, rsize + nb, k, rk)
        invariant rst == (if rk == 0 then 0 else At(tries[i], rk)) && (rk != 0 ==> rk in tries[i])
        decreases Width(i) - Log2(k)
      {
        AtNode(i, k);
        Compare(i, k, nb, v, rsize);
        var trem := (head[t].size - nb) % WORD;
        ghost var best := rsize + nb;
        if trem < rsize {
          v := t;
          rsize := trem;
          if rsize == 0 {
            ExactMatch(tries[i], free, nb, k);
            break;
          }
        }
        NextBit(i, k, nb, sizebits, best, rsize + nb, rk);
        var rt := nodes[t].right;
        var b := if sizebits >= WORD / 2 then 1 else 0;
        t := if b == 0 then nodes[t].left else nodes[t].right;
        if rt != 0 && rt != t {
          rst := rt;
        }
        rk := if b == 0 && 2 * k + 1 in tries[i] then 2 * k + 1 else rk;
        k := 2 * k + b;
        if t == 0 {
          WalkEnd(i, tries[i], free, nb, rsize + nb, k, rk);
          t := rst;
          k := rk;
          break;
        }
        sizebits := (2 * sizebits) % WORD;
        AtNode(i, k);
      }
    }

    lemma NextBit(i: nat, k: nat, nb: nat, sizebits: nat, best: nat, best': nat, rk: nat)
      requires BinsValid() && i < NBINS && k in tries[i] && 256 <= nb < WORD && TreeIndex(nb) == i && Key(i, nb) > 0
      requires Register(sizebits, Key(i, nb), k) && SizeOf(tries[i], free, k) != nb
      requires Untaken(i, tries[i], nb, k, rk) && AllAhead(tries[i], free, nb, best, k, rk)
      requires best' <= best && (SizeOf(tries[i], free, k) >= nb ==> best' <= SizeOf(tries[i], free, k))
      ensures sizebits < WORD
      ensures var b := if sizebits >= WORD / 2 then 1 else 0;
              var rk' := if b == 0 && 2 * k + 1 in tries[i] then 2 * k + 1 else rk;
              && Register((2 * sizebits) % WORD, Key(i, nb), 2 * k + b) && Log2(2 * k + b) == Log2(k) + 1
              && Untaken(i, tries[i], nb, 2 * k + b, rk') && AllAhead(tries[i], free, nb, best', 2 * k + b, rk')
      ensures 2 * k in tries[i] && 2 * k + 1 in tries[i] ==> At(tries[i], 2 * k) != At(tries[i], 2 * k + 1)
      ensures k >= 1 && Log2(k) < Width(i)
    {
      hide BinsOk, Log2, TreeIndex, Pow2, Key, Register, Under, AllAhead, Untaken, Abstract;
      RootOf(i);
      AtNode(i, k);
      RegisterUnder(sizebits, Key(i, nb), k);
      NotAtKey(i, tries[i], free, nb, k);
      RegisterStep(sizebits, Key(i, nb), k);
      ChildLog(k);
      KeyBounds(nb);
      WalkStep(i, tries[i], free, nb, best, best', k, rk, if sizebits >= WORD / 2 then 1 else 0);
      if 2 * k in tries[i] && 2 * k + 1 in tries[i] { AtDiffer(i, tries[i], free, 2 * k, 2 * k + 1); }
    }

    lemma StartCandidate(i: nat, nb: nat)
      requires nb < WORD
      ensures Candidate(i, 0, WORD - nb, nb)
    {}

    // "find smallest of tree or subtree": the walk along leftmost children from position k
    method WalkLeftmost(i: nat, t0: Addr, v0: Addr, rsize0: nat, nb: nat, ghost k0: nat) returns (v: Addr, rsize: nat)
      requires BinsValid() && HeadSizes(free, head) && i < NBINS && Candidate(i, v0, rsize0, nb)
      requires t0 == (if k0 == 0 then 0 else At(tries[i], k0)) && (k0 != 0 ==> k0 in tries[i])
      requires Remaining(tries[i], free, nb, rsize0 + nb, k0)
      requires SubtreeFits(tries[i], free, nb, k0) || rsize0 == 0
      ensures Candidate(i, v, rsize, nb) && Bounded(i, free, nb, rsize + nb)
      ensures v == 0 ==> k0 == 0 && v0 == 0
    {
      hide BinsOk, Abstract, Log2, TreeIndex, Under, Remaining, SubtreeFits, LeftmostChild, Bounded;
      var t := t0;
      ghost var k := k0;
      v, rsize := v0, rsize0;
      RootOf(i);
      while t != 0
        invariant |tries| == NBINS && Candidate(i, v, rsize, nb) && t == (if k == 0 then 0 else At(tries[i], k))
        invariant k != 0 ==> k in tries[i]
        invariant Remaining(tries[i], free, nb, rsize + nb, k)
        invariant SubtreeFits(tries[i], free, nb, k) || rsize == 0
        invariant v == 0 ==> k == k0 && v0 == 0
        decreases k != 0, Width(i) - (if k == 0 then 0 else Log2(k))
      {
        AtNode(i, k);
        Compare(i, k, nb, v, rsize);
        var trem := (head[t].size - nb) % WORD;
        ghost var best := rsize + nb;
        if trem < rsize {
          rsize := trem;
          v := t;
        }
        HereFits(tries[i], free, nb, k);
        LeftmostStep(i, tries[i], free, nb, best, rsize + nb, k);
        LeftmostOf(tries[i], k);
        t := if nodes[t].left != 0 then nodes[t].left else nodes[t].right;
        k := LeftmostChild(tries[i], k);
        if k != 0 { AtNode(i, k); }
      }
      if k != 0 { AtNode(i, k); }
      AllBinned(i);
      BoundedBin(i, tries[i], free, nb, rsize + nb);
    }

    lemma AllBinned(i: nat)
      requires BinsValid() && i < NBINS
      ensures forall a :: a in free && free[a] >= 256 && TreeIndex(free[a]) == i ==> Member(tries[i], a)
      ensures forall a :: a in free && free[a] >= 256 ==> free[a] < WORD
    {
      hide SmallBin, TreeBin, TreeIndex, Member;
      forall a | a in free && free[a] >= 256 ensures free[a] < WORD && (TreeIndex(free[a]) == i ==> Member(tries[i], a)) {
        assert Binned(small, tries, a, free[a]);
      }
    }
  
    lemma EmptyBin(i: nat)
      requires BinsValid() && i < NBINS && treebins[i] == 0
      ensures forall a :: a in free && free[a] >= 256 ==> TreeIndex(free[a]) != i
    {
      hide BinsOk, TreeIndex;
      AllBinned(i);
      RootOf(i);
    }

    // the first non-empty tree bin above idx, by the bit tricks on treemap
    method NextTreeBin(idx: nat) returns (found: bool, i: nat)
      requires BinsValid() && idx < NBINS
      ensures found ==> idx < i < NBINS && treebins[i] != 0
      ensures forall j :: idx < j < NBINS && (found ==> j < i) ==> treebins[j] == 0
    {
      BinsAbove(treemap, idx);
      hide BinsOk, Marked, LeastBit, LeftBits, And, Ctz;
      var leftbits := And(LeftBits(Idx2Bit(idx)), treemap);
      found, i := leftbits != 0, 0;
      if leftbits != 0 {
        LowestBin(leftbits);
        i := Ctz(LeastBit(leftbits));
      } else {
        ZeroMap(leftbits);
      }
      forall j | 0 <= j < NBINS ensures Marked(treemap, j) <==> treebins[j] != 0 { RootOf(j); }
    }

    // The search of tmalloc_large: a smallest chunk that fits, over all tree bins.
    method FindBest(nb: nat) returns (v: Addr, rsize: nat)
      requires BinsValid() && HeadSizes(free, head) && 256 <= nb < WORD
      ensures v == 0 ==> NoLarge(free, nb) && rsize == WORD - nb
      ensures v != 0 ==> BestLarge(free, v, nb) && rsize == free[v] - nb && Oldest(tries, v)
    {
      hide InTree, Oldest, BinsOk, TreeIndex, Remaining, SubtreeFits, Candidate, Bounded, BestLarge, NoLarge, Abstract;
      IndexBounds(nb);
      var idx := TreeIndex(nb);
      RootOf(idx);
      v := 0;
      rsize := WORD - nb;
      var t := treebins[idx];
      ghost var k := 0;
      ghost var bin := idx;
      StartCandidate(idx, nb);
      if t != 0 {
        t, v, rsize, k := WalkBits(idx, nb);
      } else {
        RemainingNone(tries[idx], free, nb, WORD);
      }
      CandidateSize(idx, v, rsize, nb);
      if k != 0 { AtNode(idx, k); }
      if t == 0 && v == 0 {
        AllBinned(idx);
        BoundedBin(idx, tries[idx], free, nb, WORD);
        var found, i := NextTreeBin(idx);
        if found {
          t := treebins[i];
          bin := i;
          k := 1;
          RootOf(i);
          StartCandidate(i, nb);
          WholeBin(i, nb);
          v, rsize := WalkLeftmost(i, t, v, rsize, nb, k);
          CandidateSize(i, v, rsize, nb);
          BinsUpTo(idx, i, nb);
          BestOf(i, v, rsize, nb);
          NodeFirst(i, v);
        } else {
          BinsUpTo(idx, NBINS, nb);
          NoneLarge(nb);
        }
      } else {
        v, rsize := WalkLeftmost(idx, t, v, rsize, nb, k);
        CandidateSize(idx, v, rsize, nb);
        BelowOwnBin(nb);
        BestOf(idx, v, rsize, nb);
        NodeFirst(idx, v);
      }
    }

    lemma CandidateSize(i: nat, v: Addr, rsize: nat, nb: nat)
      requires Candidate(i, v, rsize, nb)
      ensures nb < WORD && (v == 0 ==> rsize == WORD - nb)
      ensures v != 0 ==> v in free && 256 <= free[v] && nb <= free[v] < WORD && TreeIndex(free[v]) == i && rsize == free[v] - nb
      ensures v != 0 ==> i < |tries| && InTree(tries[i], v)
    {}

    // of the chunks of its size, the one in the tree is the oldest
    lemma NodeFirst(i: nat, v: Addr)
      requires BinsValid() && i < NBINS && InTree(tries[i], v)
      ensures Oldest(tries, v)
    {
      hide BinsOk, Oldest, OnlyAt, Distinct;
      RootOf(i);
      var k :| k in tries[i] && v == At(tries[i], k);
      AtNode(i, k);
      Placement(i, k, 0);
      NodeOldest(tries, i, k);
    }

    // chunks of the bins below the request's own are too small
    lemma BelowOwnBin(nb: nat)
      requires BinsValid() && 256 <= nb < WORD
      ensures forall a :: a in free && free[a] >= 256 && TreeIndex(free[a]) < TreeIndex(nb) ==> free[a] < nb
    {
      hide BinsOk, TreeIndex;
      AllBinned(0);
      forall a | a in free && free[a] >= 256 && TreeIndex(free[a]) < TreeIndex(nb) ensures free[a] < nb {
        BinsBelow(free[a], nb);
      }
    }

    // nothing in the request's own bin fits, and the bins between idx and i are empty
    lemma BinsUpTo(idx: nat, i: nat, nb: nat)
      requires BinsValid() && 256 <= nb < WORD && idx == TreeIndex(nb) < i <= NBINS && Bounded(idx, free, nb, WORD)
      requires forall j :: idx < j < i ==> treebins[j] == 0
      ensures forall a :: a in free && free[a] >= 256 && TreeIndex(free[a]) < i ==> free[a] < nb
    {
      hide BinsOk, TreeIndex;
      AllBinned(0);
      RootOf(0);
      BelowOwnBin(nb);
      forall a | a in free && free[a] >= 256 && TreeIndex(free[a]) < i ensures free[a] < nb {
        if idx < TreeIndex(free[a]) { EmptyBin(TreeIndex(free[a])); }
      }
    }

    lemma NoneLarge(nb: nat)
      requires BinsValid()
      requires forall a :: a in free && free[a] >= 256 && TreeIndex(free[a]) < NBINS ==> free[a] < nb
      ensures NoLarge(free, nb)
    {
      hide BinsOk, TreeIndex;
      AllBinned(0);
      forall a | a in free && free[a] >= 256 ensures TreeIndex(free[a]) < NBINS { IndexBounds(free[a]); }
    }

    lemma BestOf(i: nat, v: Addr, rsize: nat, nb: nat)
      requires BinsValid() && v in free && 256 <= free[v] && free[v] >= nb && TreeIndex(free[v]) == i && rsize == free[v] - nb
      requires Bounded(i, free, nb, rsize + nb)
      requires forall a :: a in free && free[a] >= 256 && TreeIndex(free[a]) < i ==> free[a] < nb
      ensures BestLarge(free, v, nb)
    {
      hide BinsOk, TreeIndex, BestLarge;
      AllSizes();
      BestOverall(free, v, nb, i);
    }

    lemma AllSizes()
      requires BinsValid()
      ensures forall a :: a in free ==> a > 0 && MIN_CHUNK_SIZE <= free[a] < WORD
    {
      hide SmallBin, TreeBin, TreeIndex, Member;
      forall a | a in free ensures a > 0 && MIN_CHUNK_SIZE <= free[a] < WORD {
        assert Binned(small, tries, a, free[a]);
      }
    }

    // a bin above the request's own: everything in it fits
    lemma WholeBin(i: nat, nb: nat)
      requires BinsValid() && 256 <= nb < WORD && TreeIndex(nb) < i < NBINS
      ensures Remaining(tries[i], free, nb, WORD, 1) && SubtreeFits(tries[i], free, nb, 1)
    {
      hide BinsOk, TreeIndex, SizeOf, Pos, Differ;
      RootOf(i);
      forall j | j in tries[i] ensures Left(tries[i], free, WORD, 1, j) && SizeOf(tries[i], free, j) >= nb {
        AtNode(i, j);
        NodeIndex(i, j);
        UnderRoot(j);
        BinsBelow(free[At(tries[i], j)], nb);
        assert SizeOf(tries[i], free, j) == free[At(tries[i], j)] by { SizeOfAt(tries[i], free, j); }
      }
    }

    // ---------------- bins of either sort ----------------

    method InsertChunk(p: Addr, s: nat)
      requires BinsValid() && p > 0 && p !in free && MIN_CHUNK_SIZE <= s < WORD && s % 8 == 0 && HeadSizes(free, head)
      modifies this`links, this`nodes, this`smallmap, this`treemap, this`treebins, this`small, this`tries, this`free
      ensures BinsValid() && free == old(free)[p := s]
      ensures if s >= 256 then small == old(small) && Entered(old(tries), tries, old(free), p, s)
              else tries == old(tries) && |old(small)| == NBINS && small == old(small)[s / 8 := [p] + old(small)[s / 8]]
    {
      hide Entered, BinsOk;
      if s / 8 < NBINS {
        InsertSmallChunk(p, s);
      } else {
        InsertLargeChunk(p, s);
      }
    }

    method UnlinkChunk(p: Addr, s: nat)
      requires BinsValid() && p in free && free[p] == s
      modifies this`links, this`nodes, this`smallmap, this`treemap, this`treebins, this`small, this`tries, this`free
      ensures BinsValid() && free == old(free) - {p}
      ensures if s >= 256 then small == old(small) && Gone(old(tries), tries, p)
              else tries == old(tries) && |old(small)| == NBINS && Extracted(old(small)[s / 8], p, small, old(small), s / 8)
    {
      hide Gone, Extracted, BinsOk;
      if s / 8 < NBINS {
        UnlinkSmallChunk(p, s);
      } else {
        UnlinkLargeChunk(p);
      }
    }

    lemma ValidFacts()
      requires Valid()
      ensures HeadSizes(free, head) && free == FreeOf(ch) && Geo(ch) && Tags(ch, head, foot)
      ensures DvOk(ch, dv, dvsize) && TopOk(ch, top, topsize)
      ensures forall v :: v in free ==> v in ch && ch[v] == Chunk(free[v], Free) && v != dv && v != top
      ensures dv !in free && top !in free && dvsize % 8 == 0 && topsize % 8 == 0
      ensures dvsize == 0 || MIN_CHUNK_SIZE <= dvsize < WORD
      ensures topsize < WORD
      ensures forall a :: a in free ==> a > 0 && MIN_CHUNK_SIZE <= free[a] < WORD
    {
      hide BinsOk, Geo, Tags;
      FreeSizes(ch, head, foot);
      AllSizes();
      if dvsize > 0 { LooseFacts(ch, head, foot, dv); }
      if topsize > 0 { LooseFacts(ch, head, foot, top); }
    }

    // ---------------- taking a binned chunk ----------------

    // the two ways to hand out the large binned chunk v: whole, or split with the
    // remainder going back to a bin
    method TakeBinned(v: Addr, s: nat)
      requires Valid() && v in free && free[v] == s && s >= 256
      modifies this
      ensures Ground() == old(Ground())
      ensures Valid() && dv == old(dv) && dvsize == old(dvsize) && top == old(top) && topsize == old(topsize)
      ensures LiveOf(ch) == old(LiveOf(ch))[v := s] && free == old(free) - {v}
    {
      hide Entered, Gone, Extracted, BinsOk, HeapOk, SetInuseAndPinuse, LiveOf, ExtentOf, Ground;
      GroundIs();
      TakeFreeOk(ch, head, foot, free, dv, dvsize, top, topsize, v);
      UnlinkLargeChunk(v);
      head := SetInuseAndPinuse(head, v, s);
      ch := ch[v := Chunk(s, Used)];
      GroundIs();
    }

    method CarveBinned(v: Addr, nb: nat, rsize: nat)
      requires Valid() && v in free && free[v] == rsize + nb && free[v] >= 256
      requires nb % 8 == 0 && MIN_CHUNK_SIZE <= nb && MIN_CHUNK_SIZE <= rsize
      modifies this
      ensures Ground() == old(Ground())
      ensures Valid() && dv == old(dv) && dvsize == old(dvsize) && top == old(top) && topsize == old(topsize)
      ensures LiveOf(ch) == old(LiveOf(ch))[v := nb] && free == (old(free) - {v})[v + nb := rsize]
    {
      hide Entered, Gone, Extracted, BinsOk, HeapOk, LiveOf, HeadSizes, ExtentOf, Ground;
      GroundIs();
      CarveFreeOk(ch, head, foot, free, dv, dvsize, top, topsize, v, nb);
      UnlinkLargeChunk(v);
      var r := v + nb;
      head := head[v := Head(nb, true, true)];
      head := head[r := Head(rsize, false, true)];
      foot := foot[r + rsize := rsize];
      ch := ch[v := Chunk(nb, Used)][r := Chunk(rsize, Free)];
      InsertChunk(r, rsize);
      GroundIs();
    }

    // tmalloc_large. It declines (0) when dv fits at least as well as every tree chunk.
    method TmallocLarge(nb: nat) returns (mem: Addr)
      requires Valid() && 256 <= nb < WORD && nb % 8 == 0
      modifies this
      ensures Ground() == old(Ground())
      ensures Valid() && dv == old(dv) && dvsize == old(dvsize) && top == old(top) && topsize == old(topsize)
      ensures mem == 0 ==> free == old(free) && ch == old(ch)
      ensures mem != 0 ==> mem > 8
      ensures mem == 0 ==> NoLarge(free, nb) || (nb <= dvsize && forall a :: a in free && free[a] >= nb ==> dvsize <= free[a] || free[a] < 256)
      ensures mem != 0 ==> var v := mem - 8;
                && BestLarge(old(free), v, nb) && (nb <= dvsize ==> old(free)[v] < dvsize) && Oldest(old(tries), v)
                && Served(old(Held()), Held(), nb, v)
                && LiveOf(ch) == old(LiveOf(ch))[v := if old(free)[v] - nb < MIN_CHUNK_SIZE then old(free)[v] else nb]
    {
      hide Oldest, BinsOk, HeapOk, NoLarge, ExtentOf, Ground;
      ValidFacts();
      var v, rsize := FindBest(nb);
      if v != 0 && rsize < (dvsize - nb) % WORD {
        if rsize < MIN_CHUNK_SIZE {
          TakeBinned(v, rsize + nb);
        } else {
          CarveBinned(v, nb, rsize);
        }
        return v + 8;
      }
      return 0;
    }

    // ---------------- small requests ----------------

    lemma SmallFirst(i: nat)
      requires BinsValid() && i < NBINS && Marked(smallmap, i)
      ensures |small| == NBINS && |small[i]| > 0
      ensures SmallHeader(i) in links && links[SmallHeader(i)].next == small[i][0]
      ensures small[i][0] in links && links[small[i][0]].prev == SmallHeader(i)
      ensures small[i][0] in free && free[small[i][0]] == 8 * i && small[i][0] > 0
    {
      hide TreeBin, Ring, Marked;
      assert SmallBin(i, small[i], free, links, smallmap);
      HeadLink(links, SmallHeader(i), small[i]);
      PopRing(links, SmallHeader(i), small[i], 0);
      assert small[i][0] in small[i];
    }

    // unlink_first_small_chunk
    method UnlinkFirstSmallChunk(i: nat) returns (p: Addr)
      requires BinsValid() && i < NBINS && Marked(smallmap, i)
      modifies this`links, this`smallmap, this`small, this`free
      ensures |old(small)| == NBINS && |old(small)[i]| > 0 && p == old(small)[i][0]
      ensures BinsValid() && p in old(free) && old(free)[p] == 8 * i && free == old(free) - {p}
      ensures small == old(small)[i := old(small)[i][1..]]
    {
      SmallFirst(i);
      UnlinkSmallOk(small, tries, free, links, nodes, smallmap, treemap, treebins, i, 0);
      hide Marked, Clear, Ring, BinsOk, SetNext, SetPrev, Bypass;
      var b := SmallHeader(i);
      p := links[b].next;
      BypassOrder(links, p);
      var f := links[p].next;
      if b == f {
        smallmap := Clear(smallmap, i);
      } else {
        links := SetPrev(links, f, b);
        links := SetNext(links, b, f);
      }
      assert RemoveAt(small[i], 0) == small[i][1..];
      small := small[i := RemoveAt(small[i], 0)];
      free := free - {p};
    }

    // replace_dv
    method ReplaceDv(p: Addr, s: nat)
      requires BinsValid() && dvsize < 256
      requires dvsize > 0 ==> dv > 0 && dv !in free && dvsize % 8 == 0 && dvsize >= MIN_CHUNK_SIZE
      modifies this`links, this`smallmap, this`small, this`free, this`dv, this`dvsize
      ensures BinsValid() && dv == p && dvsize == s
      ensures free == if old(dvsize) > 0 then old(free)[old(dv) := old(dvsize)] else old(free)
    {
      hide Entered, Gone, Extracted;
      var dvs := dvsize;
      if dvs != 0 {
        InsertSmallChunk(dv, dvs);
      }
      dvsize := s;
      dv := p;
    }

    // split the (already unlinked) chunk v, keeping the remainder as designated victim
    method CarveToDv(v: Addr, nb: nat, rsize: nat, ghost free0: Sizes)
      requires BinsValid() && HeapOk(ch, head, foot, free0, dv, dvsize, top, topsize) && v in free0 && free == free0 - {v}
      requires free0[v] == rsize + nb && nb % 8 == 0 && MIN_CHUNK_SIZE <= nb && MIN_CHUNK_SIZE <= rsize && dvsize < 256
      modifies this
      ensures Ground() == old(Ground())
      ensures Valid() && top == old(top) && topsize == old(topsize)
      ensures LiveOf(ch) == old(LiveOf(ch))[v := nb] && v !in old(LiveOf(ch))
      ensures dv == v + nb && dvsize == rsize
      ensures free == if old(dvsize) > 0 then old(free)[old(dv) := old(dvsize)] else old(free)
    {
      hide Entered, Gone, Extracted, BinsOk, HeapOk, LiveOf, ExtentOf, Ground;
      CutForDv(v, nb, rsize, free0);
      GroundIs();
      ReplaceDv(v + nb, rsize);
      Join();
      GroundIs();
    }

    // the words of the two parts of v
    method CutForDv(v: Addr, nb: nat, rsize: nat, ghost free0: Sizes)
      requires HeapOk(ch, head, foot, free0, dv, dvsize, top, topsize) && v in free0 && free == free0 - {v}
      requires free0[v] == rsize + nb && nb % 8 == 0 && MIN_CHUNK_SIZE <= nb && MIN_CHUNK_SIZE <= rsize
      modifies this`head, this`foot, this`ch
      ensures Ground() == old(Ground())
      ensures LiveOf(ch) == old(LiveOf(ch))[v := nb] && v !in old(LiveOf(ch)) && v + nb > 0
      ensures dvsize > 0 ==> dv > 0 && dv !in free && dvsize % 8 == 0 && dvsize >= MIN_CHUNK_SIZE
      ensures HeapOk(ch, head, foot, if dvsize > 0 then free[dv := dvsize] else free, v + nb, rsize, top, topsize)
    {
      hide *;
      GroundIs();
      CarveToDvOk(ch, head, foot, free0, dv, dvsize, top, topsize, v, nb);
      var r := v + nb;
      head := head[v := Head(nb, true, true)][r := Head(rsize, false, true)];
      foot := foot[r + rsize := rsize];
      ch := (if dvsize > 0 then ch[dv := Chunk(dvsize, Free)] else ch)[v := Chunk(nb, Used)][r := Chunk(rsize, Dv)];
      GroundIs();
    }

    // The search of tmalloc_small: the smallest chunk of all tree bins.
    method FindSmallest(nb: nat) returns (v: Addr, rsize: nat)
      requires BinsValid() && HeadSizes(free, head) && treemap != 0 && nb < 256
      ensures BestLarge(free, v, nb) && rsize == free[v] - nb && Oldest(tries, v)
    {
      hide InTree, Oldest, BinsOk, TreeIndex, Remaining, SubtreeFits, Candidate, Bounded, BestLarge, Abstract, LeftmostChild, Marked, Ctz, LeastBit;
      LowestBin(treemap);
      var i := Ctz(LeastBit(treemap));
      RootOf(i);
      forall j | 0 <= j < i ensures treebins[j] == 0 { RootOf(j); }
      var t := treebins[i];
      AtNode(i, 1);
      WholeTree(i, nb);
      StartCandidate(i, nb);
      Compare(i, 1, nb, 0, WORD - nb);
      v := t;
      rsize := (head[t].size - nb) % WORD;
      LeftmostStep(i, tries[i], free, nb, WORD, rsize + nb, 1);
      LeftmostOf(tries[i], 1);
      t := if nodes[t].left != 0 then nodes[t].left else nodes[t].right;
      v, rsize := WalkLeftmost(i, t, v, rsize, nb, LeftmostChild(tries[i], 1));
      CandidateSize(i, v, rsize, nb);
      FirstBin(i);
      BestOf(i, v, rsize, nb);
      NodeFirst(i, v);
    }

    lemma FirstBin(i: nat)
      requires BinsValid() && i <= NBINS && forall j :: 0 <= j < i ==> treebins[j] == 0
      ensures forall a :: a in free && free[a] >= 256 ==> i <= TreeIndex(free[a])
    {
      hide BinsOk, TreeIndex;
      RootOf(0);
      forall a | a in free && free[a] >= 256 ensures i <= TreeIndex(free[a]) {
        if TreeIndex(free[a]) < i { EmptyBin(TreeIndex(free[a])); }
      }
    }

    lemma WholeTree(i: nat, nb: nat)
      requires BinsValid() && i < NBINS && nb < 256
      ensures Remaining(tries[i], free, nb, WORD, 1) && SubtreeFits(tries[i], free, nb, 1)
    {
      hide BinsOk, TreeIndex, SizeOf, Pos, Differ;
      RootOf(i);
      forall j | j in tries[i] ensures Left(tries[i], free, WORD, 1, j) && SizeOf(tries[i], free, j) >= nb {
        AtNode(i, j);
        UnderRoot(j);
        SizeOfAt(tries[i], free, j);
      }
    }

    method TmallocSmall(nb: nat) returns (mem: Addr)
      requires Valid() && treemap != 0 && MIN_CHUNK_SIZE <= nb < 256 && nb % 8 == 0 && dvsize < nb
      modifies this
      ensures Ground() == old(Ground())
      ensures Valid() && top == old(top) && topsize == old(topsize)
      ensures mem > 8 && BestLarge(old(free), mem - 8, nb) && Oldest(old(tries), mem - 8)
      // a rest of 16 bytes or more is the designated victim, and the one until then is binned
      ensures var v := mem - 8; old(free)[v] >= nb + 16 ==>
        dv == v + nb && dvsize == old(free)[v] - nb && (old(dvsize) > 0 ==> old(dv) in free && free[old(dv)] == old(dvsize))
      ensures Served(old(Held()), Held(), nb, mem - 8)
      ensures LiveOf(ch) == old(LiveOf(ch))[mem - 8 := if old(free)[mem - 8] - nb < MIN_CHUNK_SIZE then old(free)[mem - 8] else nb]
    {
      hide Oldest, BinsOk, HeapOk, LiveOf, ExtentOf, Ground;
      ValidFacts();
      var v, rsize := FindSmallest(nb);
      ghost var free0 := free;
      if rsize < MIN_CHUNK_SIZE {
        TakeBinned(v, rsize + nb);
      } else {
        UnlinkLargeChunk(v);
        CarveToDv(v, nb, rsize, free0);
      }
      mem := v + 8;
    }

    // ---------------- dlmalloc ----------------

    // the first chunk of small bin i, handed out whole
    method TakeSmall(i: nat) returns (p: Addr)
      requires Valid() && i < NBINS && Marked(smallmap, i)
      modifies this
      ensures Ground() == old(Ground())
      ensures Valid() && top == old(top) && topsize == old(topsize)
      ensures |old(small)| == NBINS && |old(small)[i]| > 0 && p == old(small)[i][0] && p > 0
      ensures free == old(free) - {p} && dv == old(dv) && dvsize == old(dvsize)
      ensures p in old(free) && old(free)[p] == 8 * i && LiveOf(ch) == old(LiveOf(ch))[p := 8 * i]
    {
      hide BinsOk, HeapOk, LiveOf, SetInuseAndPinuse, Marked, ExtentOf, Ground;
      GroundIs();
      SmallFirst(i);
      TakeFreeOk(ch, head, foot, free, dv, dvsize, top, topsize, small[i][0]);
      p := UnlinkFirstSmallChunk(i);
      head := SetInuseAndPinuse(head, p, 8 * i);
      ch := ch[p := Chunk(8 * i, Used)];
      GroundIs();
    }

    // the first chunk of small bin i, split
    method CarveSmall(i: nat, nb: nat) returns (p: Addr)
      requires Valid() && i < NBINS && Marked(smallmap, i) && dvsize < nb < 256
      requires nb % 8 == 0 && MIN_CHUNK_SIZE <= nb && nb + MIN_CHUNK_SIZE <= 8 * i
      modifies this
      ensures Ground() == old(Ground())
      ensures Valid() && top == old(top) && topsize == old(topsize)
      ensures |old(small)| == NBINS && |old(small)[i]| > 0 && p == old(small)[i][0] && p > 0
      ensures dv == p + nb && dvsize == 8 * i - nb && (old(dvsize) > 0 ==> old(dv) in free && free[old(dv)] == old(dvsize))
      ensures Served(old(Held()), Held(), nb, p)
      ensures p in old(free) && old(free)[p] == 8 * i && LiveOf(ch) == old(LiveOf(ch))[p := nb]
    {
      hide BinsOk, HeapOk, LiveOf, Marked, ExtentOf, Ground;
      SmallFirst(i);
      ghost var free0 := free;
      p := UnlinkFirstSmallChunk(i);
      CarveToDv(p, nb, 8 * i - nb, free0);
    }

    method AllocFromDv(nb: nat) returns (p: Addr)
      requires Valid() && nb <= dvsize && nb % 8 == 0 && MIN_CHUNK_SIZE <= nb
      modifies this
      ensures Ground() == old(Ground())
      ensures Valid() && top == old(top) && topsize == old(topsize) && free == old(free)
      ensures p == old(dv) && p > 0
      ensures if old(dvsize) < nb + 16 then dv == 0 && dvsize == 0 else dv == p + nb && dvsize == old(dvsize) - nb
      ensures LiveOf(ch) == old(LiveOf(ch))[p := if old(dvsize) - nb < MIN_CHUNK_SIZE then old(dvsize) else nb]
    {
      assert MIN_CHUNK_SIZE == 16;
      hide *;
      p := dv;
      if dvsize - nb >= MIN_CHUNK_SIZE {
        CarveDv(nb);
      } else {
        TakeDv();
      }
    }

    // split dv
    method CarveDv(nb: nat)
      requires Valid() && nb + MIN_CHUNK_SIZE <= dvsize && nb % 8 == 0 && MIN_CHUNK_SIZE <= nb
      modifies this`dv, this`dvsize, this`head, this`foot, this`ch
      ensures Ground() == old(Ground()) && Valid() && old(dv) > 0
      ensures dv == old(dv) + nb && dvsize == old(dvsize) - nb
      ensures LiveOf(ch) == old(LiveOf(ch))[old(dv) := nb]
    {
      hide *;
      GroundIs();
      Split();
      CarveDvOk(ch, head, foot, free, dv, dvsize, top, topsize, nb);
      var p, r, rsize := dv, dv + nb, dvsize - nb;
      dv, dvsize := r, rsize;
      head := head[r := Head(rsize, false, true)][p := Head(nb, true, true)];
      foot := foot[r + rsize := rsize];
      ch := ch[p := Chunk(nb, Used)][r := Chunk(rsize, Dv)];
      Join();
      GroundIs();
    }

    // exhaust dv
    method TakeDv()
      requires Valid() && dvsize > 0
      modifies this`dv, this`dvsize, this`head, this`ch
      ensures Ground() == old(Ground()) && Valid() && old(dv) > 0
      ensures dv == 0 && dvsize == 0
      ensures LiveOf(ch) == old(LiveOf(ch))[old(dv) := old(dvsize)]
    {
      hide *;
      GroundIs();
      Split();
      TakeDvOk(ch, head, foot, free, dv, dvsize, top, topsize);
      var p, dvs := dv, dvsize;
      dv, dvsize := 0, 0;
      head := SetInuseAndPinuse(head, p, dvs);
      ch := ch[p := Chunk(dvs, Used)];
      Join();
      GroundIs();
    }

    method AllocFromTop(nb: nat) returns (p: Addr)
      requires Valid() && nb < topsize && nb % 8 == 0 && MIN_CHUNK_SIZE <= nb
      modifies this
      ensures Ground() == old(Ground())
      ensures Valid() && dv == old(dv) && dvsize == old(dvsize) && free == old(free)
      ensures p == old(top) && p > 0 && top == p + nb && topsize == old(topsize) - nb
      ensures LiveOf(ch) == old(LiveOf(ch))[p := nb]
    {
      hide BinsOk, HeapOk, LiveOf, ExtentOf, Ground;
      GroundIs();
      CarveTopOk(ch, head, foot, free, dv, dvsize, top, topsize, nb);
      var rsize := topsize - nb;
      p := top;
      var r := p + nb;
      top, topsize := r, rsize;
      head := head[r := Head(rsize, false, true)][p := Head(nb, true, true)];
      ch := ch[p := Chunk(nb, Used)][r := Chunk(rsize, Top)];
      GroundIs();
    }

    // ---------------- dispose_chunk, dlfree ----------------

    // first half of dispose_chunk: merge with the free chunk in front
    method MergeBackward(p: Addr, psize: nat) returns (q: Addr, s: nat, ghost rs: set<Addr>)
      requires Valid() && p in ch && ch[p] == Chunk(psize, Used)
      modifies this`links, this`nodes, this`smallmap, this`treemap, this`treebins, this`small, this`tries, this`free
      ensures BinsValid() && Pend(ch, head, q, s, rs) && q + s == p + psize && p in rs
      ensures free == FreeOf(ch) - rs && LiveOf(ch) - rs == LiveOf(ch) - {p}
      ensures (dv in rs <==> q == dv) && top !in rs
      ensures Front(ch, p, q) && free == old(free) - {q}
    {
      hide Entered, Gone, Extracted, BinsOk, Geo, Tags, Pend, Front;
      ValidFacts();
      BackMerge(ch, head, foot, p);
      FrontIs(ch, head, foot, p);
      q, s := p, psize;
      rs := {p};
      assert p !in free && p != dv && p != top;
      if !head[p].pinuse {
        var prevsize := foot[p];
        var prev := p - prevsize;
        s := psize + prevsize;
        q := prev;
        rs := {prev, p};
        assert FreeOf(ch) - rs == FreeOf(ch) - {prev};
        assert LiveOf(ch) - rs == LiveOf(ch) - {p};
        if q != dv {
          UnlinkChunk(q, prevsize);
        } else {
          assert FreeOf(ch) - {prev} == FreeOf(ch);
        }
      } else {
        assert FreeOf(ch) - rs == FreeOf(ch);
      }
    }

    // set_free_with_pinuse, or without `clear` set_size_and_pinuse_of_free_chunk, on a run
    // whose other words are those of head1
    method TagFree(q: Addr, s: nat, clear: bool, ghost head1: Heads)
      requires Shadow(head, head1, q) && q + s in head1 && s > 0 && (!clear ==> !head1[q + s].pinuse)
      modifies this`head, this`foot
      ensures head == SetFree(head1, q, s) && foot == old(foot)[q + s := s]
    {
      if clear {
        head := head[q + s := head[q + s].(pinuse := false)];
      }
      head := head[q := Head(s, false, true)];
      foot := foot[q + s := s];
    }

    // dv grows over the run, or the run becomes part of it
    method GrowDv(q: Addr, s: nat, clear: bool, ghost rs: set<Addr>, ghost head1: Heads)
      requires BinsValid() && Geo(ch) && Tags(ch, head1, foot) && DvOk(ch, dv, dvsize) && TopOk(ch, top, topsize)
      requires Pend(ch, head1, q, s, rs) && InUse(ch[q + s].kind) && top !in rs && dv in rs && free == FreeOf(ch) - rs
      requires Shadow(head, head1, q) && q + s in head1 && (!clear ==> !head1[q + s].pinuse)
      modifies this`head, this`foot, this`ch, this`dv, this`dvsize
      ensures Ground() == old(Ground())
      ensures dv == q && dvsize == s
      ensures Valid() && LiveOf(ch) == old(LiveOf(ch)) - rs
    {
      hide *;
      RunToDv(q, s, clear, rs, head1);
      Join();
    }

    method RunToDv(q: Addr, s: nat, clear: bool, ghost rs: set<Addr>, ghost head1: Heads)
      requires Geo(ch) && Tags(ch, head1, foot) && DvOk(ch, dv, dvsize) && TopOk(ch, top, topsize)
      requires Pend(ch, head1, q, s, rs) && InUse(ch[q + s].kind) && top !in rs && dv in rs && free == FreeOf(ch) - rs
      requires Shadow(head, head1, q) && q + s in head1 && (!clear ==> !head1[q + s].pinuse)
      modifies this`head, this`foot, this`ch, this`dv, this`dvsize
      ensures dv == q && dvsize == s
      ensures Ground() == old(Ground()) && LiveOf(ch) == old(LiveOf(ch)) - rs
      ensures HeapOk(ch, head, foot, free, dv, dvsize, top, topsize)
    {
      assert Loose(Dv);
      hide *;
      GroundIs();
      DoneLoose(ch, head1, foot, dv, dvsize, top, topsize, q, s, rs, Dv);
      PendFacts(ch, head1, q, s, rs, top, topsize);
      TagFree(q, s, clear, head1);
      dv, dvsize := q, s;
      ch := (ch - rs)[q := Chunk(s, Dv)];
      GroundIs();
    }

    // the top chunk lies behind: it grows down to q
    method GrowTop(q: Addr, s: nat, ghost rs: set<Addr>, ghost head1: Heads)
      requires BinsValid() && Geo(ch) && Tags(ch, head1, foot) && DvOk(ch, dv, dvsize) && TopOk(ch, top, topsize)
      requires Pend(ch, head1, q, s, rs) && q + s == top && topsize > 0 && (dv in rs <==> q == dv) && free == FreeOf(ch) - rs
      requires Shadow(head, head1, q)
      modifies this`head, this`ch, this`dv, this`dvsize, this`top, this`topsize
      ensures Ground() == old(Ground())
      ensures top == q && topsize == s + old(topsize) && (if q == old(dv) then dv == 0 && dvsize == 0 else dv == old(dv) && dvsize == old(dvsize))
      ensures Valid() && LiveOf(ch) == old(LiveOf(ch)) - rs
    {
      hide *;
      GroundIs();
      DoneTop(ch, head1, foot, dv, dvsize, top, topsize, q, s, rs);
      ShadowWrite(head, head1, q, Head(s + topsize, false, true));
      ghost var rs' := rs + {top};
      var tsize := topsize + s;
      top, topsize := q, tsize;
      head := head[q := Head(tsize, false, true)];
      if q == dv {
        dv, dvsize := 0, 0;
      }
      ch := (ch - rs')[q := Chunk(tsize, Top)];
      Join();
      GroundIs();
    }

    // the run [q, q + s) ends in front of a chunk in use: it goes to a bin
    method BinFree(q: Addr, s: nat, clear: bool, ghost rs: set<Addr>, ghost head1: Heads)
      requires BinsValid() && Geo(ch) && Tags(ch, head1, foot) && DvOk(ch, dv, dvsize) && TopOk(ch, top, topsize)
      requires Pend(ch, head1, q, s, rs) && InUse(ch[q + s].kind) && top !in rs && dv !in rs && free == FreeOf(ch) - rs
      requires Shadow(head, head1, q) && q + s in head1 && (!clear ==> !head1[q + s].pinuse)
      modifies this`links, this`nodes, this`smallmap, this`treemap, this`treebins, this`small, this`tries, this`free
      modifies this`head, this`foot, this`ch
      ensures Ground() == old(Ground())
      ensures free == old(free)[q := s]
      ensures Valid() && LiveOf(ch) == old(LiveOf(ch)) - rs
    {
      hide Entered, Gone, Extracted, BinsOk, Geo, Tags, DvOk, TopOk, LiveOf, FreeOf, HeapOk, ExtentOf, Pend, Ground, Shadow;
      PendFacts(ch, head1, q, s, rs, top, topsize);
      NotFree(ch, q, rs, free);
      TagRun(q, s, clear, rs, head1);
      HeapHeadSizes(ch, head, foot, free[q := s], dv, dvsize, top, topsize);
      GroundIs();
      InsertChunk(q, s);
      GroundIs();
    }

    // the words of the run, which is one free chunk afterwards, in no bin yet
    method TagRun(q: Addr, s: nat, clear: bool, ghost rs: set<Addr>, ghost head1: Heads)
      requires Geo(ch) && Tags(ch, head1, foot) && DvOk(ch, dv, dvsize) && TopOk(ch, top, topsize)
      requires Pend(ch, head1, q, s, rs) && InUse(ch[q + s].kind) && top !in rs && dv !in rs && free == FreeOf(ch) - rs
      requires Shadow(head, head1, q) && q + s in head1 && (!clear ==> !head1[q + s].pinuse)
      modifies this`head, this`foot, this`ch
      ensures Ground() == old(Ground()) && LiveOf(ch) == old(LiveOf(ch)) - rs
      ensures HeapOk(ch, head, foot, free[q := s], dv, dvsize, top, topsize)
    {
      assert Loose(Free);
      hide *;
      GroundIs();
      DoneLoose(ch, head1, foot, dv, dvsize, top, topsize, q, s, rs, Free);
      PendFacts(ch, head1, q, s, rs, top, topsize);
      TagFree(q, s, clear, head1);
      ch := (ch - rs)[q := Chunk(s, Free)];
      GroundIs();
    }

    lemma NextKind(n: Addr)
      requires Geo(ch) && Tags(ch, head, foot) && DvOk(ch, dv, dvsize) && TopOk(ch, top, topsize) && n in ch && ch[n].kind != End
      ensures n in head && head[n].size == ch[n].size && (head[n].cinuse <==> InUse(ch[n].kind))
      ensures !head[n].cinuse ==> (if n == top then topsize > 0 && ch[n] == Chunk(topsize, Top) else
                                   if n == dv then dvsize > 0 && ch[n] == Chunk(dvsize, Dv) else ch[n].kind == Free)
    {
      hide Geo, Tags;
      LooseFacts(ch, head, foot, n);
    }

    lemma BlockEnd(p: Addr)
      requires Valid() && p in ch && ch[p].kind == Used
      ensures p + ch[p].size in ch && ch[p + ch[p].size].kind != End && p + ch[p].size in head && head[p + ch[p].size].pinuse
      ensures p > 0 && p % 8 == 0 && ch[p].size % 8 == 0 && ch[p].size >= MIN_CHUNK_SIZE && p + ch[p].size < WORD
      ensures p in head && head[p] .size == ch[p].size && head[p].cinuse && p !in free && p != dv && p != top
    {
      hide BinsOk, Geo, Tags;
      ValidFacts();
      LooseFacts(ch, head, foot, p);
    }

    // second half: merge with what is behind, and put the run away
    method MergeForward(q: Addr, s: nat, ghost rs: set<Addr>, ghost p: Addr, ghost s0: Stock)
      requires BinsValid() && Geo(ch) && Tags(ch, head, foot) && DvOk(ch, dv, dvsize) && TopOk(ch, top, topsize)
      requires Pend(ch, head, q, s, rs) && p in ch && Next(ch, p) == q + s && q <= p && q + s in ch && ch[q + s].kind != End
      requires free == FreeOf(ch) - rs && (dv in rs <==> q == dv) && top !in rs && Held() == s0.(free := s0.free - {q})
      requires q == dv ==> !InUse(ch[q + s].kind)
      modifies this
      ensures Ground() == old(Ground()) && Valid() && LiveOf(ch) == old(LiveOf(ch)) - rs
      ensures q in old(ch) && Returned(old(ch), s0, Held(), p, q)
    {
      hide BinsOk, Geo, Tags, Pend, DvOk, TopOk, LiveOf, FreeOf, ExtentOf, Ground, Shadow, Returned;
      var next := q + s;
      ghost var ch0 := ch;
      PendFacts(ch, head, q, s, rs, top, topsize);
      Kinds(ch, dv, dvsize, top, topsize);
      PendShadow(ch, head, foot, q, s, rs);
      NextKind(next);
      if !head[next].cinuse {
        if next == top {
          GrowTop(q, s, rs, head);
          ReturnedTop(ch0, s0, Held(), p, q);
        } else {
          MergeNext(q, s, rs);
          assert s0.free - {q} - {next} == s0.free - {q, next};
          if ch0[q].kind == Dv || ch0[next].kind == Dv {
            ReturnedDv(ch0, s0, Held(), p, q);
          } else {
            ReturnedBin(ch0, s0, Held(), p, q);
          }
        }
      } else {
        NotBinned(next);
        BinFree(q, s, true, rs, head);
        ReturnedBin(ch0, s0, Held(), p, q);
      }
    }

    // dv or a binned chunk is behind
    method MergeNext(q: Addr, s: nat, ghost rs: set<Addr>)
      requires BinsValid() && Geo(ch) && Tags(ch, head, foot) && DvOk(ch, dv, dvsize) && TopOk(ch, top, topsize)
      requires Pend(ch, head, q, s, rs) && q + s in ch && Loose(ch[q + s].kind)
      requires free == FreeOf(ch) - rs && (dv in rs <==> q == dv) && top !in rs
      modifies this
      ensures Ground() == old(Ground()) && Valid() && LiveOf(ch) == old(LiveOf(ch)) - rs && top == old(top) && topsize == old(topsize)
      ensures var n := q + s; var size := s + old(ch)[n].size; var rest := old(free) - {n};
        if q == old(dv) || n == old(dv) then dv == q && dvsize == size && free == rest
        else dv == old(dv) && dvsize == old(dvsize) && free == rest[q := size]
    {
      hide Entered, Gone, Extracted, BinsOk, Geo, Tags, Pend, DvOk, TopOk, LiveOf, FreeOf, ExtentOf, Ground, Shadow;
      var next := q + s;
      PendFacts(ch, head, q, s, rs, top, topsize);
      PendShadow(ch, head, foot, q, s, rs);
      NextKind(next);
      ForwardMerge(ch, head, foot, q, s, rs);
      DropNext(next, rs);
      if next == dv {
        NotBinned(next);
        GrowDv(q, s + dvsize, false, rs + {next}, head);
      } else {
        var nsize := head[next].size;
        UnlinkChunk(next, nsize);
        if q == dv {
          GrowDv(q, s + nsize, false, rs + {next}, head);
        } else {
          BinFree(q, s + nsize, false, rs + {next}, head);
        }
      }
    }

    method DisposeChunk(p: Addr, psize: nat)
      requires Valid() && p in ch && ch[p] == Chunk(psize, Used)
      modifies this
      ensures Ground() == old(Ground())
      ensures GivenBack(old(ch), old(Held()), Held(), p)
      ensures Valid() && LiveOf(ch) == old(LiveOf(ch)) - {p}
    {
      hide BinsOk, Geo, Tags, Pend, DvOk, TopOk, LiveOf, FreeOf, ExtentOf, Ground, Shadow, Returned;
      BlockEnd(p);
      var next := p + psize;
      ghost var ch0, s0 := ch, Held();
      ValidFacts();
      Kinds(ch, dv, dvsize, top, topsize);
      var q, s;
      ghost var rs;
      q, s, rs := MergeBackward(p, psize);
      PendFacts(ch, head, q, s, rs, top, topsize);
      PendShadow(ch, head, foot, q, s, rs);
      hide Front;
      NextKind(next);
      if q == dv && head[next].cinuse && head[next].pinuse {
        NotBinned(next);
        GrowDv(q, s, true, rs, head);
        ReturnedDv(ch0, s0, Held(), p, q);
        return;
      }
      MergeForward(q, s, rs, p, s0);
    }

    lemma NotBinned(n: Addr)
      requires n in ch && ch[n].kind != Free
      ensures n !in FreeOf(ch)
    {}

    lemma DropNext(n: Addr, rs: set<Addr>)
      requires DvOk(ch, dv, dvsize) && TopOk(ch, top, topsize) && n in ch && n > 0 && Loose(ch[n].kind) && n !in rs
      ensures LiveOf(ch) - (rs + {n}) == LiveOf(ch) - rs
      ensures ch[n].kind == Free ==> n in FreeOf(ch) - rs && (FreeOf(ch) - rs)[n] == ch[n].size && n != dv && n != top
      ensures ch[n].kind == Free ==> FreeOf(ch) - (rs + {n}) == FreeOf(ch) - rs - {n}
      ensures ch[n].kind == Dv ==> FreeOf(ch) - (rs + {n}) == FreeOf(ch) - rs && n == dv
      ensures n != top
    {}

    // dlfree; the block must be one malloc handed out and not freed since
    method DlFree(mem: Addr)
      requires Valid() && (mem != 0 ==> mem - 8 in LiveOf(ch))
      modifies this
      ensures Ground() == old(Ground())
      ensures old(Sound()) ==> Sound()
      ensures mem == 0 ==> Held() == old(Held())
      ensures mem != 0 ==> GivenBack(old(ch), old(Held()), Held(), mem - 8)
      ensures Valid() && LiveOf(ch) == if mem == 0 then old(LiveOf(ch)) else old(LiveOf(ch)) - {mem - 8}
    {
      hide ExtentOf, Ground, GivenBack;
      if mem != 0 {
        var p := mem - 8;
        BlockEnd(p);
        var psize := head[p].size;
        DisposeChunk(p, psize);
      }
    }

    // ---------------- try_realloc_chunk ----------------

    lemma CutSpot(p: Addr, nb: nat)
      requires Valid() && p in ch && ch[p].kind == Used && 0 < nb < ch[p].size
      ensures p + nb !in ch && Next(ch, p) in ch
    {
      hide BinsOk, Tags;
      ValidFacts();
      assert Placed(ch, p);
      forall a | a in ch ensures a != p + nb { assert Beyond(ch, p, a); }
    }

    // cut the block p at nb
    method CutUsed(p: Addr, nb: nat, rsize: nat)
      requires Valid() && p in ch && ch[p] == Chunk(nb + rsize, Used)
      requires nb % 8 == 0 && MIN_CHUNK_SIZE <= nb && MIN_CHUNK_SIZE <= rsize
      modifies this`head, this`ch
      ensures Ground() == old(Ground()) && Valid()
      ensures ch == old(ch)[p := Chunk(nb, Used)][p + nb := Chunk(rsize, Used)]
      ensures LiveOf(ch) == old(LiveOf(ch))[p := nb][p + nb := rsize]
    {
      hide BinsOk, HeapOk, LiveOf, SetInuse, ExtentOf, Ground;
      GroundIs();
      BlockEnd(p);
      SplitUsed(ch, head, foot, free, dv, dvsize, top, topsize, p, nb);
      SetInuseTwice(head, p, nb, rsize);
      var r := p + nb;
      head := SetInuse(head, p, nb);
      head := SetInuse(head, r, rsize);
      ch := ch[p := Chunk(nb, Used)][r := Chunk(rsize, Used)];
      GroundIs();
    }

    // ... and give the rest back
    method ShrinkBlock(p: Addr, nb: nat, rsize: nat)
      requires Valid() && p in ch && ch[p] == Chunk(nb + rsize, Used)
      requires nb % 8 == 0 && MIN_CHUNK_SIZE <= nb && MIN_CHUNK_SIZE <= rsize
      modifies this
      ensures Ground() == old(Ground())
      ensures Valid() && LiveOf(ch) == old(LiveOf(ch))[p := nb]
      ensures Next(old(ch), p) in old(ch) && Resized(old(ch), old(Held()), Held(), p, nb)
    {
      hide BinsOk, HeapOk, LiveOf, ExtentOf, Ground, GivenBack, Resized, Geo, Tags, DvOk, TopOk, FreeOf;
      ghost var ch0, s0, live := ch, Held(), LiveOf(ch);
      ValidFacts();
      CutSpot(p, nb);
      assert p + nb !in live by { LiveIn(ch); }
      CutUsed(p, nb, rsize);
      DisposeChunk(p + nb, rsize);
      ShrunkIs(ch0, s0, Held(), p, nb);
      assert live[p := nb][p + nb := rsize] - {p + nb} == live[p := nb];
    }

    method ExtendIntoTop(p: Addr, oldsize: nat, nb: nat)
      requires Valid() && p in ch && ch[p] == Chunk(oldsize, Used) && p + oldsize == top && topsize > 0
      requires nb % 8 == 0 && oldsize < nb < oldsize + topsize
      modifies this
      ensures Ground() == old(Ground())
      ensures Held() == old(Held()).(top := p + nb, topsize := oldsize + old(topsize) - nb)
      ensures Valid() && LiveOf(ch) == old(LiveOf(ch))[p := nb]
    {
      hide BinsOk, HeapOk, LiveOf, SetInuse, ExtentOf, Ground;
      GroundIs();
      ExtendTopOk(ch, head, foot, free, dv, dvsize, top, topsize, p, nb);
      var newsize := oldsize + topsize;
      var newtopsize := newsize - nb;
      var newtop := p + nb;
      SetInuseThenTag(head, p, nb, Head(newtopsize, false, true));
      head := SetInuse(head, p, nb);
      head := head[newtop := Head(newtopsize, false, true)];
      ch := (ch - {top})[p := Chunk(nb, Used)][newtop := Chunk(newtopsize, Top)];
      top := newtop;
      topsize := newtopsize;
      GroundIs();
    }

    method ExtendIntoDv(p: Addr, oldsize: nat, nb: nat)
      requires Valid() && p in ch && ch[p] == Chunk(oldsize, Used) && p + oldsize == dv && dvsize > 0
      requires nb % 8 == 0 && oldsize < nb && nb + MIN_CHUNK_SIZE <= oldsize + dvsize
      modifies this
      ensures Ground() == old(Ground())
      ensures Held() == old(Held()).(dv := p + nb, dvsize := oldsize + old(dvsize) - nb)
      ensures Valid() && LiveOf(ch) == old(LiveOf(ch))[p := nb]
    {
      hide BinsOk, HeapOk, LiveOf, SetInuse, ExtentOf, Valid, BinsValid, Ground;
      GroundIs();
      Split();
      ExtendDvOk(ch, head, foot, free, dv, dvsize, top, topsize, p, nb);
      var dsize := oldsize + dvsize - nb;
      var r := p + nb;
      var n := r + dsize;
      ExtendDvWords(head, p, nb, dsize);
      head := SetInuse(head, p, nb);
      head := head[r := Head(dsize, false, true)];
      foot := foot[n := dsize];
      head := head[n := head[n].(pinuse := false)];
      ch := (ch - {dv})[p := Chunk(nb, Used)][r := Chunk(dsize, Dv)];
      dvsize := dsize;
      dv := r;
      Join();
      GroundIs();
    }

    method AbsorbDv(p: Addr, oldsize: nat)
      requires Valid() && p in ch && ch[p] == Chunk(oldsize, Used) && p + oldsize == dv && dvsize > 0
      modifies this
      ensures Ground() == old(Ground())
      ensures Held() == old(Held()).(dv := 0, dvsize := 0)
      ensures Valid() && LiveOf(ch) == old(LiveOf(ch))[p := oldsize + old(dvsize)]
    {
      hide BinsOk, LiveOf, SetInuse, Geo, Tags, FreeOf, ExtentOf, Ground;
      GroundIs();
      ValidFacts();
      AbsorbOk(ch, head, foot, free, dv, dvsize, top, topsize, p);
      hide HeapOk;
      assert free - {dv} == free;
      var newsize := oldsize + dvsize;
      head := SetInuse(head, p, newsize);
      ch := (ch - {dv})[p := Chunk(newsize, Used)];
      dvsize := 0;
      dv := 0;
      GroundIs();
    }

    method AbsorbFree(p: Addr, oldsize: nat, next: Addr, nextsize: nat)
      requires Valid() && p in ch && ch[p] == Chunk(oldsize, Used) && p + oldsize == next && next in free && free[next] == nextsize
      modifies this
      ensures Ground() == old(Ground())
      ensures Held() == old(Held()).(free := old(free) - {next}) && ch == (old(ch) - {next})[p := Chunk(oldsize + nextsize, Used)]
      ensures Valid() && p in ch && ch[p] == Chunk(oldsize + nextsize, Used)
      ensures LiveOf(ch) == old(LiveOf(ch))[p := oldsize + nextsize]
    {
      hide Entered, Gone, Extracted, BinsOk, LiveOf, SetInuse, Geo, Tags, FreeOf, ExtentOf, Ground;
      GroundIs();
      ValidFacts();
      AbsorbOk(ch, head, foot, free, dv, dvsize, top, topsize, p);
      hide HeapOk;
      UnlinkChunk(next, nextsize);
      head := SetInuse(head, p, oldsize + nextsize);
      ch := (ch - {next})[p := Chunk(oldsize + nextsize, Used)];
      GroundIs();
    }

    method ExtendIntoFree(p: Addr, oldsize: nat, nb: nat, next: Addr, nextsize: nat)
      requires Valid() && p in ch && ch[p] == Chunk(oldsize, Used) && p + oldsize == next && next in free && free[next] == nextsize
      requires nb % 8 == 0 && MIN_CHUNK_SIZE <= nb && oldsize < nb <= oldsize + nextsize
      modifies this
      ensures Ground() == old(Ground())
      ensures next in old(ch) && Resized(old(ch), old(Held()), Held(), p, nb)
      ensures Valid() && p in LiveOf(ch) && nb <= LiveOf(ch)[p] < nb + MIN_CHUNK_SIZE && LiveOf(ch) == old(LiveOf(ch))[p := LiveOf(ch)[p]]
    {
      hide BinsOk, Geo, Tags, DvOk, TopOk, ExtentOf, Ground, Resized;
      ValidFacts();
      ghost var ch0, s0 := ch, Held();
      var rsize := oldsize + nextsize - nb;
      AbsorbFree(p, oldsize, next, nextsize);
      ghost var s1 := Held();
      if rsize >= MIN_CHUNK_SIZE {
        ShrinkBlock(p, nb, rsize);
      }
      ResizedAbsorbed(ch0, s0, s1, Held(), p, nb);
    }

    // the bytes p could span without moving
    ghost function Room(p: Addr): nat
      requires Valid() && p in ch && ch[p].kind == Used
      reads this
    {
      BlockEnd(p);
      var n := p + ch[p].size;
      if n == top then ch[p].size + ch[n].size - 8
      else if Loose(ch[n].kind) then ch[p].size + ch[n].size
      else ch[p].size
    }

    lemma RoomSpans(p: Addr)
      requires Valid() && p in ch && ch[p].kind == Used
      ensures Next(ch, p) in ch && Room(p) % 8 == 0 && ch[p].size <= Room(p)
      ensures var size, n := ch[p].size, ch[Next(ch, p)];
        Room(p) == match n.kind case Free => size + n.size case Dv => size + n.size case Top => size + n.size - 8 case _ => size
    {
      hide BinsOk, Tags;
      ValidFacts();
      BlockEnd(p);
      NextKind(p + ch[p].size);
      assert Placed(ch, p) && Placed(ch, Next(ch, p));
    }

    // try_realloc_chunk, on a block that is not mmapped
    method TryReallocChunk(p: Addr, nb: nat) returns (newp: Addr)
      requires Valid() && p in LiveOf(ch) && nb % 8 == 0 && MIN_CHUNK_SIZE <= nb
      modifies this
      ensures Ground() == old(Ground())
      ensures Valid() && (newp == p || newp == 0) && p > 0
      ensures newp == p <==> nb <= old(Room(p))
      ensures newp == 0 ==> ch == old(ch) && free == old(free) && dv == old(dv) && dvsize == old(dvsize) && top == old(top) && topsize == old(topsize)
      ensures newp == p ==> p in old(ch) && Next(old(ch), p) in old(ch) && Resized(old(ch), old(Held()), Held(), p, nb)
      ensures newp == p ==> p in LiveOf(ch) && nb <= LiveOf(ch)[p] < nb + MIN_CHUNK_SIZE
                            && LiveOf(ch) == old(LiveOf(ch))[p := LiveOf(ch)[p]]
    {
      hide BinsOk, Geo, Tags, DvOk, TopOk, ExtentOf, Ground;
      BlockEnd(p);
      ValidFacts();
      ghost var ch0, s0 := ch, Held();
      newp := 0;
      var oldsize := head[p].size;
      var next := p + oldsize;
      NextKind(next);
      NextSizes(next);
      if oldsize >= nb {
        var rsize := oldsize - nb;
        if rsize >= MIN_CHUNK_SIZE {
          ShrinkBlock(p, nb, rsize);
        }
        newp := p;
      } else if next == top {
        if oldsize + topsize > nb {
          ExtendIntoTop(p, oldsize, nb);
          newp := p;
        }
      } else if next == dv {
        var dvs := dvsize;
        if oldsize + dvs >= nb {
          var dsize := oldsize + dvs - nb;
          if dsize >= MIN_CHUNK_SIZE {
            ExtendIntoDv(p, oldsize, nb);
          } else {
            AbsorbDv(p, oldsize);
          }
          newp := p;
        }
      } else if !head[next].cinuse {
        var nextsize := head[next].size;
        if oldsize + nextsize >= nb {
          ExtendIntoFree(p, oldsize, nb, next, nextsize);
          newp := p;
        }
      }
    }

    lemma NextSizes(n: Addr)
      requires Valid() && n in ch && ch[n].kind != End && n > 0
      ensures ch[n].size % 8 == 0 && (n == top <==> ch[n].kind == Top) && (n == dv <==> ch[n].kind == Dv)
      ensures ch[n].kind == Free <==> n in free
      ensures n in free ==> free[n] == ch[n].size
      ensures Geo(ch) && Tags(ch, head, foot) && DvOk(ch, dv, dvsize) && TopOk(ch, top, topsize)
    {
      hide BinsOk, Geo, Tags;
      LooseFacts(ch, head, foot, n);
    }

    // ---------------- dlmalloc ----------------

    // What dlmalloc has on hand for a padded request of nb bytes. `v` is the chunk it takes:
    //  - a binned chunk, then a smallest one that fits, and of those the one that entered its tree
    //    bin first, or its small bin last; were dv to fit too, it is an (almost) exact fit from a
    //    small bin, or for a large request a tighter fit than dv;
    //  - else dv, when it fits;
    //  - else top, when nothing loose fits.
    ghost predicate Policy(nb: nat, v: Addr)
      reads this
    {
      if v in free then
        && SmallestFit(free, v, nb) && (if free[v] >= 256 then Oldest(tries, v) else Newest(small, v, free[v]))
        && (nb <= dvsize ==> if nb < 256 then free[v] <= nb + 8 && free[v] < 256 else free[v] < dvsize)
      else if nb <= dvsize then
        && v == dv
        && (forall a :: a in free && free[a] >= nb ==> if nb < 256 then free[a] > nb + 8 || free[a] >= 256 else free[a] >= dvsize)
      else
        v == top && nb < topsize && NoFit(free, nb)
    }

    // the size of the block cut from v: all of it when fewer than 16 bytes would be left
    ghost function Granted(nb: nat, v: Addr): nat
      reads this
    {
      var s := if v in free then free[v] else if nb <= dvsize then dvsize else nb + MIN_CHUNK_SIZE;
      if s < nb + MIN_CHUNK_SIZE then s else nb
    }

    // a chunk of size at least nb is at least as big as the lowest marked small bin from nb's up
    lemma SmallFits(nb: nat, i: nat)
      requires BinsValid() && nb % 8 == 0 && i <= NBINS && forall j :: nb / 8 <= j < i ==> !Marked(smallmap, j)
      ensures forall a :: a in free && free[a] >= nb ==> free[a] >= 8 * i
    {
      hide TreeBin, TreeIndex, Ring, Marked, Member;
      forall a | a in free && free[a] >= nb ensures free[a] >= 8 * i {
        assert Binned(small, tries, a, free[a]);
        if free[a] < 256 { assert SmallBin(free[a] / 8, small[free[a] / 8], free, links, smallmap); }
      }
    }

    lemma NoTrees()
      requires BinsValid() && treemap == 0
      ensures forall a :: a in free ==> free[a] < 256
    {
      hide BinsOk, Marked, TreeIndex;
      ZeroMap(treemap);
      RootOf(0);
      forall i | 0 <= i < NBINS ensures treebins[i] == 0 { RootOf(i); }
      FirstBin(NBINS);
      AllBinned(0);
      forall a | a in free ensures free[a] < 256 {
        if free[a] >= 256 { IndexBounds(free[a]); }
      }
    }

    // an exact fit, or one 8 bytes larger, from the small bins
    method TakeClose(i: nat, nb: nat) returns (p: Addr)
      requires Valid() && MIN_CHUNK_SIZE <= nb < 256 && nb % 8 == 0 && i < NBINS && Marked(smallmap, i)
      requires i == nb / 8 || (i == nb / 8 + 1 && !Marked(smallmap, nb / 8))
      modifies this
      ensures Ground() == old(Ground())
      ensures Valid()
      ensures Served(old(Held()), Held(), nb, p)
      ensures p in old(free) && old(Policy(nb, p)) && LiveOf(ch) == old(LiveOf(ch))[p := old(Granted(nb, p))] && p > 0
    {
      hide BinsOk, HeapOk, LiveOf, Marked, SmallestFit, ExtentOf, Ground;
      SmallFits(nb, i);
      SmallFirst(i);
      ghost var v := small[i][0];
      assert SmallestFit(free, v, nb) by { SmallestFitIntro(free, v, nb); }
      assert Policy(nb, v) && Granted(nb, v) == 8 * i;
      p := TakeSmall(i);
    }

    // the lowest small bin above idx + 1, split
    method TakeAbove(idx: nat, nb: nat) returns (p: Addr)
      requires Valid() && MIN_CHUNK_SIZE <= nb < 256 && idx == nb / 8 && nb % 8 == 0 && dvsize < nb
      requires !Marked(smallmap, idx) && !Marked(smallmap, idx + 1) && Shr(smallmap, idx) != 0
      modifies this
      ensures Ground() == old(Ground())
      ensures Valid()
      ensures Served(old(Held()), Held(), nb, p)
      ensures p in old(free) && old(Policy(nb, p)) && LiveOf(ch) == old(LiveOf(ch))[p := old(Granted(nb, p))] && p > 0
    {
      hide Served, BinsOk, HeapOk, LiveOf, Marked, SmallestFit, Shr, Shl, LeftBits, LeastBit, Ctz, And, ExtentOf, Ground;
      SmallBits(smallmap, idx);
      SmallBinsAbove(smallmap, idx);
      var smallbits := Shr(smallmap, idx);
      var leftbits := And(Shl(smallbits, idx), LeftBits(Idx2Bit(idx)));
      ZeroMap(leftbits);
      LowestBin(leftbits);
      var i := Ctz(LeastBit(leftbits));
      SmallFits(nb, i);
      SmallFirst(i);
      ghost var v := small[i][0];
      assert SmallestFit(free, v, nb) by { SmallestFitIntro(free, v, nb); }
      assert Policy(nb, v) && Granted(nb, v) == nb;
      p := CarveSmall(i, nb);
    }

    // the smallest tree chunk, when no small bin holds anything big enough
    method TakeFromTrees(nb: nat) returns (p: Addr)
      requires Valid() && MIN_CHUNK_SIZE <= nb < 256 && nb % 8 == 0 && dvsize < nb && treemap != 0
      requires Shr(smallmap, nb / 8) == 0
      modifies this
      ensures Ground() == old(Ground())
      ensures Valid()
      ensures Served(old(Held()), Held(), nb, p)
      ensures p in old(free) && old(Policy(nb, p)) && LiveOf(ch) == old(LiveOf(ch))[p := old(Granted(nb, p))] && p > 0
    {
      hide Served, BinsOk, HeapOk, LiveOf, Marked, Shr, ExtentOf, Ground;
      SmallBits(smallmap, nb / 8);
      SmallFits(nb, NBINS);
      var mem := TmallocSmall(nb);
      p := mem - 8;
      assert SmallestFit(old(free), p, nb) by { BestLargeIsBest(old(free), p, nb); }
    }

    lemma GrantedBounds(nb: nat)
      ensures forall v :: Policy(nb, v) ==> nb <= Granted(nb, v) < nb + MIN_CHUNK_SIZE
    {}

    // dlmalloc's search for a small request, up to the point where dv is considered
    method MallocSmall(nb: nat) returns (p: Addr)
      requires Valid() && MIN_CHUNK_SIZE <= nb < 256 && nb % 8 == 0
      modifies this
      ensures Ground() == old(Ground())
      ensures Valid()
      ensures p != 0 ==> Served(old(Held()), Held(), nb, p)
      ensures p != 0 ==> p in old(free) && old(Policy(nb, p)) && LiveOf(ch) == old(LiveOf(ch))[p := old(Granted(nb, p))]
      ensures p != 0 ==> nb <= old(Granted(nb, p)) < nb + MIN_CHUNK_SIZE
      ensures p == 0 ==> ch == old(ch) && free == old(free) && dv == old(dv) && dvsize == old(dvsize) && top == old(top) && topsize == old(topsize)
      ensures p == 0 ==> (forall a :: a in free && free[a] >= nb ==> free[a] > nb + 8 || free[a] >= 256) && (nb <= dvsize || NoFit(free, nb))
    {
      hide Served, BinsOk, HeapOk, LiveOf, Marked, And, Shr, BestLarge, Policy, Granted, ExtentOf, Ground;
      GrantedBounds(nb);
      var idx := nb / 8;
      SmallBits(smallmap, idx);
      var smallbits := Shr(smallmap, idx);
      p := 0;
      if And(smallbits, 3) != 0 {
        var i := idx + And(Not(smallbits), 1);
        MarkedInRange(smallmap, i);
        p := TakeClose(i, nb);
      } else if nb > dvsize {
        if smallbits != 0 {
          p := TakeAbove(idx, nb);
        } else if treemap != 0 {
          p := TakeFromTrees(nb);
        } else {
          SmallFits(nb, NBINS);
          NoTrees();
        }
      } else {
        CloseBinsEmpty(nb);
      }
    }

    lemma CloseBinsEmpty(nb: nat)
      requires BinsValid() && nb % 8 == 0 && nb < 256 && !Marked(smallmap, nb / 8) && !Marked(smallmap, nb / 8 + 1)
      ensures forall a :: a in free && free[a] >= nb ==> free[a] > nb + 8 || free[a] >= 256
    {
      hide BinsOk, Marked;
      SmallFits(nb, if nb / 8 < 31 then nb / 8 + 2 else nb / 8 + 1);
    }

    lemma SizesBelowMax()
      requires Valid()
      ensures forall a :: a in free ==> free[a] < WORD - 1
      ensures dvsize < WORD - 1 && topsize < WORD - 1
    {
      hide BinsOk, Geo, Tags;
      ValidFacts();
      forall a | a in free ensures free[a] < WORD - 1 { LooseFacts(ch, head, foot, a); }
      if dvsize > 0 { LooseFacts(ch, head, foot, dv); }
      if topsize > 0 { LooseFacts(ch, head, foot, top); }
    }

    // dlmalloc up to the call of sys_alloc, where it stands when 0 is returned
    method MallocHeld(bytes: nat) returns (mem: Addr)
      requires Valid() && bytes < WORD
      modifies this
      ensures Ground() == old(Ground())
      ensures Valid()
      ensures mem != 0 ==> var v := mem - 8; var nb := RequestSize(bytes);
                && bytes < MAX_REQUEST && old(Policy(nb, v)) && Served(old(Held()), Held(), nb, v)
                && nb <= old(Granted(nb, v)) < nb + MIN_CHUNK_SIZE
                && v > 0 && v % 8 == 0 && v !in old(LiveOf(ch))
                && LiveOf(ch) == old(LiveOf(ch))[v := old(Granted(nb, v))]
      ensures mem == 0 ==> var nb := RequestSize(bytes);
                && ch == old(ch) && free == old(free) && dv == old(dv) && dvsize == old(dvsize)
                && top == old(top) && topsize == old(topsize)
                && NoFit(free, nb) && dvsize < nb && topsize <= nb
    {
      hide BinsOk, HeapOk, LiveOf, SmallestFit, BestLarge, ExtentOf, Ground;
      var nb: nat;
      var p := 0;
      if bytes < MAX_REQUEST { RequestFits(bytes); }
      SizesBelowMax();
      Sources(RequestSize(bytes));
      if bytes <= MAX_SMALL_REQUEST {
        nb := if bytes < MIN_REQUEST then MIN_CHUNK_SIZE else PadRequest(bytes);
        p := MallocSmall(nb);
      } else if bytes >= MAX_REQUEST {
        nb := WORD - 1;
      } else {
        nb := PadRequest(bytes);
        p := MallocTree(nb);
      }
      if p != 0 {
        return p + 8;
      }
      if nb <= dvsize {
        p := AllocFromDv(nb);
        mem := p + 8;
      } else if nb < topsize {
        p := AllocFromTop(nb);
        mem := p + 8;
      } else {
        mem := 0;
      }
    }

    // the tree search for a large request
    method MallocTree(nb: nat) returns (p: Addr)
      requires Valid() && 256 <= nb < WORD && nb % 8 == 0
      modifies this
      ensures Ground() == old(Ground())
      ensures Valid()
      ensures p != 0 ==> Served(old(Held()), Held(), nb, p)
      ensures p != 0 ==> p in old(free) && old(Policy(nb, p)) && LiveOf(ch) == old(LiveOf(ch))[p := old(Granted(nb, p))]
      ensures p != 0 ==> nb <= old(Granted(nb, p)) < nb + MIN_CHUNK_SIZE
      ensures p == 0 ==> ch == old(ch) && free == old(free) && dv == old(dv) && dvsize == old(dvsize) && top == old(top) && topsize == old(topsize)
      ensures p == 0 ==> (forall a :: a in free && free[a] >= nb ==> nb <= dvsize <= free[a])
    {
      hide Served, BinsOk, HeapOk, LiveOf, ExtentOf, Ground;
      GrantedBounds(nb);
      p := 0;
      if treemap != 0 {
        var mem := TmallocLarge(nb);
        if mem != 0 {
          p := mem - 8;
        }
      } else {
        NoTrees();
      }
    }

    // where a chunk may be taken from
    lemma Sources(nb: nat)
      requires Valid()
      ensures forall v :: v in free ==> v > 0 && v % 8 == 0 && v !in LiveOf(ch) && v != dv && v != top
      ensures dvsize > 0 ==> dv > 0 && dv % 8 == 0 && dv !in LiveOf(ch)
      ensures topsize > 0 ==> top > 0 && top % 8 == 0 && top !in LiveOf(ch)
      ensures dv !in free && top !in free
    {
      hide BinsOk, Geo, Tags;
      ValidFacts();
      forall v | v in free ensures v % 8 == 0 { LooseFacts(ch, head, foot, v); }
      if dvsize > 0 { LooseFacts(ch, head, foot, dv); }
      if topsize > 0 { LooseFacts(ch, head, foot, top); }
    }

    // ---------------- set-up ----------------

    // the zeroed malloc_state
    constructor ()
      ensures Sound() && topsize == 0 && LiveOf(ch) == map[] && segs == []
    {
      head, foot, nodes := map[], map[], map[];
      links := map[];
      smallmap, treemap, dvsize, topsize, dv, top := 0, 0, 0, 0, 0, 0;
      treebins := seq(NBINS, _ => 0);
      small := seq(NBINS, _ => []);
      tries := seq(NBINS, _ => map[]);
      free := map[];
      ch := map[];
      segs, fins := [], [];
      new;
      var i := 0;
      while i < NBINS
        invariant i <= NBINS && forall j: nat :: j < i ==> SmallHeader(j) in links
        modifies `links
      {
        links := links[SmallHeader(i) := Link(0, 0)];
        i := i + 1;
      }
      NoBins(small, tries, links, treebins);
      assert FreeOf(ch) == map[];
    }

    // ---------------- sys_alloc ----------------

    // init_bins
    method InitBins()
      requires Valid() && topsize == 0
      modifies this`links
      ensures Valid()
    {
      hide Trie;
      NothingBinned();
      var i := 0;
      while i < NBINS
        invariant i <= NBINS && forall j: nat :: j < NBINS ==> SmallHeader(j) in links
        modifies `links
      {
        links := links[SmallHeader(i) := Link(SmallHeader(i), SmallHeader(i))];
        i := i + 1;
      }
      StillNoBins(small, tries, old(links), links, nodes, smallmap, treemap, treebins);
    }

    lemma NothingBinned()
      requires Valid() && topsize == 0
      ensures top == 0 && free == map[] && ch == map[] && forall j: nat :: j < NBINS ==> SmallHeader(j) in links
    {
      hide Trie, Ring, Marked;
      assert FreeOf(ch) == map[];
      forall j: nat | j < NBINS ensures SmallHeader(j) in links {
        assert SmallBin(j, small[j], free, links, smallmap);
      }
    }

    // init_top
    method InitTop(p: Addr, psize: nat)
      requires p > 0 && p % 8 == 0
      modifies this`top, this`topsize, this`head
      ensures top == p && topsize == psize
      ensures head == old(head)[p := Head(psize, false, true)][p + psize := Head(TOP_FOOT_SIZE, false, false)]
    {
      hide AlignOffset;
      NoOffset(p);
      var offset := AlignOffset(p + 8);
      var q := p + offset;
      var qsize := psize - offset;
      top := q;
      topsize := qsize;
      head := head[q := Head(qsize, false, true)];
      head := head[q + qsize := Head(TOP_FOOT_SIZE, false, false)];
    }

    method FirstRegion(mp: Addr, asize: nat)
      requires Sound() && topsize == 0 && Fresh(segs, mp, asize) && asize % 8 == 0 && asize >= GRANULARITY
      modifies this
      ensures Sound() && topsize == asize - TOP_FOOT_SIZE && LiveOf(ch) == old(LiveOf(ch))
      ensures segs == [Segment(mp, asize)] && Extended(old(segs), segs, mp, asize)
      ensures Held() == Stock(map[], 0, 0, mp, asize - 40) && old(segs) == []
    {
      hide BinsOk, HeapOk, LandOk, Extended, Widened, Fresh, Ground, ExtentOf, LiveOf;
      NothingBinned();
      GroundIs();
      NoSegments(Ground());
      FreshRoom(segs, mp, asize);
      var ts := asize - TOP_FOOT_SIZE;
      FirstSegment(head, foot, mp, asize);
      FirstExtent(mp, ts);
      segs := [Segment(mp, asize)];
      InitBins();
      EmptyHeap();
      InitTop(mp, ts);
      ch := map[mp := Chunk(ts, Top), mp + ts := Chunk(0, End)];
      fins := [mp + ts];
      GroundIs();
      LandFirst(ExtentOf(ch), mp, asize);
    }

    lemma EmptyHeap()
      requires Valid() && topsize == 0
      ensures free == map[] && dvsize == 0 && dv == 0 && LiveOf(ch) == map[]
    {
      NothingBinned();
    }

    // the new region continues the current segment
    method Append(mp: Addr, asize: nat)
      requires Sound() && topsize > 0 && segs != [] && Fresh(segs, mp, asize) && asize % 8 == 0 && asize >= GRANULARITY
      requires mp == segs[0].base + segs[0].size
      modifies this
      ensures Sound() && topsize == old(topsize) + asize && LiveOf(ch) == old(LiveOf(ch))
      ensures Extended(old(segs), segs, mp, asize) && |segs| == |old(segs)|
      ensures Held() == old(Held()).(topsize := old(topsize) + asize)
    {
      hide BinsOk, HeapOk, LandOk, Extended, Widened, Fresh, Ground, ExtentOf, LiveOf, Grown, Geo, Tags, BinsValid;
      AppendedOk(mp, asize);
      var s := segs[0];
      segs := segs[0 := s.(size := s.size + asize)];
      ghost var e := top + topsize;
      InitTop(top, topsize + asize);
      ch := Grown(ch, top, e - top, asize);
      fins := fins[0 := e + asize];
      Join();
      GroundIs();
    }

    // the heap with top widened
    lemma AppendedOk(mp: Addr, asize: nat)
      requires Sound() && topsize > 0 && segs != [] && Fresh(segs, mp, asize) && asize % 8 == 0 && asize >= GRANULARITY
      requires mp == segs[0].base + segs[0].size
      ensures var e := top + topsize; var ch' := Grown(ch, top, topsize, asize);
        && HeapOk(ch', head[top := Head(topsize + asize, false, true)][e + asize := Head(TOP_FOOT_SIZE, false, false)], foot, free, dv, dvsize, top, topsize + asize)
        && LiveOf(ch') == LiveOf(ch) && top > 0 && top % 8 == 0 && |fins| == |segs| && BinsValid()
        && var segs' := segs[0 := Segment(segs[0].base, segs[0].size + asize)];
           LandOk(Land(ExtentOf(ch'), e + asize, segs', fins[0 := e + asize])) && Extended(segs, segs', mp, asize)
    {
      hide BinsOk, HeapOk, LandOk, Extended, Widened, Fresh, Ground, ExtentOf, LiveOf, Grown, Geo, Tags;
      GroundIs();
      AppendRoom(mp, asize);
      AppendOk(ch, head, foot, free, dv, dvsize, top, topsize, asize);
      LimitIs(Ground());
      LandAppend(Ground(), ExtentOf(Grown(ch, top, topsize, asize)), asize);
    }

    lemma AppendRoom(mp: Addr, asize: nat)
      requires Sound() && topsize > 0 && segs != [] && Fresh(segs, mp, asize) && mp == segs[0].base + segs[0].size && asize >= TOP_FOOT_SIZE
      ensures mp == top + topsize + TOP_FOOT_SIZE && top + topsize + asize < WORD && top > 0 && top % 8 == 0
      ensures Vacant(ch, top + topsize + 1, top + topsize + asize + 1)
    {
      hide BinsOk, Tags;
      ValidFacts();
      LooseFacts(ch, head, foot, top);
      FreshVacant(ch, Ground(), mp, asize);
      TailVacant(ch, Ground());
      FreshRoom(segs, mp, asize);
    }

    lemma FrontKinds(p: Addr, nb: nat, n: Addr)
      requires Valid() && n in ch && n > 0 && Vacant(ch, p, n) && p + nb < n
      ensures p + nb !in free && (ch[n].kind == Free <==> n in free) && (ch[n].kind == Dv ==> n == dv)
    {
      hide BinsOk, Geo, Tags;
      ValidFacts();
      Kinds(ch, dv, dvsize, top, topsize);
    }

    // prepend_alloc: the new block p, and the rest of the region, which joins the chunk the
    // old segment starts with
    method PrependAlloc(newbase: Addr, oldbase: Addr, nb: nat) returns (mem: Addr)
      requires Valid() && topsize > 0 && newbase > 0 && newbase % 8 == 0 && newbase < oldbase && oldbase % 8 == 0
      requires nb % 8 == 0 && MIN_CHUNK_SIZE <= nb && nb + MIN_CHUNK_SIZE <= oldbase - newbase
      requires oldbase in ch && ch[oldbase].kind != End && oldbase in head && head[oldbase].pinuse
      requires Vacant(ch, newbase, oldbase) && forall p :: p in ch && p < newbase ==> p + ch[p].size <= newbase
      modifies this`links, this`nodes, this`smallmap, this`treemap, this`treebins, this`small, this`tries, this`free
      modifies this`head, this`foot, this`ch, this`dv, this`dvsize, this`top, this`topsize
      ensures Valid() && mem == newbase + 8 && newbase !in old(LiveOf(ch)) && LiveOf(ch) == old(LiveOf(ch))[newbase := nb]
      ensures Widened(old(ExtentOf(ch)), ExtentOf(ch), newbase, oldbase) && ExtentOf(ch).ends == old(ExtentOf(ch)).ends
      ensures top + topsize == old(top + topsize)
      ensures FrontTaken(old(ch), old(Held()), Held(), newbase, nb, oldbase)
    {
      hide Remainder, FrontTaken, Returned, BinsOk, HeapOk, Widened, ExtentOf, LiveOf, Vacant, Ground, AlignOffset;
      GroundIs();
      NoOffset(newbase);
      NoOffset(oldbase);
      var p := newbase + AlignOffset(newbase + 8);
      var oldfirst := oldbase + AlignOffset(oldbase + 8);
      var psize := oldfirst - p;
      var q := p + nb;
      var qsize := psize - nb;
      ghost var ch0, s0 := ch, Held();
      FrontKinds(p, nb, oldfirst);
      FrontOk(ch, head, foot, free, dv, dvsize, top, topsize, p, nb, qsize);
      head := head[p := Head(nb, true, true)];
      ghost var live := LiveOf(ch);
      ch := Fronted(ch, p, nb, qsize);
      FrontIn(ch0, p, nb, qsize);
      hide Fronted;
      GroundIs();
      RemainderIs(q, qsize, oldfirst, head[q := Head(qsize, true, true)]);
      JoinRemainder(q, qsize, oldfirst, head[q := Head(qsize, true, true)]);
      FrontTakenIs(ch0, s0, Held(), p, nb, oldfirst);
      GroundIs();
      assert live[p := nb][q := qsize] - {q} == live[p := nb];
      mem := p + 8;
    }

    // the remainder q in front of the chunk oldfirst, with head1 the heads once q's is written
    ghost predicate Remainder(q: Addr, qsize: nat, oldfirst: Addr, head1: Heads)
      reads this
    {
      && BinsValid() && Geo(ch) && Tags(ch, head1, foot) && DvOk(ch, dv, dvsize) && TopOk(ch, top, topsize) && topsize > 0
      && Pend(ch, head1, q, qsize, {q}) && Shadow(head, head1, q) && free == FreeOf(ch) - {q}
      && q in ch && ch[q] == Chunk(qsize, Used) && q > 0 && q != dv && q != top && q !in free
      && oldfirst == q + qsize && oldfirst in ch && oldfirst > 0 && ch[oldfirst].kind != End
      && oldfirst in head1 && oldfirst in head && head[oldfirst] == head1[oldfirst]
    }

    lemma RemainderIs(q: Addr, qsize: nat, oldfirst: Addr, head1: Heads)
      requires BinsValid() && HeapOk(ch, head1, foot, free, dv, dvsize, top, topsize) && topsize > 0
      requires q in ch && ch[q] == Chunk(qsize, Used) && head1 == head[q := Head(qsize, true, true)]
      requires oldfirst == q + qsize && oldfirst in ch && ch[oldfirst].kind != End
      ensures Remainder(q, qsize, oldfirst, head1)
    {
      hide BinsOk, Geo, Tags, Pend, FreeOf, DvOk, TopOk;
      HeapParts(ch, head1, foot, free, dv, dvsize, top, topsize);
      BackMerge(ch, head1, foot, q);
      ShadowOne(head, head1, q);
      PendFacts(ch, head1, q, qsize, {q}, top, topsize);
      OnlyUsed(ch, free, dv, dvsize, top, topsize, q);
      AfterUsed(ch, head1, foot, dv, dvsize, top, topsize, oldfirst);
      hide Shadow;
    }

    // The remainder, whose word is still to be written, is merged into what follows it.
    method JoinRemainder(q: Addr, qsize: nat, oldfirst: Addr, ghost head1: Heads)
      requires Remainder(q, qsize, oldfirst, head1)
      modifies this`links, this`nodes, this`smallmap, this`treemap, this`treebins, this`small, this`tries, this`free
      modifies this`head, this`foot, this`ch, this`dv, this`dvsize, this`top, this`topsize
      ensures Valid() && LiveOf(ch) == old(LiveOf(ch)) - {q} && Ground() == old(Ground())
      ensures q in old(ch) && Next(old(ch), q) in old(ch) && Returned(old(ch), old(Held()), Held(), q, q)
    {
      hide BinsOk, Geo, Tags, Pend, LiveOf, FreeOf, ExtentOf, Ground, DvOk, TopOk, Shadow, Returned;
      ghost var ch0, s0 := ch, Held();
      Kinds(ch, dv, dvsize, top, topsize);
      assert free - {q} == free;
      if oldfirst == top {
        GrowTop(q, qsize, {q}, head1);
        ReturnedTop(ch0, s0, Held(), q, q);
      } else if oldfirst == dv {
        AfterUsed(ch, head1, foot, dv, dvsize, top, topsize, oldfirst);
        ForwardMerge(ch, head1, foot, q, qsize, {q});
        SkipNext(ch, free, dv, dvsize, top, topsize, oldfirst, {q});
        GrowDv(q, qsize + dvsize, false, {q} + {oldfirst}, head1);
        assert free - {q, oldfirst} == free;
        ReturnedDv(ch0, s0, Held(), q, q);
      } else {
        JoinBinned(q, qsize, oldfirst, head1);
        assert s0.free - {q, oldfirst} == s0.free - {oldfirst};
        ReturnedBin(ch0, s0, Held(), q, q);
      }
    }

    // ... into a free chunk, or a bin
    method JoinBinned(q: Addr, qsize: nat, oldfirst: Addr, ghost head1: Heads)
      requires Remainder(q, qsize, oldfirst, head1) && oldfirst != top && oldfirst != dv
      modifies this`links, this`nodes, this`smallmap, this`treemap, this`treebins, this`small, this`tries, this`free
      modifies this`head, this`foot, this`ch
      ensures Valid() && LiveOf(ch) == old(LiveOf(ch)) - {q} && Ground() == old(Ground())
      ensures var n := old(ch)[oldfirst]; free == (old(free) - {oldfirst})[q := if Loose(n.kind) then qsize + n.size else qsize]
    {
      hide Entered, Gone, Extracted, BinsOk, Geo, Tags, Pend, LiveOf, FreeOf, ExtentOf, Ground, DvOk, TopOk, Shadow;
      PendFacts(ch, head1, q, qsize, {q}, top, topsize);
      AfterUsed(ch, head1, foot, dv, dvsize, top, topsize, oldfirst);
      if !head[oldfirst].cinuse {
        ForwardMerge(ch, head1, foot, q, qsize, {q});
        SkipNext(ch, free, dv, dvsize, top, topsize, oldfirst, {q});
        var nsize := head[oldfirst].size;
        UnlinkChunk(oldfirst, nsize);
        BinFree(q, qsize + nsize, true, {q} + {oldfirst}, head1);
      } else {
        NotBinned(oldfirst);
        assert free - {oldfirst} == free;
        BinFree(q, qsize, true, {q}, head1);
      }
    }

    // the new region ends where segment i starts
    method PrependRegion(i: nat, mp: Addr, asize: nat, nb: nat) returns (mem: Addr)
      requires Sound() && topsize > 0 && i < |segs| && segs[i].base == mp + asize && Fresh(segs, mp, asize)
      requires nb % 8 == 0 && MIN_CHUNK_SIZE <= nb && nb + SYS_ALLOC_PADDING <= asize && asize % 8 == 0
      modifies this
      ensures Sound() && mem == mp + 8 && mp !in old(LiveOf(ch)) && LiveOf(ch) == old(LiveOf(ch))[mp := nb]
      ensures Extended(old(segs), segs, mp, asize) && |segs| == |old(segs)|
      ensures FrontTaken(old(ch), old(Held()), Held(), mp, nb, mp + asize)
    {
      hide FrontTaken, BinsOk, HeapOk, LandOk, Extended, Widened, Fresh, Ground, ExtentOf, LiveOf, Geo, Tags, Vacant;
      GroundIs();
      ghost var l := Ground();
      PrependRoom(i, mp, asize);
      var oldbase := segs[i].base;
      segs := segs[i := Segment(mp, segs[i].size + asize)];
      mem := PrependAlloc(mp, oldbase, nb);
      GroundIs();
      LandPrepend(l, ExtentOf(ch), i, mp, asize);
    }

    lemma PrependRoom(i: nat, mp: Addr, asize: nat)
      requires Sound() && i < |segs| && segs[i].base == mp + asize && Fresh(segs, mp, asize) && asize % 8 == 0
      ensures var b := segs[i].base; b in ch && ch[b].kind != End && b in head && head[b].pinuse
      ensures mp > 0 && mp % 8 == 0 && Vacant(ch, mp, mp + asize)
      ensures forall p :: p in ch && p < mp ==> p + ch[p].size <= mp
    {
      hide BinsOk, Geo, Tags, LandOk, Vacant;
      FreshRoom(segs, mp, asize);
      FreshVacant(ch, Ground(), mp, asize);
      EndsBefore(ch, Ground(), mp, asize);
      BaseChunk(ch, head, foot, Ground(), i);
    }

    // the fenceposts from tnext to the end of the old segment
    method Fence(tnext: Addr, oldEnd: Addr) returns (nfences: nat)
      requires tnext + 12 <= oldEnd
      modifies this`head
      ensures tnext in head && head[tnext] == Head(0, true, true) && nfences >= 2
      ensures forall a :: a < tnext || a >= oldEnd ==> (a in head <==> a in old(head)) && (a in head ==> head[a] == old(head)[a])
    {
      var p := tnext;
      nfences := 0;
      while true
        invariant tnext <= p && p + 4 < oldEnd && p == tnext + 4 * nfences
        invariant nfences > 0 ==> tnext in head && head[tnext] == Head(0, true, true)
        invariant forall a :: a < tnext || a >= oldEnd ==> (a in head <==> a in old(head)) && (a in head ==> head[a] == old(head)[a])
        decreases oldEnd - p
      {
        var nextp := p + 4;
        head := head[p := Head(0, true, true)];
        nfences := nfences + 1;
        if nextp + 4 < oldEnd {
          p := nextp;
        } else {
          break;
        }
      }
    }

    // segment_holding. A segment that ends with the address space holds nothing to it, as its
    // end wraps around to 0.
    method SegmentHolding(a: Addr) returns (found: bool, i: nat)
      requires forall j :: 0 <= j < |segs| ==> segs[j].base > 0 && segs[j].base + segs[j].size <= WORD
      ensures found <==> exists j :: 0 <= j < |segs| && Holds(segs[j], a) && segs[j].base + segs[j].size < WORD
      ensures found ==> i < |segs| && Holds(segs[i], a) && EndOf(segs[i]) == segs[i].base + segs[i].size
      ensures found ==> forall j :: 0 <= j < i && Holds(segs[j], a) ==> segs[j].base + segs[j].size == WORD
    {
      i := 0;
      while i < |segs| && !(a >= segs[i].base && a < EndOf(segs[i]))
        invariant i <= |segs| && forall j :: 0 <= j < i && Holds(segs[j], a) ==> segs[j].base + segs[j].size == WORD
        decreases |segs| - i
      {
        i := i + 1;
      }
      found := i < |segs|;
    }

    // the end of add_segment: the segment record, the fenceposts, and the words of what is
    // left of the old top
    method WriteRecord(csp: Addr, oldTop: Addr, oldEnd: Addr)
      requires oldTop <= csp && csp + RECORD_SIZE + 12 <= oldEnd
      modifies this`head, this`foot
      ensures csp in head && head[csp] == Head(RECORD_SIZE, true, csp == oldTop)
      ensures csp + RECORD_SIZE in head && head[csp + RECORD_SIZE] == Head(0, true, true)
      ensures csp != oldTop ==> oldTop in head && head[oldTop] == Head(csp - oldTop, false, true)
      ensures forall a :: (a < csp + RECORD_SIZE || a >= oldEnd) && a != csp && a != oldTop ==>
                (a in head <==> a in old(head)) && (a in head ==> head[a] == old(head)[a])
      ensures foot == if csp != oldTop then old(foot)[csp := csp - oldTop] else old(foot)
    {
      head := head[csp := Head(RECORD_SIZE, true, true)];
      var nfences := Fence(csp + RECORD_SIZE, oldEnd);
      if csp != oldTop {
        var psize := csp - oldTop;
        head := head[csp := head[csp].(pinuse := false)];
        head := head[oldTop := Head(psize, false, true)];
        foot := foot[csp := psize];
      }
    }

    // all words add_segment writes
    method LayOut(tbase: Addr, ts: nat, csp: Addr, oldTop: Addr, oldEnd: Addr, ghost topsize0: nat)
      requires Sealable(ch, oldTop, topsize0) && Vacant(ch, tbase, tbase + ts + 1) && tbase > 0 && tbase % 8 == 0
      requires tbase + ts < oldTop || tbase >= oldTop + topsize0 + TOP_FOOT_SIZE
      requires topsize0 % 8 == 0 && topsize0 >= 8 && csp == RecordAt(oldTop, topsize0) && oldEnd == oldTop + topsize0 + TOP_FOOT_SIZE && ts > 0
      modifies this`head, this`foot, this`top, this`topsize
      ensures top == tbase && topsize == ts
      ensures SealWords(ch, old(head), head, old(foot), foot, oldTop, topsize0)
      ensures tbase in head && head[tbase] == Head(ts, false, true) && tbase + ts in head && !head[tbase + ts].pinuse
    {
      hide Vacant, Sealable, SealWords, HeapOk, Geo, Tags;
      InitTop(tbase, ts);
      WriteRecord(csp, oldTop, oldEnd);
      SealWordsIntro(ch, old(head), head, old(foot), foot, oldTop, topsize0, tbase, ts);
    }

    // the chunks after add_segment wrote its words
    lemma AddedOk(head0: Heads, foot0: Feet, oldTop: Addr, topsize0: nat, tbase: Addr, tsize: nat, l: Land)
      requires AddReady(ch, head0, foot0, free, dv, dvsize, oldTop, topsize0, tbase, tsize, l)
      requires SealWords(ch, head0, head, foot0, foot, oldTop, topsize0)
      requires var ts := tsize - TOP_FOOT_SIZE;
               tbase in head && head[tbase] == Head(ts, false, true) && tbase + ts in head && !head[tbase + ts].pinuse
      ensures var ts := tsize - TOP_FOOT_SIZE; var ch' := Topped(Sealed(ch, oldTop, topsize0), tbase, ts);
              var segs' := [Segment(tbase, tsize)] + l.segs;
              && HeapOk(ch', head, foot, if topsize0 < MIN_CHUNK_SIZE then free else free[oldTop := topsize0], dv, dvsize, tbase, ts)
              && LiveOf(ch') == LiveOf(ch)
              && |l.fins| > 0
              && LandOk(Land(ExtentOf(ch'), tbase + ts, segs', [tbase + ts] + l.fins[0 := RecordAt(oldTop, topsize0) + RECORD_SIZE]))
              && Extended(l.segs, segs', tbase, tsize)
    {
      hide BinsOk, HeapOk, LandOk, Extended, Widened, Fresh, ExtentOf, LiveOf, Vacant, Sealable, Topped, Sealed, SealWords;
      var ts := tsize - TOP_FOOT_SIZE;
      LimitIs(l);
      AddOk(ch, head0, head, foot0, foot, free, dv, dvsize, oldTop, topsize0, tbase, ts);
      LandAdd(l, ExtentOf(Sealed(ch, oldTop, topsize0)), ExtentOf(Topped(Sealed(ch, oldTop, topsize0), tbase, ts)),
              tbase, tsize, RecordAt(oldTop, topsize0) + RECORD_SIZE);
    }

    // add_segment. It is lost, dereferencing NULL, when the current segment ends
    // with the address space.
    method AddSegment(tbase: Addr, tsize: nat) returns (lost: bool)
      requires Sound() && topsize > 0 && Fresh(segs, tbase, tsize) && tsize % 8 == 0 && tsize >= GRANULARITY
      modifies this
      ensures Sound() && LiveOf(ch) == old(LiveOf(ch))
      ensures lost <==> old(EndsAtTop())
      ensures lost ==> segs == old(segs) && Held() == old(Held())
      ensures !lost ==> OldTopBinned(old(Held()), Held(), tbase, tsize)
      ensures !lost ==> segs == [Segment(tbase, tsize)] + old(segs) && Extended(old(segs), segs, tbase, tsize)
    {
      hide BinsOk, HeapOk, LandOk, Extended, Widened, Fresh, Ground, ExtentOf, LiveOf, Geo, Tags, Vacant, Sealable, Holds, Topped, Sealed, SealWords, Valid, BinsValid;
      GroundIs();
      Split();
      AddRoom(tbase, tsize);
      ghost var l, head0, foot0, topsize0 := Ground(), head, foot, topsize;
      var oldTop := top;
      var found, i := SegmentHolding(oldTop);
      if !found {
        return true;
      }
      lost := false;
      var oldEnd := EndOf(segs[i]);
      var csp := RecordSpot(oldTop, oldEnd, topsize0);
      hide RecordAt, EndOf;
      LayOut(tbase, tsize - TOP_FOOT_SIZE, csp, oldTop, oldEnd, topsize0);
      segs := [Segment(tbase, tsize)] + segs;
      Adopt(head0, foot0, oldTop, csp, topsize0, tbase, tsize, l);
    }

    // the current segment ends with the address space
    ghost predicate EndsAtTop()
      reads this`segs
    {
      segs != [] && segs[0].base + segs[0].size == WORD
    }

    // the region follows the current segment, or a segment follows it
    ghost predicate Adjoins(mp: Addr, size: nat)
      reads this`segs
    {
      || (segs != [] && segs[0].base + segs[0].size == mp)
      || StartsAt(segs, mp + size)
    }

    // sys_alloc is lost on this answer: the region is to become a segment of its own, and the
    // current one ends with the address space
    ghost predicate Stray(nb: nat, mp: Addr)
      reads this`segs, this`topsize
    {
      && mp != 0 && AllocSize(nb) > nb && topsize > 0 && EndsAtTop()
      && forall i :: 0 <= i < |segs| ==> segs[i].base != mp + AllocSize(nb)
    }

    lemma StrayIs(nb: nat, mp: Addr, size: nat)
      requires topsize > 0 && mp != 0 && Fresh(segs, mp, size) && size == AllocSize(nb) > nb
      ensures Stray(nb, mp) <==> EndsAtTop() && !Adjoins(mp, size)
    {
      hide AllocSize;
    }

    // the system does not help
    ghost predicate Unmet(nb: nat, mp: Addr)
      reads this`segs, this`topsize
    {
      mp == 0 || AllocSize(nb) <= nb || Stray(nb, mp)
    }

    // the end of add_segment, its words all written
    method Adopt(ghost head0: Heads, ghost foot0: Feet, oldTop: Addr, csp: Addr, ghost topsize0: nat, tbase: Addr, tsize: nat, ghost l: Land)
      requires BinsValid() && AddReady(ch, head0, foot0, free, dv, dvsize, oldTop, topsize0, tbase, tsize, l)
      requires SealWords(ch, head0, head, foot0, foot, oldTop, topsize0)
      requires var ts := tsize - TOP_FOOT_SIZE;
               && tbase in head && head[tbase] == Head(ts, false, true) && tbase + ts in head && !head[tbase + ts].pinuse
               && top == tbase && topsize == ts
      requires segs == [Segment(tbase, tsize)] + l.segs && fins == l.fins
      requires if topsize0 < MIN_CHUNK_SIZE then csp == oldTop else csp == oldTop + topsize0
      requires csp == RecordAt(oldTop, topsize0) && oldTop > 0 && oldTop !in free && topsize0 % 8 == 0 && topsize0 < WORD
      modifies this`links, this`nodes, this`smallmap, this`treemap, this`treebins, this`small, this`tries, this`free, this`ch, this`fins
      ensures Sound() && LiveOf(ch) == old(LiveOf(ch)) && Extended(l.segs, segs, tbase, tsize)
      ensures free == if topsize0 < 16 then old(free) else old(free)[oldTop := topsize0]
    {
      hide BinsOk, HeapOk, LandOk, Extended, Ground, ExtentOf, LiveOf, Topped, Sealed, SealWords, RecordAt, Valid, BinsValid, AddReady;
      AddedOk(head0, foot0, oldTop, topsize0, tbase, tsize, l);
      ch := Topped(Sealed(ch, oldTop, topsize0), tbase, topsize);
      fins := [tbase + topsize] + l.fins[0 := csp + RECORD_SIZE];
      BinOldTop(oldTop, csp, topsize0);
      GroundIs();
    }

    // "insert the rest of old top into a bin as an ordinary free chunk"
    method BinOldTop(oldTop: Addr, csp: Addr, ghost ts: nat)
      requires BinsValid() && HeapOk(ch, head, foot, if ts < MIN_CHUNK_SIZE then free else free[oldTop := ts], dv, dvsize, top, topsize)
      requires oldTop > 0 && oldTop !in free && ts % 8 == 0 && ts < WORD
      requires if ts < MIN_CHUNK_SIZE then csp == oldTop else csp == oldTop + ts
      modifies this`links, this`nodes, this`smallmap, this`treemap, this`treebins, this`small, this`tries, this`free
      ensures Valid() && free == if csp != oldTop then old(free)[oldTop := ts] else old(free)
    {
      hide Entered, Gone, Extracted, BinsOk, HeapOk;
      if csp != oldTop {
        HeapHeadSizes(ch, head, foot, free[oldTop := ts], dv, dvsize, top, topsize);
        FewerSizes(free, head, oldTop, ts);
        InsertChunk(oldTop, csp - oldTop);
      }
    }

    lemma AddRoom(b: Addr, size: nat)
      requires Sound() && topsize > 0 && Fresh(segs, b, size) && size % 8 == 0 && size >= GRANULARITY
      ensures segs != [] && |fins| == |segs| && top + topsize + TOP_FOOT_SIZE == segs[0].base + segs[0].size && fins[0] == top + topsize
      ensures forall i :: 0 <= i < |segs| ==> (Holds(segs[i], top) <==> i == 0)
      ensures Sealable(ch, top, topsize) && top > 0 && top % 8 == 0 && topsize % 8 == 0 && topsize >= 8 && top !in free
      ensures b > 0 && b % 8 == 0 && Vacant(ch, b, b + size) && Vacant(ch, b, b + size - TOP_FOOT_SIZE + 1)
      ensures forall p :: p in ch && p < b ==> p + ch[p].size <= b
      ensures b + size <= top || b >= top + topsize + TOP_FOOT_SIZE
      ensures b + size <= WORD && top + topsize + TOP_FOOT_SIZE <= WORD
      ensures forall i :: 0 <= i < |segs| ==> 0 < segs[i].base < WORD && segs[i].base + segs[i].size <= WORD
    {
      hide BinsOk, Tags, Within;
      ValidFacts();
      LooseFacts(ch, head, foot, top);
      FreshRoom(segs, b, size);
      FreshVacant(ch, Ground(), b, size);
      EndsBefore(ch, Ground(), b, size);
      TailVacant(ch, Ground());
      SegmentsApart(Ground(), 0, 0);
      forall i: nat | i < |segs| ensures Holds(segs[i], top) <==> i == 0 { TopSegment(ch, Ground(), top, topsize, i); }
      forall i: nat | i < |segs| ensures 0 < segs[i].base < WORD && segs[i].base + segs[i].size <= WORD { SegmentsApart(Ground(), i, i); }
      assert Holds(segs[0], top);
      assert Disjoint(Segment(b, size), segs[0]);
    }

    // sys_alloc, when the system answers the request for a region of AllocSize(nb) bytes with
    // mp (0 for none)
    method SysAlloc(nb: nat, mp: Addr) returns (mem: Addr, lost: bool)
      requires Sound() && MIN_CHUNK_SIZE <= nb < WORD && (nb < WORD - 1 ==> nb % 8 == 0)
      requires mp != 0 ==> Fresh(segs, mp, AllocSize(nb))
      modifies this
      ensures Sound()
      ensures mem == 0 <==> old(Unmet(nb, mp))
      ensures lost <==> old(Stray(nb, mp))
      ensures mem == 0 ==> LiveOf(ch) == old(LiveOf(ch)) && segs == old(segs) && Held() == old(Held())
      // a region next to a segment joins it, and the block is the front of top or of the region
      ensures mem != 0 ==> |segs| == |old(segs)| + if old(Adjoins(mp, AllocSize(nb))) then 0 else 1
      ensures mem != 0 ==> top == mem - 8 + nb || (mem == mp + 8 && StartsAt(old(segs), mp + AllocSize(nb)))
      ensures mem != 0 ==> Supplied(old(LiveOf(ch)), LiveOf(ch), mem, nb) && Extended(old(segs), segs, mp, AllocSize(nb))
      ensures mem != 0 ==> TakenIn(old(segs), old(ch), old(Held()), Held(), nb, mp, AllocSize(nb))
    {
      hide FrontTaken, BinsOk, HeapOk, LandOk, Extended, Fresh, Ground, LiveOf, Holds;
      AllocSizeFits(nb);
      mem, lost := 0, false;
      var asize := AllocSize(nb);
      if asize <= nb || mp == 0 {
        return;
      }
      assert nb % 8 == 0;
      ghost var live := LiveOf(ch);
      ghost var segs0 := segs;
      if topsize == 0 {
        FirstRegion(mp, asize);
      } else {
        mem, lost := GrowSegments(nb, mp, asize);
        if mem != 0 || lost {
          return;
        }
      }
      assert LiveOf(ch) == live && Extended(segs0, segs, mp, asize);
      Sources(nb);
      GroundIs();
      var p := AllocFromTop(nb);
      GroundIs();
      mem := p + 8;
    }

    // the first segment that ends at a, or |segs|
    method EndingAt(a: Addr) returns (sp: nat)
      ensures sp <= |segs| && (sp < |segs| ==> EndOf(segs[sp]) == a) && forall i :: 0 <= i < sp ==> EndOf(segs[i]) != a
    {
      sp := 0;
      while sp < |segs| && a != EndOf(segs[sp])
        invariant sp <= |segs| && forall i :: 0 <= i < sp ==> EndOf(segs[i]) != a
      {
        sp := sp + 1;
      }
    }

    // the first segment that starts at a, or |segs|
    method StartingAt(a: Addr) returns (sp: nat)
      ensures sp <= |segs| && (sp < |segs| ==> segs[sp].base == a) && forall i :: 0 <= i < sp ==> segs[i].base != a
    {
      sp := 0;
      while sp < |segs| && segs[sp].base != a
        invariant sp <= |segs| && forall i :: 0 <= i < sp ==> segs[i].base != a
      {
        sp := sp + 1;
      }
    }

    // a segment that ends at mp and holds top is the current one
    lemma EndingFirst(mp: Addr, sp: nat)
      requires segs != [] && sp <= |segs| && mp < WORD && forall i :: 0 <= i < sp ==> EndOf(segs[i]) != mp
      requires sp < |segs| ==> EndOf(segs[sp]) == mp
      requires forall i :: 0 <= i < |segs| ==> (Holds(segs[i], top) <==> i == 0) && 0 < segs[i].base && segs[i].base + segs[i].size <= WORD
      ensures sp < |segs| && segs[sp].base <= top < EndOf(segs[sp]) <==> segs[0].base + segs[0].size == mp
      ensures segs[0].base + segs[0].size == mp ==> sp == 0
    {
      HoldsIs(segs[0], top);
      if sp < |segs| { HoldsIs(segs[sp], top); }
      hide Holds;
    }

    // the three ways to take in a region once there are segments; a block if it was prepended
    method GrowSegments(nb: nat, mp: Addr, asize: nat) returns (mem: Addr, lost: bool)
      requires Sound() && topsize > 0 && nb % 8 == 0 && MIN_CHUNK_SIZE <= nb && asize == AllocSize(nb) > nb && nb < WORD
      requires mp != 0 && Fresh(segs, mp, asize)
      modifies this
      ensures Sound() && (lost <==> old(Stray(nb, mp)))
      ensures lost ==> mem == 0 && LiveOf(ch) == old(LiveOf(ch)) && segs == old(segs) && Held() == old(Held())
      ensures !lost ==> Extended(old(segs), segs, mp, asize)
      ensures !lost ==> |segs| == |old(segs)| + if old(Adjoins(mp, asize)) then 0 else 1
      ensures mem != 0 ==> mem == mp + 8 && StartsAt(old(segs), mp + asize)
      ensures mem != 0 ==> Supplied(old(LiveOf(ch)), LiveOf(ch), mem, nb)
      ensures !lost && mem == 0 ==> LiveOf(ch) == old(LiveOf(ch)) && topsize > nb
      ensures !lost ==>
        if old(segs != [] && segs[0].base + segs[0].size == mp) then mem == 0 && Held() == old(Held()).(topsize := old(topsize) + asize)
        else if old(StartsAt(segs, mp + asize)) then mem != 0 && FrontTaken(old(ch), old(Held()), Held(), mp, nb, mp + asize)
        else mem == 0 && OldTopBinned(old(Held()), Held(), mp, asize)
    {
      AllocSizeFits(nb);
      StrayIs(nb, mp, asize);
      hide FrontTaken, OldTopBinned, StartsAt, BinsOk, HeapOk, LandOk, Extended, Fresh, Ground, LiveOf, Holds, AllocSize, Stray;
      mem, lost := 0, false;
      AddRoom(mp, asize);
      var sp := EndingAt(mp);
      EndingFirst(mp, sp);
      hide EndOf;
      if sp < |segs| && segs[sp].base <= top < EndOf(segs[sp]) {
        Append(mp, asize);
      } else {
        mem, lost := PlaceRegion(nb, mp, asize);
      }
    }

    // a region that does not continue the current segment
    method PlaceRegion(nb: nat, mp: Addr, asize: nat) returns (mem: Addr, lost: bool)
      requires Sound() && topsize > 0 && nb % 8 == 0 && MIN_CHUNK_SIZE <= nb && nb + SYS_ALLOC_PADDING <= asize
      requires asize % 8 == 0 && asize >= GRANULARITY
      requires mp != 0 && Fresh(segs, mp, asize) && (segs != [] ==> segs[0].base + segs[0].size != mp)
      modifies this
      ensures Sound() && (lost <==> old(EndsAtTop() && !Adjoins(mp, asize)))
      ensures lost ==> mem == 0 && LiveOf(ch) == old(LiveOf(ch)) && segs == old(segs) && Held() == old(Held())
      ensures !lost ==> Extended(old(segs), segs, mp, asize)
      ensures !lost ==> |segs| == |old(segs)| + if old(Adjoins(mp, asize)) then 0 else 1
      ensures mem != 0 ==> mem == mp + 8 && StartsAt(old(segs), mp + asize)
      ensures mem != 0 ==> Supplied(old(LiveOf(ch)), LiveOf(ch), mem, nb)
      ensures !lost && mem == 0 ==> LiveOf(ch) == old(LiveOf(ch)) && topsize > nb
      ensures !lost ==> if old(StartsAt(segs, mp + asize)) then mem != 0 && FrontTaken(old(ch), old(Held()), Held(), mp, nb, mp + asize)
                        else mem == 0 && OldTopBinned(old(Held()), Held(), mp, asize)
    {
      hide FrontTaken, BinsOk, HeapOk, LandOk, Extended, Fresh, Ground, LiveOf, Holds;
      AddRoom(mp, asize);
      mem, lost := 0, false;
      var sp := StartingAt((mp + asize) % WORD);
      assert Adjoins(mp, asize) <==> sp < |segs|;
      assert StartsAt(segs, mp + asize) <==> sp < |segs|;
      if sp < |segs| {
        mem := PrependRegion(sp, mp, asize, nb);
      } else {
        lost := AddSegment(mp, asize);
      }
    }

    // ---------------- for the entry points ----------------

    // some chunk on hand serves nb bytes
    ghost predicate OnHand(nb: nat)
      reads this
    {
      !(NoFit(free, nb) && dvsize < nb && topsize <= nb)
    }

    lemma LiveKind(p: Addr)
      ensures p in LiveOf(ch) <==> p in ch && ch[p].kind == Used
      ensures p in LiveOf(ch) ==> LiveOf(ch)[p] == ch[p].size
    {}

    lemma HeapGround()
      requires Sound()
      ensures Geo(ch) && Tags(ch, head, foot) && LandOk(Ground()) && Ground().extent == ExtentOf(ch) && Ground().segs == segs
    {}

    // no chunk has more than 2^32 - 4096 bytes, since no segment starts in the first page
    lemma SizeBounds()
      requires Sound()
      ensures forall a :: a in free ==> free[a] + 0x1000 <= WORD
      ensures dvsize + 0x1000 <= WORD && topsize + 0x1000 <= WORD
    {
      hide BinsOk, Geo, Tags, LandOk, DvOk, TopOk;
      ValidFacts();
      HeapGround();
      forall a | a in ch ensures ch[a].size + 0x1000 <= WORD { SizeBound(ch, Ground(), a); }
      DvTopIn();
    }

    lemma DvTopIn()
      requires DvOk(ch, dv, dvsize) && TopOk(ch, top, topsize)
      ensures dvsize > 0 ==> dv in ch && ch[dv].size == dvsize
      ensures topsize > 0 ==> top in ch && ch[top].size == topsize
    {}

    lemma PolicyOnHand(nb: nat)
      ensures forall v :: Policy(nb, v) ==> OnHand(nb)
    {}

    lemma RequestKinds(bytes: nat)
      requires bytes < WORD
      ensures var nb := RequestSize(bytes); MIN_CHUNK_SIZE <= nb < WORD && (nb < WORD - 1 ==> nb % 8 == 0)
      ensures bytes >= MAX_REQUEST ==> RequestSize(bytes) == WORD - 1 && AllocSize(RequestSize(bytes)) <= RequestSize(bytes)
    {
      if bytes < MAX_REQUEST { RequestFits(bytes); }
    }

    // Room, for any address
    ghost function RoomAt(p: Addr): nat
      reads this
    {
      if Valid() && p in ch && ch[p].kind == Used then Room(p) else 0
    }

    // cut block p in two and give back the first part
    method CutLead(p: Addr, newp: Addr, leadsize: nat, newsize: nat)
      requires Valid() && p in ch && ch[p] == Chunk(leadsize + newsize, Used) && newp == p + leadsize
      requires leadsize % 8 == 0 && MIN_CHUNK_SIZE <= leadsize && MIN_CHUNK_SIZE <= newsize
      modifies this
      ensures Valid() && Ground() == old(Ground()) && newp !in old(LiveOf(ch))
      ensures LiveOf(ch) == (old(LiveOf(ch)) - {p})[newp := newsize]
      ensures GivenBack(old(ch)[p := Chunk(leadsize, Used)][newp := Chunk(newsize, Used)], old(Held()), Held(), p)
    {
      hide GivenBack, BinsOk, HeapOk, LiveOf, Ground, ExtentOf, SetInuse;
      BlockEnd(p);
      ghost var live := LiveOf(ch);
      GroundIs();
      SplitUsed(ch, head, foot, free, dv, dvsize, top, topsize, p, leadsize);
      SetInuseTail(head, p, leadsize, newsize);
      assert newp !in live by { LiveIn(ch); }
      head := SetPinuse(head[newp := Head(newsize, true, if newp in head then head[newp].pinuse else false)], newp + newsize);
      head := SetInuse(head, p, leadsize);
      ch := ch[p := Chunk(leadsize, Used)][newp := Chunk(newsize, Used)];
      GroundIs();
      DisposeChunk(p, leadsize);
      assert live[p := leadsize][newp := newsize] - {p} == (live - {p})[newp := newsize];
    }

    // Give back the part of block p in front of the first aligned address that leaves room
    // for a chunk; a is the alignment, 2^n.
    method GiveLead(p: Addr, a: nat, ghost n: nat, nb: nat) returns (newp: Addr)
      requires Sound() && p in ch && ch[p].kind == Used && 4 <= n < 32 && a == Pow2(n) && a <= 0x8000_0000
      requires !MultipleOf(p + 8, a) && nb + a + MIN_CHUNK_SIZE <= ch[p].size && nb >= MIN_CHUNK_SIZE
      modifies this
      ensures Sound() && newp > p && MultipleOf(newp + 8, a) && newp !in old(LiveOf(ch)) && segs == old(segs)
      ensures newp in ch && ch[newp].kind == Used && nb <= ch[newp].size
      ensures LiveOf(ch) == (old(LiveOf(ch)) - {p})[newp := ch[newp].size]
      // the front, of as few bytes from 16 on as will do, is given back like a block
      ensures 16 <= newp - p <= a + 8 && newp - p < old(ch[p].size) && var lead := newp - p;
        GivenBack(old(ch)[p := Chunk(lead, Used)][newp := Chunk(old(ch[p].size) - lead, Used)], old(Held()), Held(), p)
    {
      hide GivenBack, BinsOk, HeapOk, LiveOf, LandOk, Ground, ExtentOf, Pow2, MultipleOf;
      BlockEnd(p);
      var size := head[p].size;
      newp := AlignedSpot(p, a, n);
      var leadsize := newp - p;
      var newsize := size - leadsize;
      GroundIs();
      CutLead(p, newp, leadsize, newsize);
      GroundIs();
      LiveAt(ch, newp);
    }

    // give back spare room at the end of block p
    method GiveTail(p: Addr, nb: nat)
      requires Sound() && p in LiveOf(ch) && nb <= LiveOf(ch)[p] && nb % 8 == 0 && nb >= MIN_CHUNK_SIZE
      modifies this
      ensures Sound() && segs == old(segs) && p in LiveOf(ch) && nb <= LiveOf(ch)[p] <= nb + MIN_CHUNK_SIZE
      ensures LiveOf(ch) == old(LiveOf(ch))[p := LiveOf(ch)[p]]
      ensures p in old(ch) && if old(ch[p].size) <= nb + 16 then Held() == old(Held())
              else LiveOf(ch)[p] == nb && Next(old(ch), p) in old(ch) && Resized(old(ch), old(Held()), Held(), p, nb)
    {
      hide Resized, BinsOk, HeapOk, LiveOf, LandOk, Ground;
      LiveAt(ch, p);
      BlockEnd(p);
      GroundIs();
      var psize := head[p].size;
      if psize > nb + MIN_CHUNK_SIZE {
        ShrinkBlock(p, nb, psize - nb);
        GroundIs();
      }
    }
  }
}
