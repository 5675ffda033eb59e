/** The regions the allocator got from the system (kernel/libc/malloc/malloc.c:2467-2475,
    2696-2705, 3891-3974, 3977-4027, 4171-4220). */
module Segments {
  import opened Rings
  import opened BinIndex
  import opened Tries
  import opened Chunks

  datatype Segment = Segment(base: Addr, size: nat)

  // where the heap lies: the bytes and end markers of its chunks, the address behind the top
  // chunk, the segment records (the current one first), and where each segment's chunks end
  datatype Land = Land(extent: Extent, limit: Addr, segs: seq<Segment>, fins: seq<Addr>)

  const GRANULARITY: nat := 0x1_0000
  const SYS_ALLOC_PADDING: nat := 48           // TOP_FOOT_SIZE + MALLOC_ALIGNMENT
  const RECORD_SIZE: nat := 24                 // pad_request(sizeof(struct malloc_segment))

  // what sys_alloc asks of the system for nb bytes; at most nb when the sum wraps around
  function AllocSize(nb: nat): nat {
    (nb + SYS_ALLOC_PADDING + GRANULARITY - 1) % WORD / GRANULARITY * GRANULARITY
  }

  lemma AllocSizeFits(nb: nat)
    requires nb < WORD
    ensures AllocSize(nb) > nb <==> nb + SYS_ALLOC_PADDING <= AllocSize(nb)
    ensures AllocSize(nb) > nb <==> nb + SYS_ALLOC_PADDING + GRANULARITY <= WORD
    ensures AllocSize(nb) % 8 == 0 && AllocSize(nb) < WORD
    ensures AllocSize(nb) > nb ==> AllocSize(nb) < nb + SYS_ALLOC_PADDING + GRANULARITY
  {}

  predicate Holds(s: Segment, a: Addr) {
    s.base <= a < s.base + s.size
  }

  // base + size in 32 bits: 0 for a segment that ends with the address space
  function EndOf(s: Segment): Addr {
    (s.base + s.size) % WORD
  }

  predicate Disjoint(s: Segment, t: Segment) {
    s.base + s.size <= t.base || t.base + t.size <= s.base
  }

  // the chunks of s run from its base to fin, before its last 16 bytes
  predicate Laid(s: Segment, fin: Addr) {
    s.base >= 0x1000 && s.base % 8 == 0 && s.base < fin && fin + 16 <= s.base + s.size <= WORD
  }

  predicate HeldBy(segs: seq<Segment>, fins: seq<Addr>, i: nat, a: int)
    requires i < |segs| == |fins|
  {
    segs[i].base <= a < fins[i]
  }

  ghost predicate Within(segs: seq<Segment>, fins: seq<Addr>, a: int)
    requires |segs| == |fins|
  {
    exists i: nat :: i < |segs| && HeldBy(segs, fins, i, a)
  }

  // the segments are disjoint and hold exactly the chunks
  ghost predicate Spread(l: Land) {
    && |l.segs| == |l.fins|
    && (forall i :: 0 <= i < |l.segs| ==> Laid(l.segs[i], l.fins[i]))
    && (forall i, j :: 0 <= i < j < |l.segs| ==> Disjoint(l.segs[i], l.segs[j]))
    && (forall a :: a in l.extent.bytes <==> Within(l.segs, l.fins, a))
    && (forall e :: e in l.extent.ends <==> e in l.fins)
  }

  // ... and the top chunk ends the current one
  ghost predicate LandOk(l: Land) {
    && Spread(l)
    && (l.segs == [] <==> l.limit == 0)
    && (l.segs != [] ==> l.limit == l.fins[0] && l.limit + TOP_FOOT_SIZE == l.segs[0].base + l.segs[0].size)
  }

  // a region the system may hand out next: page-aligned memory outside every segment
  predicate Fresh(segs: seq<Segment>, base: Addr, size: nat) {
    && base > 0 && base % 4096 == 0 && base + size <= WORD
    && (forall i :: 0 <= i < |segs| ==> Disjoint(Segment(base, size), segs[i]))
  }

  ghost predicate Vacant(ch: Partition, lo: int, hi: int) {
    forall p :: p in ch ==> p < lo || p >= hi
  }

  // ---------------- where chunks can and cannot be ----------------

  lemma SegmentsApart(l: Land, i: nat, j: nat)
    requires Spread(l) && i < |l.segs| && j < |l.segs|
    ensures Laid(l.segs[i], l.fins[i]) && Laid(l.segs[j], l.fins[j])
    ensures i != j ==> Disjoint(l.segs[i], l.segs[j])
  {
    if j < i { assert Disjoint(l.segs[j], l.segs[i]); }
  }

  lemma ChunkSomewhere(ch: Partition, l: Land, p: Addr) returns (i: nat)
    requires Geo(ch) && LandOk(l) && l.extent == ExtentOf(ch) && p in ch
    ensures i < |l.segs| && l.segs[i].base <= p <= l.fins[i] < l.segs[i].base + l.segs[i].size
  {
    assert Placed(ch, p);
    if ch[p].kind == End {
      assert p in l.extent.ends;
      i :| i < |l.fins| && l.fins[i] == p;
    } else {
      assert Covered(ch, p);
      assert p in l.extent.bytes;
      i :| i < |l.segs| && HeldBy(l.segs, l.fins, i, p);
    }
  }

  lemma SizeBound(ch: Partition, l: Land, p: Addr)
    requires Geo(ch) && LandOk(l) && l.extent == ExtentOf(ch) && p in ch
    ensures ch[p].size + 0x1000 <= WORD
  {
    var i := ChunkSomewhere(ch, l, p);
    SegmentsApart(l, i, i);
    assert Placed(ch, p);
  }

  lemma FreshVacant(ch: Partition, l: Land, base: Addr, size: nat)
    requires Geo(ch) && LandOk(l) && l.extent == ExtentOf(ch) && Fresh(l.segs, base, size)
    ensures Vacant(ch, base, base + size)
  {
    forall p | p in ch ensures p < base || p >= base + size {
      var i := ChunkSomewhere(ch, l, p);
      assert Disjoint(Segment(base, size), l.segs[i]);
    }
  }

  lemma EndsBefore(ch: Partition, l: Land, base: Addr, size: nat)
    requires Geo(ch) && LandOk(l) && l.extent == ExtentOf(ch) && Fresh(l.segs, base, size)
    ensures forall p :: p in ch && p < base ==> p + ch[p].size <= base
  {
    forall p | p in ch && p < base ensures p + ch[p].size <= base {
      var i := ChunkSomewhere(ch, l, p);
      assert Disjoint(Segment(base, size), l.segs[i]);
      assert Placed(ch, p);
      if ch[p].kind != End {
        assert Covered(ch, p) && p in l.extent.bytes;
        var j: nat :| j < |l.segs| && HeldBy(l.segs, l.fins, j, p);
        ChunkWithin(ch, l, p, j);
        assert Disjoint(Segment(base, size), l.segs[j]);
        SegmentsApart(l, j, j);
      }
    }
  }

  // behind the top chunk's end marker there is nothing up to the end of its segment
  lemma TailVacant(ch: Partition, l: Land)
    requires Geo(ch) && LandOk(l) && l.extent == ExtentOf(ch) && l.segs != []
    ensures Vacant(ch, l.limit + 1, l.limit + TOP_FOOT_SIZE)
  {
    forall p | p in ch ensures p <= l.limit || p >= l.limit + TOP_FOOT_SIZE {
      var i := ChunkSomewhere(ch, l, p);
      if i != 0 { assert Disjoint(l.segs[0], l.segs[i]); }
    }
  }

  // a segment starts with a chunk, whose pinuse bit is set
  lemma BaseChunk(ch: Partition, head: Heads, foot: Feet, l: Land, i: nat)
    requires Geo(ch) && Tags(ch, head, foot) && LandOk(l) && l.extent == ExtentOf(ch) && i < |l.segs|
    ensures var b := l.segs[i].base; b in ch && ch[b].kind != End && b in head && head[b].pinuse
  {
    hide Tags;
    var b := l.segs[i].base;
    assert HeldBy(l.segs, l.fins, i, b);
    assert Covered(ch, b) by { assert b in l.extent.bytes; }
    var p :| p in ch && ch[p].kind != End && p <= b < p + ch[p].size;
    NotBefore(l, i);
    assert !Covered(ch, b - 1) by { assert b - 1 !in l.extent.bytes; }
    assert p == b;
    InHead(ch, head, foot, b);
    if !head[b].pinuse {
      PriorOf(ch, head, foot, b);
    }
  }

  lemma NotBefore(l: Land, i: nat)
    requires LandOk(l) && i < |l.segs|
    ensures l.segs[i].base - 1 !in l.extent.bytes
  {
    var a := l.segs[i].base - 1;
    if a in l.extent.bytes {
      var j: nat :| j < |l.segs| && HeldBy(l.segs, l.fins, j, a);
      SegmentsApart(l, i, j);
    }
  }

  // a chunk ends within the segment it starts in
  lemma ChunkWithin(ch: Partition, l: Land, p: Addr, i: nat)
    requires LandOk(l) && l.extent == ExtentOf(ch) && p in ch && ch[p].kind != End
    requires i < |l.segs| && HeldBy(l.segs, l.fins, i, p)
    ensures p + ch[p].size <= l.fins[i]
  {
    var a := l.fins[i];
    if a < p + ch[p].size {
      assert Covered(ch, a);
      assert a in l.extent.bytes;
      var j: nat :| j < |l.segs| && HeldBy(l.segs, l.fins, j, a);
      SegmentsApart(l, i, j);
    }
  }

  // the top chunk lies in the current segment, and in no other
  lemma TopSegment(ch: Partition, l: Land, top: Addr, topsize: nat, i: nat)
    requires LandOk(l) && l.extent == ExtentOf(ch) && TopOk(ch, top, topsize) && topsize > 0
    requires l.limit == top + topsize && i < |l.segs|
    ensures Holds(l.segs[i], top) <==> i == 0
  {
    assert Covered(ch, top);
    assert top in l.extent.bytes;
    var j: nat :| j < |l.segs| && HeldBy(l.segs, l.fins, j, top);
    ChunkWithin(ch, l, top, j);
    SegmentsApart(l, 0, j);
    SegmentsApart(l, 0, i);
  }

  // Walking by sizes from a segment's base reaches its end marker exactly, top's behind top
  // itself, and every chunk is met on the walk through one segment.
  lemma SegmentWalk(ch: Partition, head: Heads, foot: Feet, l: Land, i: nat)
    requires Geo(ch) && Tags(ch, head, foot) && LandOk(l) && l.extent == ExtentOf(ch) && i < |l.segs|
    ensures var b, fin := l.segs[i].base, l.fins[i];
      && b in ch && fin in ch && ch[fin].kind == End && TotalSize(ch, Walk(ch, b, fin)) == fin - b
      && forall p :: p in Walk(ch, b, fin) <==> p in ch && b <= p < fin
  {
    hide Tags, Geo, LandOk;
    LandParts(l);
    BaseChunk(ch, head, foot, l, i);
    var b, fin := l.segs[i].base, l.fins[i];
    SegmentsApart(l, i, i);
    assert fin in ch && ch[fin].kind == End by { assert fin in l.extent.ends; }
    forall q | q in ch && b <= q < fin ensures ch[q].kind != End { NoMarker(ch, l, i, q); }
    WalkReaches(ch, b, fin);
  }

  lemma LandParts(l: Land)
    requires LandOk(l)
    ensures Spread(l)
  {}

  // between a segment's base and its end marker there is no other marker
  lemma NoMarker(ch: Partition, l: Land, i: nat, q: Addr)
    requires Spread(l) && l.extent == ExtentOf(ch) && i < |l.segs| && q in ch && l.segs[i].base <= q < l.fins[i]
    ensures ch[q].kind != End
  {
    if ch[q].kind == End {
      assert q in l.extent.ends;
      var j: nat :| j < |l.fins| && l.fins[j] == q;
      SegmentsApart(l, i, j);
    }
  }

  // ---------------- the first segment, and append ----------------

  // the top chunk grows by x bytes, its end marker moving along
  function Grown(ch: Partition, top: Addr, ts: nat, x: nat): Partition {
    (ch - {top + ts})[top := Chunk(ts + x, Top)][top + ts + x := Chunk(0, End)]
  }

  lemma AppendGeo(ch: Partition, top: Addr, ts: nat, x: nat)
    requires Geo(ch) && top in ch && ch[top] == Chunk(ts, Top)
    requires x % 8 == 0 && x > 0 && top + ts + x < WORD && Vacant(ch, top + ts + 1, top + ts + x + 1)
    ensures Geo(Grown(ch, top, ts, x))
  {
    var ch' := Grown(ch, top, ts, x);
    var e := top + ts;
    assert Placed(ch, top) && Placed(ch, e);
    forall p | p in ch' ensures Placed(ch', p) {
      if p != top && p != e + x {
        assert Placed(ch, p) && Beyond(ch, p, top) && Beyond(ch, top, p);
      }
    }
    forall p, r | p in ch' && r in ch' ensures Beyond(ch', p, r) {
      AppendBeyond(ch, top, ts, x, p, r);
    }
  }

  lemma AppendBeyond(ch: Partition, top: Addr, ts: nat, x: nat, p: Addr, r: Addr)
    requires Geo(ch) && top in ch && ch[top] == Chunk(ts, Top) && top + ts in ch
    requires x > 0 && Vacant(ch, top + ts + 1, top + ts + x + 1) && p in Grown(ch, top, ts, x) && r in Grown(ch, top, ts, x)
    ensures Beyond(Grown(ch, top, ts, x), p, r)
  {
    var e := top + ts;
    if p != e + x { assert Beyond(ch, p, top) && Beyond(ch, p, e) && Beyond(ch, top, p); }
    if p != e + x && r != e + x { assert Beyond(ch, p, r); }
  }

  lemma AppendTags(ch: Partition, head: Heads, foot: Feet, top: Addr, ts: nat, x: nat)
    requires Geo(ch) && Tags(ch, head, foot) && top in ch && ch[top] == Chunk(ts, Top)
    requires x > 0 && top + ts + x !in ch
    ensures Tags(Grown(ch, top, ts, x), head[top := Head(ts + x, false, true)][top + ts + x := Head(TOP_FOOT_SIZE, false, false)], foot)
  {
    var ch' := Grown(ch, top, ts, x);
    var e := top + ts;
    var head' := head[top := Head(ts + x, false, true)][e + x := Head(TOP_FOOT_SIZE, false, false)];
    LooseFacts(ch, head, foot, top);
    forall p | p in ch' ensures Tagged(ch', head', foot, p) {
      if p != top && p != e + x {
        assert Tagged(ch, head, foot, p) && Placed(ch, p);
        if ch[p].kind != End { assert Beyond(ch, p, top) && Beyond(ch, top, p); }
      }
    }
  }

  // an extent with more bytes, and one end marker for another
  ghost predicate Widened(l: Extent, l': Extent, lo: int, hi: int) {
    forall a :: a in l'.bytes <==> a in l.bytes || lo <= a < hi
  }

  lemma AppendExtent(ch: Partition, top: Addr, ts: nat, x: nat)
    requires Geo(ch) && top in ch && ch[top] == Chunk(ts, Top) && x > 0 && top + ts + x !in ch
    ensures var ext, ext' := ExtentOf(ch), ExtentOf(Grown(ch, top, ts, x));
            && Widened(ext, ext', top + ts, top + ts + x) && ext'.ends == ext.ends - {top + ts} + {top + ts + x}
    ensures FreeOf(Grown(ch, top, ts, x)) == FreeOf(ch) && LiveOf(Grown(ch, top, ts, x)) == LiveOf(ch)
  {
    var ch' := Grown(ch, top, ts, x);
    assert Placed(ch, top);
    forall a ensures Covered(ch', a) <==> Covered(ch, a) || top + ts <= a < top + ts + x {
      if Covered(ch, a) {
        var p :| p in ch && ch[p].kind != End && p <= a < p + ch[p].size;
        assert p in ch' && ch'[p].kind != End && p <= a < p + ch'[p].size;
      }
      if top + ts <= a < top + ts + x {
        assert ch'[top].kind != End && top <= a < top + ch'[top].size;
      }
      if Covered(ch', a) {
        var p :| p in ch' && ch'[p].kind != End && p <= a < p + ch'[p].size;
        assert p in ch && ch[p].kind != End;
      }
    }
    assert ExtentOf(ch').ends == ExtentOf(ch).ends - {top + ts} + {top + ts + x};
  }

  // init_top(m, m->top, m->topsize + x)
  lemma AppendOk(ch: Partition, head: Heads, foot: Feet, free: Sizes, dv: Addr, dvsize: nat, top: Addr, topsize: nat, x: nat)
    requires HeapOk(ch, head, foot, free, dv, dvsize, top, topsize) && topsize > 0 && x > 0
    requires x % 8 == 0 && top + topsize + x < WORD && Vacant(ch, top + topsize + 1, top + topsize + x + 1)
    ensures var e := top + topsize; var ch' := Grown(ch, top, topsize, x); var ext, ext' := ExtentOf(ch), ExtentOf(ch');
            && HeapOk(ch', head[top := Head(topsize + x, false, true)][e + x := Head(TOP_FOOT_SIZE, false, false)], foot,
                      free, dv, dvsize, top, topsize + x)
            && LiveOf(ch') == LiveOf(ch) && topsize % 8 == 0
            && Widened(ext, ext', e, e + x) && ext'.ends == ext.ends - {e} + {e + x}
  {
    hide Geo, Tags, ExtentOf;
    LooseFacts(ch, head, foot, top);
    AppendGeo(ch, top, topsize, x);
    AppendTags(ch, head, foot, top, topsize, x);
    AppendExtent(ch, top, topsize, x);
  }

  // ---------------- prepend ----------------

  // two blocks in use, of n and m bytes, in the vacant space in front of the chunk at b + n + m
  function Fronted(ch: Partition, b: Addr, n: nat, m: nat): Partition {
    ch[b := Chunk(n, Used)][b + n := Chunk(m, Used)]
  }

  lemma FrontGeo(ch: Partition, b: Addr, n: nat, m: nat)
    requires Geo(ch) && b > 0 && b % 8 == 0 && n % 8 == 0 && m % 8 == 0 && n >= MIN_CHUNK_SIZE && m >= MIN_CHUNK_SIZE
    requires b + n + m in ch && ch[b + n + m].kind != End && Vacant(ch, b, b + n + m)
    requires forall p :: p in ch && p < b ==> p + ch[p].size <= b
    ensures Geo(Fronted(ch, b, n, m))
  {
    var ch' := Fronted(ch, b, n, m);
    assert Placed(ch, b + n + m);
    forall p | p in ch' ensures Placed(ch', p) {
      if p in ch { assert Placed(ch, p); }
      FrontPlaced(ch, b, n, m, p);
    }
    forall p, r | p in ch' && r in ch' ensures Beyond(ch', p, r) {
      if p in ch && r in ch { assert Beyond(ch, p, r); }
      FrontBeyond(ch, b, n, m, p, r);
    }
  }

  lemma FrontPlaced(ch: Partition, b: Addr, n: nat, m: nat, p: Addr)
    requires b > 0 && b % 8 == 0 && n % 8 == 0 && m % 8 == 0 && n >= MIN_CHUNK_SIZE && m >= MIN_CHUNK_SIZE
    requires b + n + m in ch && Placed(ch, b + n + m) && ch[b + n + m].kind != End && Vacant(ch, b, b + n + m)
    requires p in Fronted(ch, b, n, m) && (p in ch ==> Placed(ch, p) && (p < b ==> p + ch[p].size <= b))
    ensures Placed(Fronted(ch, b, n, m), p)
  {
    var ch' := Fronted(ch, b, n, m);
    assert p in ch && p != b && p != b + n ==> ch'[p] == ch[p];
    assert p in ch && Next(ch, p) in ch ==> Next(ch, p) == b + n + m || Next(ch, p) < b || Next(ch, p) > b + n;
  }

  lemma FrontBeyond(ch: Partition, b: Addr, n: nat, m: nat, p: Addr, r: Addr)
    requires n > 0 && m > 0 && Vacant(ch, b, b + n + m) && forall q :: q in ch && q < b ==> q + ch[q].size <= b
    requires p in Fronted(ch, b, n, m) && r in Fronted(ch, b, n, m) && (p in ch && r in ch ==> Beyond(ch, p, r))
    ensures Beyond(Fronted(ch, b, n, m), p, r)
  {}

  lemma FrontTags(ch: Partition, head: Heads, foot: Feet, b: Addr, n: nat, m: nat)
    requires Geo(ch) && Tags(ch, head, foot) && n > 0 && m > 0 && b + n + m in ch && Vacant(ch, b, b + n + m)
    requires b + n + m in head && head[b + n + m].pinuse
    ensures Tags(Fronted(ch, b, n, m), head[b := Head(n, true, true)][b + n := Head(m, true, true)], foot)
  {
    var ch' := Fronted(ch, b, n, m);
    var head' := head[b := Head(n, true, true)][b + n := Head(m, true, true)];
    forall p | p in ch' ensures Tagged(ch', head', foot, p) {
      if p in ch { assert Tagged(ch, head, foot, p) && Placed(ch, p); }
    }
  }

  lemma FrontExtent(ch: Partition, b: Addr, n: nat, m: nat)
    requires n > 0 && m > 0 && Vacant(ch, b, b + n + m)
    ensures var ext, ext' := ExtentOf(ch), ExtentOf(Fronted(ch, b, n, m));
            Widened(ext, ext', b, b + n + m) && ext'.ends == ext.ends
    ensures FreeOf(Fronted(ch, b, n, m)) == FreeOf(ch)
    ensures LiveOf(Fronted(ch, b, n, m)) == LiveOf(ch)[b := n][b + n := m]
    ensures b !in LiveOf(ch) && b + n !in LiveOf(ch)
  {
    var ch' := Fronted(ch, b, n, m);
    forall a ensures Covered(ch', a) <==> Covered(ch, a) || b <= a < b + n + m {
      if Covered(ch, a) {
        var p :| p in ch && ch[p].kind != End && p <= a < p + ch[p].size;
        assert p in ch' && ch'[p].kind != End && p <= a < p + ch'[p].size;
      }
      if b <= a < b + n { assert ch'[b].kind != End && b <= a < b + ch'[b].size; }
      if b + n <= a < b + n + m { assert ch'[b + n].kind != End && b + n <= a < b + n + ch'[b + n].size; }
      if Covered(ch', a) {
        var p :| p in ch' && ch'[p].kind != End && p <= a < p + ch'[p].size;
        assert p in ch ==> ch[p].kind != End && p <= a < p + ch[p].size;
      }
    }
    assert ExtentOf(ch').ends == ExtentOf(ch).ends;
  }

  lemma FrontOk(ch: Partition, head: Heads, foot: Feet, free: Sizes, dv: Addr, dvsize: nat, top: Addr, topsize: nat, b: Addr, n: nat, m: nat)
    requires HeapOk(ch, head, foot, free, dv, dvsize, top, topsize) && topsize > 0
    requires b > 0 && b % 8 == 0 && n % 8 == 0 && m % 8 == 0 && n >= MIN_CHUNK_SIZE && m >= MIN_CHUNK_SIZE
    requires b + n + m in ch && ch[b + n + m].kind != End && Vacant(ch, b, b + n + m)
    requires forall p :: p in ch && p < b ==> p + ch[p].size <= b
    requires b + n + m in head && head[b + n + m].pinuse
    ensures var ch' := Fronted(ch, b, n, m); var ext, ext' := ExtentOf(ch), ExtentOf(ch');
            && HeapOk(ch', head[b := Head(n, true, true)][b + n := Head(m, true, true)], foot, free, dv, dvsize, top, topsize)
            && LiveOf(ch') == LiveOf(ch)[b := n][b + n := m] && b !in LiveOf(ch) && b + n !in LiveOf(ch)
            && Widened(ext, ext', b, b + n + m) && ext'.ends == ext.ends
  {
    hide Geo, Tags, ExtentOf;
    FrontGeo(ch, b, n, m);
    FrontTags(ch, head, foot, b, n, m);
    FrontExtent(ch, b, n, m);
  }

  // ---------------- add_segment ----------------

  // where the segment record goes: over top's end marker when top is big enough to be a
  // chunk of its own, else over top itself
  function RecordAt(top: Addr, ts: nat): Addr {
    if ts < MIN_CHUNK_SIZE then top else top + ts
  }

  // the old top becomes a free chunk (or vanishes), and a segment record ends the segment
  function Sealed(ch: Partition, top: Addr, ts: nat): Partition {
    var sp := RecordAt(top, ts);
    var c := if ts < MIN_CHUNK_SIZE then ch - {top + ts} else ch[top := Chunk(ts, Free)];
    c[sp := Chunk(RECORD_SIZE, Seg)][sp + RECORD_SIZE := Chunk(0, End)]
  }

  ghost predicate Sealable(ch: Partition, top: Addr, ts: nat) {
    && top in ch && ch[top] == Chunk(ts, Top)
    && top + ts + TOP_FOOT_SIZE <= WORD && Vacant(ch, top + ts + 1, top + ts + TOP_FOOT_SIZE)
  }

  lemma SealGeo(ch: Partition, top: Addr, ts: nat)
    requires Geo(ch) && Sealable(ch, top, ts)
    ensures Geo(Sealed(ch, top, ts))
  {
    var ch' := Sealed(ch, top, ts);
    var e := top + ts;
    var sp := RecordAt(top, ts);
    assert Placed(ch, top) && Placed(ch, e);
    forall p | p in ch' ensures Placed(ch', p) {
      if p != top && p != sp && p != sp + RECORD_SIZE {
        assert Placed(ch, p) && Beyond(ch, p, top) && Beyond(ch, top, p);
      }
    }
    forall p, r | p in ch' && r in ch' ensures Beyond(ch', p, r) {
      SealBeyond(ch, top, ts, p, r);
    }
  }

  lemma SealBeyond(ch: Partition, top: Addr, ts: nat, p: Addr, r: Addr)
    requires Geo(ch) && Sealable(ch, top, ts) && top + ts in ch && ts >= 8 && ts % 8 == 0
    requires p in Sealed(ch, top, ts) && r in Sealed(ch, top, ts)
    ensures Beyond(Sealed(ch, top, ts), p, r)
  {
    var e := top + ts;
    if p in ch { assert Beyond(ch, p, top) && Beyond(ch, p, e); }
    if p in ch && r in ch { assert Beyond(ch, p, r) && Beyond(ch, top, r); }
    if r in ch && r > top { assert Beyond(ch, top, r); }
  }

  // the words add_segment leaves behind in the old segment
  ghost predicate SealWords(ch: Partition, head: Heads, head': Heads, foot: Feet, foot': Feet, top: Addr, ts: nat) {
    var e := top + ts;
    var sp := RecordAt(top, ts);
    && sp in head' && head'[sp] == Head(RECORD_SIZE, true, sp == top)
    && sp + RECORD_SIZE in head' && head'[sp + RECORD_SIZE].pinuse
    && (sp != top ==> top in head' && head'[top] == Head(ts, false, true) && e in foot' && foot'[e] == ts)
    && (forall a :: a in ch && a != top && a != e && a in head ==> a in head' && head'[a] == head[a])
    && (forall a :: a in ch && a != e && a in foot ==> a in foot' && foot'[a] == foot[a])
  }

  lemma SealTags(ch: Partition, head: Heads, head': Heads, foot: Feet, foot': Feet, top: Addr, ts: nat)
    requires Geo(ch) && Tags(ch, head, foot) && Sealable(ch, top, ts)
    requires SealWords(ch, head, head', foot, foot', top, ts)
    ensures Tags(Sealed(ch, top, ts), head', foot')
  {
    hide Tags, Geo;
    LooseFacts(ch, head, foot, top);
    forall p | p in Sealed(ch, top, ts) ensures Tagged(Sealed(ch, top, ts), head', foot', p) {
      SealTagOne(ch, head, head', foot, foot', top, ts, p);
    }
    TagsIntro(Sealed(ch, top, ts), head', foot');
  }

  lemma TagsIntro(ch: Partition, head: Heads, foot: Feet)
    requires forall p :: p in ch ==> Tagged(ch, head, foot, p)
    ensures Tags(ch, head, foot)
  {}

  lemma SealTagOne(ch: Partition, head: Heads, head': Heads, foot: Feet, foot': Feet, top: Addr, ts: nat, p: Addr)
    requires Geo(ch) && Tags(ch, head, foot) && Sealable(ch, top, ts) && top + ts in ch && ts >= 8 && ts % 8 == 0
    requires SealWords(ch, head, head', foot, foot', top, ts) && p in Sealed(ch, top, ts)
    ensures Tagged(Sealed(ch, top, ts), head', foot', p)
  {
    var e := top + ts;
    var sp := RecordAt(top, ts);
    assert Placed(ch, top);
    if p != top && p != sp && p != sp + RECORD_SIZE {
      assert Tagged(ch, head, foot, p) && Placed(ch, p) && Beyond(ch, p, top) && Beyond(ch, top, p);
      if ch[p].kind != End && !head[p].pinuse {
        var w := p - foot[p];
        assert w in ch && ch[w].size == foot[p] && Loose(ch[w].kind);
        assert w != top && w != e && w != sp + RECORD_SIZE;
        assert w in Sealed(ch, top, ts) && Sealed(ch, top, ts)[w] == ch[w];
      }
    }
  }

  lemma SealExtent(ch: Partition, top: Addr, ts: nat)
    requires Geo(ch) && Sealable(ch, top, ts) && top + ts in ch && ts >= 8 && ts % 8 == 0
    ensures var ch' := Sealed(ch, top, ts); var e := top + ts; var fin := RecordAt(top, ts) + RECORD_SIZE;
            && Widened(ExtentOf(ch), ExtentOf(ch'), e, fin)
            && ExtentOf(ch').ends == ExtentOf(ch).ends - {e} + {fin}
  {
    var ch' := Sealed(ch, top, ts);
    var e := top + ts;
    var sp := RecordAt(top, ts);
    assert Placed(ch, top) && Placed(ch, e);
    forall a ensures Covered(ch', a) <==> Covered(ch, a) || e <= a < sp + RECORD_SIZE {
      if Covered(ch, a) {
        var p :| p in ch && ch[p].kind != End && p <= a < p + ch[p].size;
        assert p in ch' && ch'[p].kind != End && p <= a < p + ch'[p].size;
      }
      if e <= a < sp + RECORD_SIZE {
        assert sp in ch' && ch'[sp].kind != End && sp <= a < sp + ch'[sp].size;
      }
      if Covered(ch', a) {
        var p :| p in ch' && ch'[p].kind != End && p <= a < p + ch'[p].size;
        if p == sp { assert ch[top].kind != End && (a < e ==> top <= a < top + ch[top].size); } else { assert p in ch && ch[p].kind != End && p <= a < p + ch[p].size; }
      }
    }
    assert ExtentOf(ch').ends == ExtentOf(ch).ends - {e} + {sp + RECORD_SIZE};
  }

  lemma SealMaps(ch: Partition, top: Addr, ts: nat)
    requires Sealable(ch, top, ts) && top + ts in ch && ch[top + ts].kind == End && ts % 8 == 0 && ts > 0
    ensures FreeOf(Sealed(ch, top, ts)) == if ts < MIN_CHUNK_SIZE then FreeOf(ch) else FreeOf(ch)[top := ts]
    ensures LiveOf(Sealed(ch, top, ts)) == LiveOf(ch)
  {}

  // a top chunk of ts bytes in vacant space
  function Topped(ch: Partition, b: Addr, ts: nat): Partition {
    ch[b := Chunk(ts, Top)][b + ts := Chunk(0, End)]
  }

  lemma TopGeo(ch: Partition, b: Addr, ts: nat)
    requires Geo(ch) && b > 0 && b % 8 == 0 && ts % 8 == 0 && ts >= 8 && b + ts < WORD && Vacant(ch, b, b + ts + 1)
    requires forall p :: p in ch && p < b ==> p + ch[p].size <= b
    ensures Geo(Topped(ch, b, ts))
  {
    var ch' := Topped(ch, b, ts);
    forall p | p in ch' ensures Placed(ch', p) {
      if p in ch { assert Placed(ch, p); }
    }
    forall p, r | p in ch' && r in ch' ensures Beyond(ch', p, r) {
      if p in ch && r in ch { assert Beyond(ch, p, r); }
    }
  }

  lemma TopTags(ch: Partition, head: Heads, foot: Feet, b: Addr, ts: nat)
    requires Geo(ch) && Tags(ch, head, foot) && ts > 0 && Vacant(ch, b, b + ts + 1)
    requires b in head && head[b] == Head(ts, false, true) && b + ts in head && !head[b + ts].pinuse
    ensures Tags(Topped(ch, b, ts), head, foot)
  {
    var ch' := Topped(ch, b, ts);
    forall p | p in ch' ensures Tagged(ch', head, foot, p) {
      if p in ch { assert Tagged(ch, head, foot, p) && Placed(ch, p); }
    }
  }

  lemma TopExtent(ch: Partition, b: Addr, ts: nat)
    requires ts > 0 && Vacant(ch, b, b + ts + 1)
    ensures var ext, ext' := ExtentOf(ch), ExtentOf(Topped(ch, b, ts));
            Widened(ext, ext', b, b + ts) && ext'.ends == ext.ends + {b + ts}
    ensures FreeOf(Topped(ch, b, ts)) == FreeOf(ch) && LiveOf(Topped(ch, b, ts)) == LiveOf(ch)
  {
    var ch' := Topped(ch, b, ts);
    forall a ensures Covered(ch', a) <==> Covered(ch, a) || b <= a < b + ts {
      if Covered(ch, a) {
        var p :| p in ch && ch[p].kind != End && p <= a < p + ch[p].size;
        assert p in ch' && ch'[p].kind != End && p <= a < p + ch'[p].size;
      }
      if b <= a < b + ts { assert ch'[b].kind != End && b <= a < b + ch'[b].size; }
      if Covered(ch', a) {
        var p :| p in ch' && ch'[p].kind != End && p <= a < p + ch'[p].size;
        assert p in ch ==> ch[p].kind != End && p <= a < p + ch[p].size;
      }
    }
    assert ExtentOf(ch').ends == ExtentOf(ch).ends + {b + ts};
  }

  lemma AddOk(ch: Partition, head: Heads, head': Heads, foot: Feet, foot': Feet, free: Sizes, dv: Addr, dvsize: nat,
              top: Addr, topsize: nat, b: Addr, ts: nat)
    requires HeapOk(ch, head, foot, free, dv, dvsize, top, topsize) && topsize > 0 && Sealable(ch, top, topsize)
    requires b > 0 && b % 8 == 0 && ts % 8 == 0 && ts >= 8 && b + ts < WORD && Vacant(ch, b, b + ts + 1)
    requires forall p :: p in ch && p < b ==> p + ch[p].size <= b
    requires b + ts < top || b >= top + topsize + TOP_FOOT_SIZE
    requires SealWords(ch, head, head', foot, foot', top, topsize)
    requires b in head' && head'[b] == Head(ts, false, true) && b + ts in head' && !head'[b + ts].pinuse
    ensures var e := top + topsize; var fin := RecordAt(top, topsize) + RECORD_SIZE;
            var ch' := Topped(Sealed(ch, top, topsize), b, ts); var ext, ext1, ext' := ExtentOf(ch), ExtentOf(Sealed(ch, top, topsize)), ExtentOf(ch');
            && HeapOk(ch', head', foot', if topsize < MIN_CHUNK_SIZE then free else free[top := topsize], dv, dvsize, b, ts)
            && LiveOf(ch') == LiveOf(ch) && e <= fin && fin + 16 <= e + TOP_FOOT_SIZE
            && Widened(ext, ext1, e, fin) && ext1.ends == ext.ends - {e} + {fin}
            && Widened(ext1, ext', b, b + ts) && ext'.ends == ext1.ends + {b + ts}
  {
    hide Geo, Tags, ExtentOf, LiveOf, FreeOf, SealWords, Sealable, Widened;
    LooseFacts(ch, head, foot, top);
    SealableIs(ch, top, topsize);
    SealGeo(ch, top, topsize);
    SealTags(ch, head, head', foot, foot', top, topsize);
    SealExtent(ch, top, topsize);
    SealMaps(ch, top, topsize);
    var ch1 := Sealed(ch, top, topsize);
    assert Vacant(ch1, b, b + ts + 1);
    assert forall p :: p in ch1 && p < b ==> p + ch1[p].size <= b;
    TopGeo(ch1, b, ts);
    TopTags(ch1, head', foot', b, ts);
    TopExtent(ch1, b, ts);
    var ch' := Topped(ch1, b, ts);
    assert DvOk(ch', dv, dvsize);
    assert TopOk(ch', b, ts);
  }

  lemma SealableIs(ch: Partition, top: Addr, ts: nat)
    requires Sealable(ch, top, ts)
    ensures top in ch && ch[top] == Chunk(ts, Top) && top + ts + TOP_FOOT_SIZE <= WORD
    ensures Vacant(ch, top + ts + 1, top + ts + TOP_FOOT_SIZE)
  {}

  // ---------------- the segments after each of the four ways to grow ----------------

  ghost predicate Owned(segs: seq<Segment>, a: int) {
    exists i :: 0 <= i < |segs| && Holds(segs[i], a)
  }

  // the segments hold what they did, and the region [b, b + x)
  ghost predicate Extended(segs: seq<Segment>, segs': seq<Segment>, b: Addr, x: nat) {
    forall a :: Owned(segs', a) <==> Owned(segs, a) || b <= a < b + x
  }

  lemma FirstExtent(b: Addr, ts: nat)
    requires ts > 0
    ensures var ext := ExtentOf(map[b := Chunk(ts, Top), b + ts := Chunk(0, End)]);
            Widened(Extent(iset{}, {}), ext, b, b + ts) && ext.ends == {b + ts}
  {
    var ch: Partition := map[b := Chunk(ts, Top), b + ts := Chunk(0, End)];
    forall a ensures Covered(ch, a) <==> b <= a < b + ts {
      if b <= a < b + ts { assert ch[b].kind != End && b <= a < b + ch[b].size; }
    }
  }

  lemma LimitIs(l: Land)
    requires LandOk(l) && l.segs != []
    ensures |l.fins| == |l.segs| && l.fins[0] == l.limit
  {}

  lemma NoSegments(l: Land)
    requires LandOk(l) && l.limit == 0
    ensures l.segs == []
  {}

  lemma LandFirst(ext: Extent, b: Addr, size: nat)
    requires b >= 0x1000 && b % 8 == 0 && size % 8 == 0 && TOP_FOOT_SIZE < size && b + size <= WORD
    requires var fin := b + size - TOP_FOOT_SIZE; Widened(Extent(iset{}, {}), ext, b, fin) && ext.ends == {fin}
    ensures var fin := b + size - TOP_FOOT_SIZE;
            LandOk(Land(ext, fin, [Segment(b, size)], [fin])) && Extended([], [Segment(b, size)], b, size)
  {
    var fin := b + size - TOP_FOOT_SIZE;
    var segs := [Segment(b, size)];
    forall a ensures Within(segs, [fin], a) <==> b <= a < fin {
      assert HeldBy(segs, [fin], 0, a) <==> b <= a < fin;
    }
    forall a ensures Owned(segs, a) <==> b <= a < b + size { assert Holds(segs[0], a) <==> b <= a < b + size; }
  }

  // segment i, stretched over the region [b, b + x), and its chunks over [lo, hi)
  lemma Stretch(l: Land, ext: Extent, i: nat, s: Segment, fin: Addr, b: Addr, x: nat, lo: int, hi: int, limit: Addr)
    requires Spread(l) && i < |l.segs| && Laid(s, fin) && (x > 0 ==> Fresh(l.segs, b, x))
    requires s.base == (if x > 0 && b < l.segs[i].base then b else l.segs[i].base) && s.size == l.segs[i].size + x
    requires x > 0 ==> b + x == l.segs[i].base || b == l.segs[i].base + l.segs[i].size
    requires Widened(l.extent, ext, lo, hi) && lo <= hi
    requires (hi == l.segs[i].base && s.base == lo && fin == l.fins[i]) || (lo == l.fins[i] && fin == hi && s.base == l.segs[i].base)
    requires forall e :: e in ext.ends <==> e in l.fins[i := fin]
    ensures var segs' := l.segs[i := s]; Spread(Land(ext, limit, segs', l.fins[i := fin])) && Extended(l.segs, segs', b, x)
  {
    var segs', fins' := l.segs[i := s], l.fins[i := fin];
    assert Laid(l.segs[i], l.fins[i]);
    forall j, k | 0 <= j < k < |segs'| ensures Disjoint(segs'[j], segs'[k]) {
      assert Disjoint(l.segs[j], l.segs[k]);
      if x > 0 { assert Disjoint(Segment(b, x), l.segs[j]) && Disjoint(Segment(b, x), l.segs[k]); }
    }
    forall a ensures a in ext.bytes <==> Within(segs', fins', a) {
      OneChanged(l.segs, l.fins, segs', fins', i, a);
    }
    forall a ensures Owned(segs', a) <==> Owned(l.segs, a) || b <= a < b + x {
      OneChanged(l.segs, l.fins, segs', fins', i, a);
    }
  }

  // the bytes of all segments, when only entry i differs
  lemma OneChanged(segs: seq<Segment>, fins: seq<Addr>, segs': seq<Segment>, fins': seq<Addr>, i: nat, a: int)
    requires |segs| == |fins| == |segs'| == |fins'| && i < |segs|
    requires forall j :: 0 <= j < |segs| && j != i ==> segs'[j] == segs[j] && fins'[j] == fins[j]
    ensures Within(segs', fins', a) ==> HeldBy(segs', fins', i, a) || Within(segs, fins, a)
    ensures Within(segs, fins, a) ==> HeldBy(segs, fins, i, a) || Within(segs', fins', a)
    ensures HeldBy(segs', fins', i, a) ==> Within(segs', fins', a)
    ensures Owned(segs', a) ==> Holds(segs'[i], a) || Owned(segs, a)
    ensures Owned(segs, a) ==> Holds(segs[i], a) || Owned(segs', a)
    ensures Holds(segs'[i], a) ==> Owned(segs', a)
    ensures HeldBy(segs, fins, i, a) ==> Within(segs, fins, a)
    ensures Holds(segs[i], a) ==> Owned(segs, a)
  {
    if Within(segs, fins, a) {
      var j: nat :| j < |segs| && HeldBy(segs, fins, j, a);
      assert j != i ==> HeldBy(segs', fins', j, a);
    }
    if Within(segs', fins', a) {
      var j: nat :| j < |segs| && HeldBy(segs', fins', j, a);
      assert j != i ==> HeldBy(segs, fins, j, a);
    }
    if Owned(segs, a) {
      var j: nat :| j < |segs| && Holds(segs[j], a);
      assert j != i ==> Holds(segs'[j], a);
    }
    if Owned(segs', a) {
      var j: nat :| j < |segs| && Holds(segs'[j], a);
      assert j != i ==> Holds(segs[j], a);
    }
  }

  lemma EndsMoved(l: Land, ends: set<Addr>, i: nat, fin: Addr)
    requires Spread(l) && i < |l.segs| && ends == l.extent.ends - {l.fins[i]} + {fin}
    ensures forall e :: e in ends <==> e in l.fins[i := fin]
  {
    var fins' := l.fins[i := fin];
    forall j | 0 <= j < |l.fins| && j != i ensures l.fins[j] != l.fins[i] { SegmentsApart(l, i, j); }
    forall e | e in l.extent.ends && e != l.fins[i] ensures e in fins' {
      var j :| 0 <= j < |l.fins| && l.fins[j] == e;
      assert fins'[j] == e;
    }
    assert fins'[i] == fin;
    forall e | e in fins' ensures e in ends {
      var j :| 0 <= j < |fins'| && fins'[j] == e;
      if j != i { assert l.fins[j] == e && e in l.extent.ends; }
    }
  }

  lemma LandAppend(l: Land, ext: Extent, x: nat)
    requires LandOk(l) && l.segs != [] && x > 0 && Fresh(l.segs, l.segs[0].base + l.segs[0].size, x)
    requires Widened(l.extent, ext, l.limit, l.limit + x) && ext.ends == l.extent.ends - {l.limit} + {l.limit + x}
    ensures var s := l.segs[0]; var segs' := l.segs[0 := Segment(s.base, s.size + x)];
            && LandOk(Land(ext, l.limit + x, segs', l.fins[0 := l.limit + x]))
            && Extended(l.segs, segs', s.base + s.size, x)
  {
    hide Widened, Extended, Fresh;
    var s := l.segs[0];
    assert Laid(s, l.fins[0]);
    EndsMoved(l, ext.ends, 0, l.limit + x);
    FreshRoom(l.segs, s.base + s.size, x);
    Stretch(l, ext, 0, Segment(s.base, s.size + x), l.limit + x, s.base + s.size, x, l.limit, l.limit + x, l.limit + x);
  }

  lemma FreshRoom(segs: seq<Segment>, b: Addr, x: nat)
    requires Fresh(segs, b, x)
    ensures b >= 0x1000 && b % 8 == 0 && b + x <= WORD
    ensures forall i :: 0 <= i < |segs| ==> Disjoint(Segment(b, x), segs[i])
  {}

  lemma LandPrepend(l: Land, ext: Extent, i: nat, b: Addr, x: nat)
    requires LandOk(l) && i < |l.segs| && x > 0 && Fresh(l.segs, b, x) && b + x == l.segs[i].base
    requires Widened(l.extent, ext, b, b + x) && ext.ends == l.extent.ends
    ensures var s := l.segs[i]; var segs' := l.segs[i := Segment(b, s.size + x)];
            && LandOk(Land(ext, l.limit, segs', l.fins)) && Extended(l.segs, segs', b, x)
  {
    hide Widened, Extended, Fresh;
    var s := l.segs[i];
    assert Laid(s, l.fins[i]);
    assert l.fins[i := l.fins[i]] == l.fins;
    FreshRoom(l.segs, b, x);
    Stretch(l, ext, i, Segment(b, s.size + x), l.fins[i], b, x, b, b + x, l.limit);
  }

  lemma LandAdd(l: Land, ext1: Extent, ext: Extent, b: Addr, size: nat, fin: Addr)
    requires LandOk(l) && l.segs != [] && Fresh(l.segs, b, size) && size % 8 == 0 && TOP_FOOT_SIZE < size
    requires l.limit <= fin && fin + 16 <= l.limit + TOP_FOOT_SIZE
    requires Widened(l.extent, ext1, l.limit, fin) && ext1.ends == l.extent.ends - {l.limit} + {fin}
    requires Widened(ext1, ext, b, b + size - TOP_FOOT_SIZE) && ext.ends == ext1.ends + {b + size - TOP_FOOT_SIZE}
    ensures var t := b + size - TOP_FOOT_SIZE; var segs' := [Segment(b, size)] + l.segs;
            && LandOk(Land(ext, t, segs', [t] + l.fins[0 := fin])) && Extended(l.segs, segs', b, size)
  {
    var t := b + size - TOP_FOOT_SIZE;
    var fins1 := l.fins[0 := fin];
    var l1 := Land(ext1, t, l.segs, fins1);
    assert Spread(l1) by {
      hide Widened, Extended, Fresh;
      assert Laid(l.segs[0], l.fins[0]);
      assert l.segs[0 := l.segs[0]] == l.segs;
      EndsMoved(l, ext1.ends, 0, fin);
      Stretch(l, ext1, 0, l.segs[0], fin, b, 0, l.limit, fin, t);
    }
    PutInFront(l1, ext, b, size);
  }

  lemma FrontLaid(l: Land, b: Addr, size: nat)
    requires Spread(l) && Fresh(l.segs, b, size) && TOP_FOOT_SIZE < size
    ensures var segs', fins' := [Segment(b, size)] + l.segs, [b + size - TOP_FOOT_SIZE] + l.fins;
            && (forall i :: 0 <= i < |segs'| ==> Laid(segs'[i], fins'[i]))
            && (forall i, j :: 0 <= i < j < |segs'| ==> Disjoint(segs'[i], segs'[j]))
            && b > 0
  {
    assert |l.segs| == |l.fins|;
    hide Within, Laid, Disjoint, Spread, Fresh;
    FreshRoom(l.segs, b, size);
    var s, fin := Segment(b, size), b + size - TOP_FOOT_SIZE;
    var segs', fins' := [s] + l.segs, [fin] + l.fins;
    assert Laid(s, fin) by { NewLaid(b, size); }
    forall i, j | 0 <= i < j < |segs'| ensures Disjoint(segs'[i], segs'[j]) {
      if i > 0 { SegmentsApart(l, i - 1, j - 1); }
    }
    forall i | 0 <= i < |segs'| ensures Laid(segs'[i], fins'[i]) {
      if i > 0 { SegmentsApart(l, i - 1, i - 1); }
    }
  }

  lemma NewLaid(b: Addr, size: nat)
    requires b >= 0x1000 && b % 8 == 0 && b + size <= WORD && TOP_FOOT_SIZE < size
    ensures Laid(Segment(b, size), b + size - TOP_FOOT_SIZE)
  {}

  lemma PutInFront(l: Land, ext: Extent, b: Addr, size: nat)
    requires Spread(l) && Fresh(l.segs, b, size) && size % 8 == 0 && TOP_FOOT_SIZE < size
    requires Widened(l.extent, ext, b, b + size - TOP_FOOT_SIZE) && ext.ends == l.extent.ends + {b + size - TOP_FOOT_SIZE}
    ensures var t := b + size - TOP_FOOT_SIZE; var segs' := [Segment(b, size)] + l.segs;
            && LandOk(Land(ext, t, segs', [t] + l.fins)) && Extended(l.segs, segs', b, size)
  {
    hide Within, Owned, Laid, Disjoint, Fresh;
    var t := b + size - TOP_FOOT_SIZE;
    var segs', fins' := [Segment(b, size)] + l.segs, [t] + l.fins;
    FrontLaid(l, b, size);
    FrontBytes(l.segs, l.fins, segs', fins');
  }

  lemma FrontBytes(segs: seq<Segment>, fins: seq<Addr>, segs': seq<Segment>, fins': seq<Addr>)
    requires |segs| == |fins| && |segs'| == |fins'| == |segs| + 1 && segs'[1..] == segs && fins'[1..] == fins
    ensures forall a :: Within(segs', fins', a) <==> HeldBy(segs', fins', 0, a) || Within(segs, fins, a)
    ensures forall a :: Owned(segs', a) <==> Holds(segs'[0], a) || Owned(segs, a)
  {
    hide Within, Owned, HeldBy, Holds;
    forall j | 0 <= j < |segs| ensures segs'[j + 1] == segs[j] && fins'[j + 1] == fins[j] {
      assert segs'[1..][j] == segs'[j + 1] && fins'[1..][j] == fins'[j + 1];
    }
    forall a ensures Within(segs', fins', a) <==> HeldBy(segs', fins', 0, a) || Within(segs, fins, a) { Prefixed(segs, fins, segs', fins', a); }
    forall a ensures Owned(segs', a) <==> Holds(segs'[0], a) || Owned(segs, a) { Prefixed(segs, fins, segs', fins', a); }
  }

  lemma Prefixed(segs: seq<Segment>, fins: seq<Addr>, segs': seq<Segment>, fins': seq<Addr>, a: int)
    requires |segs| == |fins| && |segs'| == |fins'| == |segs| + 1
    requires forall j :: 0 <= j < |segs| ==> segs'[j + 1] == segs[j] && fins'[j + 1] == fins[j]
    ensures Within(segs', fins', a) <==> HeldBy(segs', fins', 0, a) || Within(segs, fins, a)
    ensures Owned(segs', a) <==> Holds(segs'[0], a) || Owned(segs, a)
  {
    if Within(segs, fins, a) {
      var j: nat :| j < |segs| && HeldBy(segs, fins, j, a);
      assert HeldBy(segs', fins', j + 1, a);
    }
    if Within(segs', fins', a) {
      var j: nat :| j < |segs'| && HeldBy(segs', fins', j, a);
      assert j > 0 ==> HeldBy(segs, fins, j - 1, a);
    }
    if Owned(segs, a) {
      var j: nat :| j < |segs| && Holds(segs[j], a);
      assert Holds(segs'[j + 1], a);
    }
    if Owned(segs', a) {
      var j: nat :| j < |segs'| && Holds(segs'[j], a);
      assert j > 0 ==> Holds(segs[j - 1], a);
    }
  }
}
