/** malloc, free, calloc, realloc and memalign, with large requests mapped on their own
    (kernel/libc/malloc/malloc.c:3821-3885, 4032-4045, 4539-4784, 4786-4883, 4885-4957, 5180-5261). */
module Heaps {
  import opened Rings
  import opened BinIndex
  import opened BinMaps
  import opened Bins
  import opened BestFit
  import opened Tries
  import opened Chunks
  import opened Segments
  import opened Alignment
  import opened Malloc
  import Memmove

  type Byte = Memmove.Byte

  const MMAP_THRESHOLD: nat := 0x4_0000
  const PAGE: nat := 0x1000
  const MMAP_FOOT_PAD: nat := 16

  // the bytes of n elements of e bytes each
  function Product(n: nat, e: nat): nat { n * e }

  // a mapped chunk's prev_foot, the way from its region's base, and its size
  datatype Mapped = Mapped(offset: nat, size: nat)

  type Maps = map<Addr, Mapped>

  // what mmap_alloc asks for; at most nb when the sum wraps around
  function MapSize(nb: nat): nat {
    (nb + 31 + PAGE - 1) % WORD / PAGE * PAGE
  }

  lemma MapSizeFits(nb: nat)
    requires nb < WORD
    ensures MapSize(nb) > nb ==> MapSize(nb) % 0x1000 == 0 && nb + 31 <= MapSize(nb) < nb + 31 + 0x1000
    ensures MapSize(nb) % 8 == 0 && MapSize(nb) < WORD && (nb == WORD - 1 ==> MapSize(nb) <= nb)
  {
    WholePages((nb + 31 + PAGE - 1) % WORD);
    assert (nb + 31 + PAGE - 1) % WORD == if nb + 31 + PAGE - 1 < WORD then nb + 31 + PAGE - 1 else nb + 31 + PAGE - 1 - WORD;
    assert MapSize(nb) == (nb + 31 + PAGE - 1) % WORD / PAGE * PAGE;
    hide MapSize;
  }

  lemma WholePages(x: nat)
    ensures var y := x / PAGE * PAGE; y % 0x1000 == 0 && y % 8 == 0 && y <= x < y + 0x1000
  {
    var q := x / PAGE;
    ModIs(0x1000 * q, 0x1000, q, 0);
    ModIs(0x1000 * q, 8, 0x200 * q, 0);
  }

  // In bytes: what is asked of the system for a request.
  lemma RequestedBytes(bytes: nat)
    ensures bytes <= 0xFFFF_FF00 ==> bytes + 4 <= RequestSize(bytes) <= bytes + 16
    ensures bytes >= 0xFFFF_FFC0 ==> RequestSize(bytes) == 0xFFFF_FFFF
    ensures bytes <= 0xFFFE_FFC0 ==> var x := AllocSize(RequestSize(bytes)); x % 0x1_0000 == 0 && bytes + 52 <= x < bytes + 64 + 0x1_0000
    ensures bytes <= 0xFFFF_0000 ==> var x := MapSize(RequestSize(bytes)); x % 0x1000 == 0 && bytes + 35 <= x < bytes + 47 + 0x1000
  {
    if bytes <= 0xFFFF_FF00 { RequestFits(bytes); }
    hide RequestSize;
    var nb := RequestSize(bytes);
    if bytes <= 0xFFFE_FFC0 { AllocSizeIs(nb); }
    if bytes <= 0xFFFF_0000 { MapSizeIs(nb); }
  }

  lemma AllocSizeIs(nb: nat)
    requires nb <= 0xFFFE_FFD0
    ensures AllocSize(nb) % 0x1_0000 == 0 && nb + 48 <= AllocSize(nb) < nb + 48 + 0x1_0000
  {}

  lemma MapSizeIs(nb: nat)
    requires nb <= 0xFFFF_0010
    ensures MapSize(nb) % 0x1000 == 0 && nb + 31 <= MapSize(nb) < nb + 31 + 0x1000
  {}

  // the region the chunk p lies in
  function RegionOf(p: Addr, m: Mapped): Segment {
    Segment(p - m.offset, m.offset + m.size + MMAP_FOOT_PAD)
  }

  predicate RegionOk(p: Addr, m: Mapped) {
    p - m.offset > 0 && p % 8 == 0 && m.size % 8 == 0 && m.size >= MIN_CHUNK_SIZE && p + m.size + MMAP_FOOT_PAD <= WORD
  }

  // mapped chunks lie in regions of their own
  ghost predicate MapsOk(maps: Maps, segs: seq<Segment>) {
    && (forall p :: p in maps ==> RegionOk(p, maps[p]))
    && (forall p, q :: p in maps && q in maps && p != q ==> Disjoint(RegionOf(p, maps[p]), RegionOf(q, maps[q])))
    && (forall p, i :: p in maps && 0 <= i < |segs| ==> Disjoint(RegionOf(p, maps[p]), segs[i]))
  }

  // memory the system may hand out next
  ghost predicate Available(segs: seq<Segment>, maps: Maps, base: Addr, size: nat) {
    Fresh(segs, base, size) && forall p :: p in maps ==> Disjoint(Segment(base, size), RegionOf(p, maps[p]))
  }

  // all blocks handed out, in segments and mapped
  ghost function Blocks(live: Sizes, maps: Maps): Sizes {
    live + map p | p in maps :: maps[p].size
  }

  // a chunk of a segment is not where a mapped chunk is, nor in its region
  lemma BlockApart(ch: Partition, l: Land, maps: Maps, p: Addr, q: Addr)
    requires Geo(ch) && LandOk(l) && l.extent == ExtentOf(ch) && MapsOk(maps, l.segs) && p in LiveOf(ch) && q in maps
    ensures p != q && (p + ch[p].size <= q - maps[q].offset || q + maps[q].size + MMAP_FOOT_PAD <= p)
  {
    assert Placed(ch, p);
    assert Covered(ch, p);
    assert p in l.extent.bytes;
    var i: nat :| i < |l.segs| && HeldBy(l.segs, l.fins, i, p);
    ChunkWithin(ch, l, p, i);
    SegmentsApart(l, i, i);
    assert Disjoint(RegionOf(q, maps[q]), l.segs[i]);
    assert RegionOk(q, maps[q]);
  }

  // Blocks handed out are aligned and never overlap, wherever they lie.
  lemma BlocksApart(ch: Partition, l: Land, maps: Maps, p: Addr, q: Addr)
    requires Geo(ch) && LandOk(l) && l.extent == ExtentOf(ch) && MapsOk(maps, l.segs)
    requires p in Blocks(LiveOf(ch), maps) && q in Blocks(LiveOf(ch), maps) && p < q
    ensures p > 0 && p % 8 == 0 && p + Blocks(LiveOf(ch), maps)[p] <= q
  {
    hide Geo, LandOk, ExtentOf, LiveOf;
    LiveIn(ch);
    LiveAt(ch, p);
    if p in maps && q in maps {
      assert Disjoint(RegionOf(p, maps[p]), RegionOf(q, maps[q]));
      assert RegionOk(p, maps[p]) && RegionOk(q, maps[q]);
    } else if p in maps {
      BlockApart(ch, l, maps, q, p);
      assert RegionOk(p, maps[p]);
    } else if q in maps {
      BlockApart(ch, l, maps, p, q);
      BlockAligned(ch, p);
      assert RegionOk(q, maps[q]);
    } else {
      LiveDisjoint(ch, p, q);
    }
  }

  lemma BlockAligned(ch: Partition, p: Addr)
    requires Geo(ch) && p in ch
    ensures p > 0 && p % 8 == 0
  {
    assert Placed(ch, p);
  }

  // segments grown over available memory leave the mapped regions alone
  lemma StillApart(segs: seq<Segment>, segs': seq<Segment>, maps: Maps, base: Addr, size: nat)
    requires MapsOk(maps, segs) && Available(segs, maps, base, size) && Extended(segs, segs', base, size)
    requires forall i :: 0 <= i < |segs'| ==> segs'[i].size > 0
    ensures MapsOk(maps, segs')
  {
    forall p, i | p in maps && 0 <= i < |segs'| ensures Disjoint(RegionOf(p, maps[p]), segs'[i]) {
      var r, s := RegionOf(p, maps[p]), segs'[i];
      assert RegionOk(p, maps[p]);
      var a := if r.base < s.base then s.base else r.base;
      if Holds(r, a) && Holds(s, a) {
        assert Owned(segs', a);
        NotOwned(segs, maps, p, a);
        assert Disjoint(Segment(base, size), r);
      }
    }
  }

  lemma NotOwned(segs: seq<Segment>, maps: Maps, p: Addr, a: int)
    requires MapsOk(maps, segs) && p in maps && Holds(RegionOf(p, maps[p]), a)
    ensures !Owned(segs, a)
  {
    forall i | 0 <= i < |segs| ensures !Holds(segs[i], a) { assert Disjoint(RegionOf(p, maps[p]), segs[i]); }
  }

  // one more region
  lemma OneMoreMap(segs: seq<Segment>, maps: Maps, mm: Addr, size: nat)
    requires MapsOk(maps, segs) && Available(segs, maps, mm, size) && size % 8 == 0 && size >= MIN_CHUNK_SIZE + MMAP_FOOT_PAD
    ensures mm !in maps && MapsOk(maps[mm := Mapped(0, size - MMAP_FOOT_PAD)], segs)
  {
    assert forall p :: p in maps ==> p != mm by {
      forall p | p in maps ensures p != mm { assert RegionOk(p, maps[p]) && Disjoint(Segment(mm, size), RegionOf(p, maps[p])); }
    }
    var m := Mapped(0, size - MMAP_FOOT_PAD);
    FreshRoom(segs, mm, size);
    assert RegionOf(mm, m) == Segment(mm, size);
  }

  // a mapped chunk moved on inside its region, as memalign does
  lemma MovedMap(segs: seq<Segment>, maps: Maps, p: Addr, lead: nat)
    requires MapsOk(maps, segs) && p in maps && lead % 8 == 0 && 0 < lead && lead + MIN_CHUNK_SIZE <= maps[p].size
    ensures p + lead !in maps
    ensures MapsOk((maps - {p})[p + lead := Mapped(maps[p].offset + lead, maps[p].size - lead)], segs)
  {
    var newp, m := p + lead, Mapped(maps[p].offset + lead, maps[p].size - lead);
    assert RegionOk(p, maps[p]);
    assert RegionOf(newp, m) == RegionOf(p, maps[p]) && RegionOk(newp, m);
    forall q | q in maps ensures q != newp {
      assert RegionOk(q, maps[q]);
      if q != p { assert Disjoint(RegionOf(p, maps[p]), RegionOf(q, maps[q])); }
    }
    hide RegionOk, RegionOf, Disjoint;
    var maps' := (maps - {p})[newp := m];
    forall q, r | q in maps' && r in maps' && q != r ensures Disjoint(RegionOf(q, maps'[q]), RegionOf(r, maps'[r])) {
      var q0, r0 := if q == newp then p else q, if r == newp then p else r;
      assert Disjoint(RegionOf(q0, maps[q0]), RegionOf(r0, maps[r0]));
    }
  }

  // mem is a new 8-aligned block of nb bytes or more, and no other block changed
  ghost predicate Handed(live: Sizes, live': Sizes, mem: Addr, nb: nat) {
    && mem > 8 && mem % 8 == 0 && mem - 8 !in live && mem - 8 in live'
    && nb <= live'[mem - 8] && live' == live[mem - 8 := live'[mem - 8]]
  }

  lemma HandedBytes(nb: nat)
    ensures forall live, live', mem :: Handed(live, live', mem, nb) ==> mem - 8 in live' && nb <= live'[mem - 8]
  {}

  lemma HandedPlace(nb: nat)
    ensures forall live, live', mem :: Handed(live, live', mem, nb) ==> mem - 8 !in live && mem % 8 == 0
  {}

  lemma MaxRequest()
    ensures MAX_REQUEST == 0xFFFF_FFC0 && MIN_CHUNK_SIZE == 16
  {}

  lemma BlocksOf(live: Sizes, maps: Maps, p: Addr)
    ensures p in Blocks(live, maps) <==> p in live || p in maps
    ensures p in maps ==> Blocks(live, maps)[p] == maps[p].size
    ensures p in live && p !in maps ==> Blocks(live, maps)[p] == live[p]
  {}

  lemma BlocksSet(live: Sizes, maps: Maps, p: Addr, s: nat)
    requires p !in maps
    ensures Blocks(live[p := s], maps) == Blocks(live, maps)[p := s]
    ensures Blocks(live - {p}, maps) == Blocks(live, maps) - {p}
  {}

  lemma BlocksMap(live: Sizes, maps: Maps, p: Addr, m: Mapped)
    requires p !in live
    ensures Blocks(live, maps[p := m]) == Blocks(live, maps)[p := m.size]
  {}

  lemma BlocksUnmap(live: Sizes, maps: Maps, p: Addr)
    requires p !in live
    ensures Blocks(live, maps - {p}) == Blocks(live, maps) - {p}
  {}

  // ---------------- the bytes of the blocks ----------------

  // overhead_for
  function Overhead(maps: Maps, p: Addr): nat { if p in maps then 8 else 4 }

  // how many bytes of block p are its user's
  ghost function UsableOf(live: Sizes, maps: Maps, p: Addr): nat {
    if p in live && live[p] >= Overhead(maps, p) then live[p] - Overhead(maps, p) else 0
  }

  // the n bytes at a are, in m', at b
  ghost predicate Carried(m: seq<Byte>, a: int, m': seq<Byte>, b: int, n: nat) {
    0 <= a && a + n <= |m| && 0 <= b && b + n <= |m'| && m[a..a + n] == m'[b..b + n]
  }

  ghost predicate AllZero(m: seq<Byte>, a: int, n: nat) {
    0 <= a && a + n <= |m| && forall i :: a <= i < a + n ==> m[i] == 0
  }

  // the bytes of all blocks but one are as before
  ghost predicate Undisturbed(m: seq<Byte>, m': seq<Byte>, live: Sizes, maps: Maps, but: Addr) {
    forall q :: q in live && q != but ==> Carried(m, q + 8, m', q + 8, UsableOf(live, maps, q))
  }

  function Paste(m: seq<Byte>, d: nat, x: seq<Byte>): (m': seq<Byte>)
    requires d + |x| <= |m|
    ensures |m'| == |m|
  {
    m[..d] + x + m[d + |x|..]
  }

  lemma Pasted(m: seq<Byte>, d: nat, s: nat, n: nat)
    requires d + n <= |m| && s + n <= |m|
    ensures Carried(m, s, Paste(m, d, m[s..s + n]), d, n)
  {
    assert Paste(m, d, m[s..s + n])[d..d + n] == m[s..s + n];
  }

  lemma UndisturbedBut(m: seq<Byte>, m': seq<Byte>, live: Sizes, maps: Maps, p: Addr)
    requires Undisturbed(m, m', live, maps, -8) && -8 !in live
    ensures Undisturbed(m, m', live, maps, p)
  {}

  lemma PastedElsewhere(m: seq<Byte>, d: nat, x: seq<Byte>, a: nat, n: nat)
    requires d + |x| <= |m| && a + n <= |m| && (a + n <= d || d + |x| <= a)
    ensures Carried(m, a, Paste(m, d, x), a, n)
  {
    var m' := Paste(m, d, x);
    forall i | a <= i < a + n ensures m'[i] == m[i] {}
  }

  lemma Zeroed(m: seq<Byte>, d: nat, n: nat)
    requires d + n <= |m|
    ensures AllZero(Paste(m, d, seq(n, _ => 0)), d, n)
  {
    var x: seq<Byte> := seq(n, _ => 0);
    var m' := Paste(m, d, x);
    forall i | d <= i < d + n ensures m'[i] == 0 { assert m'[i] == x[i - d]; }
  }

  class Heap {
    const arena: MallocState
    var maps: Maps
    const memory: array<Byte>    // the bytes of the blocks; the heap's own words are the arena's

    ghost predicate Valid()
      reads this, arena
    {
      arena.Sound() && MapsOk(maps, arena.segs) && memory.Length == WORD
    }

    ghost function Live(): Sizes
      reads this, arena
    {
      Blocks(LiveOf(arena.ch), maps)
    }

    // how many bytes of block p are its user's
    ghost function Usable(p: Addr): nat
      reads this, arena
    {
      UsableOf(Live(), maps, p)
    }

    constructor ()
      ensures fresh(memory)
      ensures Valid() && Live() == map[] && maps == map[] && arena.segs == [] && arena.topsize == 0 && fresh(arena)
    {
      arena := new MallocState();
      maps := map[];
      memory := new Byte[WORD];
    }

    // sys_alloc maps a request of nb bytes on its own
    ghost predicate Mappable(nb: nat, mm: Addr)
      reads arena
    {
      nb >= MMAP_THRESHOLD && arena.topsize != 0 && MapSize(nb) > nb && mm != 0
    }

    // a request of nb bytes is met neither by what is on hand nor by the system
    ghost predicate Unserved(nb: nat, mm: Addr, mp: Addr)
      reads arena
    {
      !arena.OnHand(nb) && !Mappable(nb, mm) && arena.Unmet(nb, mp)
    }

    ghost predicate Astray(nb: nat, mm: Addr, mp: Addr)
      reads arena
    {
      !arena.OnHand(nb) && !Mappable(nb, mm) && arena.Stray(nb, mp)
    }

    // the system's answers: mm to a request for a mapping, mp to one for a segment
    ghost predicate Answers(nb: nat, mm: Addr, mp: Addr)
      reads this, arena
    {
      && (mm != 0 ==> Available(arena.segs, maps, mm, MapSize(nb)))
      && (mp != 0 ==> Available(arena.segs, maps, mp, AllocSize(nb)))
    }

    // a chunk on hand has n bytes; of top something must be left
    ghost predicate Stocked(n: nat)
      reads arena
    {
      || (exists a :: a in arena.free && n <= arena.free[a])
      || (0 < n <= arena.dvsize)
      || n < arena.topsize
    }

    // the system answers a request for so many bytes, with a region or a mapping
    ghost predicate Granting(bytes: nat, mm: Addr, mp: Addr)
      reads arena
    {
      || (mp != 0 && bytes <= 0xFFFE_FFC0)
      || (mm != 0 && arena.topsize != 0 && 0x4_0000 <= bytes <= 0xFFFF_0000)
    }

    // what is on hand for a request, up to 12 bytes of padding
    lemma StockedServes(bytes: nat)
      requires arena.Sound()
      ensures Stocked(bytes + 16) ==> bytes < 0xFFFF_FFC0 && arena.OnHand(RequestSize(bytes))
      ensures !Stocked(bytes + 4) ==> !arena.OnHand(RequestSize(bytes))
      ensures bytes >= 0xFFFF_FFC0 ==> var nb := RequestSize(bytes); !arena.OnHand(nb) && MapSize(nb) <= nb && AllocSize(nb) <= nb
    {
      arena.SizeBounds();
      if bytes < 0xFFFF_FFC0 { RequestFits(bytes); }
    }

    lemma TooMuch(bytes: nat, mm: Addr, mp: Addr)
      requires arena.Sound() && bytes >= 0xFFFF_FFC0
      ensures !Stocked(bytes + 16) && !Granting(bytes, mm, mp)
    {
      arena.SizeBounds();
    }

    lemma GrantingServes(bytes: nat, mm: Addr, mp: Addr)
      requires Granting(bytes, mm, mp)
      ensures Unserved(RequestSize(bytes), mm, mp) ==> Astray(RequestSize(bytes), mm, mp)
      ensures mm != 0 && arena.topsize != 0 && 0x4_0000 <= bytes <= 0xFFFF_0000 ==> Mappable(RequestSize(bytes), mm)
    {
      RequestedBytes(bytes);
    }

    lemma InBytes(bytes: nat, mm: Addr, mp: Addr)
      requires arena.Sound()
      ensures var nb := RequestSize(bytes);
        && (Stocked(bytes + 16) ==> !Unserved(nb, mm, mp))
        && (Granting(bytes, mm, mp) ==> !Unserved(nb, mm, mp) || Astray(nb, mm, mp))
        && (bytes >= 0xFFFF_FFC0 ==> Unserved(nb, mm, mp))
        && (bytes < 0xFFFF_FFC0 ==> bytes + 4 <= nb <= bytes + 16)
        && (bytes + 16 < 0x4_0000 ==> !Mappable(nb, mm))
        && (Mappable(nb, mm) ==> var x := MapSize(nb) - MMAP_FOOT_PAD; (x + 16) % 0x1000 == 0 && bytes + 19 <= x < bytes + 31 + 0x1000)
        && (mm != 0 && arena.topsize != 0 && 0x4_0000 <= bytes <= 0xFFFF_0000 && !Stocked(bytes + 4) ==>
              !arena.OnHand(nb) && Mappable(nb, mm) && !Unserved(nb, mm, mp))
    {
      StockedServes(bytes);
      RequestedBytes(bytes);
      if bytes < 0xFFFF_FFC0 { RequestFits(bytes); }
      MapSizeFits(RequestSize(bytes));
      hide RequestSize, MapSize, AllocSize;
      if Granting(bytes, mm, mp) { GrantingServes(bytes, mm, mp); }
    }

    // the request internal_memalign makes is less than this many bytes
    lemma MemalignInBytes(asked: nat, bytes: nat, mm: Addr, mp: Addr)
      requires arena.Sound()
      ensures var most, nb := bytes + 2 * asked + 44, RequestSize(MemalignRequest(asked, bytes));
        && (Stocked(most + 16) ==> bytes < MAX_REQUEST - RoundAlignment(asked) && !Unserved(nb, mm, mp))
        && (Granting(most, 0, mp) ==> bytes < MAX_REQUEST - RoundAlignment(asked) && (!Unserved(nb, mm, mp) || Astray(nb, mm, mp)))
    {
      arena.SizeBounds();
      AlignmentBelow(asked);
      RequestedBytes(bytes);
      hide RequestSize, RoundAlignment;
      InBytes(MemalignRequest(asked, bytes), mm, mp);
      hide Unserved, Astray;
    }

    // mmap_alloc
    method MmapAlloc(nb: nat, mm: Addr) returns (mem: Addr)
      requires Valid() && MIN_CHUNK_SIZE <= nb < WORD && (mm != 0 ==> Available(arena.segs, maps, mm, MapSize(nb)))
      modifies `maps
      ensures Valid() && (mem == 0 <==> MapSize(nb) <= nb || mm == 0)
      ensures mem == 0 ==> maps == old(maps)
      ensures mem != 0 ==> mem == mm + 8 && mm % 8 == 0 && mm !in old(maps) && maps == old(maps)[mm := Mapped(0, MapSize(nb) - MMAP_FOOT_PAD)]
      ensures mem != 0 ==> mm !in LiveOf(arena.ch) && mem > 8
    {
      hide MapSize, MapsOk, Available;
      mem := 0;
      MapSizeFits(nb);
      var mmsize := MapSize(nb);
      if mmsize > nb && mm != 0 {
        OneMoreMap(arena.segs, maps, mm, mmsize);
        AvailableAt(mm, mmsize);
        var offset := AlignOffset(mm + 8);
        var psize := mmsize - offset - MMAP_FOOT_PAD;
        maps := maps[mm + offset := Mapped(offset, psize)];
        mem := mm + offset + 8;
      }
    }

    lemma AvailableAt(mm: Addr, size: nat)
      requires Valid() && Available(arena.segs, maps, mm, size) && size > 0
      ensures mm > 0 && mm % 8 == 0 && AlignOffset(mm + 8) == 0 && mm !in LiveOf(arena.ch)
    {
      FreshRoom(arena.segs, mm, size);
      NoOffset(mm);
      hide AlignOffset;
      arena.HeapGround();
      if mm in LiveOf(arena.ch) {
        FreshVacant(arena.ch, arena.Ground(), mm, size);
      }
    }

    // a block of a segment is no mapped one
    lemma Elsewhere(p: Addr)
      requires Valid() && p in LiveOf(arena.ch)
      ensures p !in maps
    {
      arena.HeapGround();
      if p in maps { BlockApart(arena.ch, arena.Ground(), maps, p, p); }
    }

    // segments that grew over an answer of the system
    lemma Grown(segs0: seq<Segment>, mp: Addr, size: nat)
      requires arena.Sound() && memory.Length == WORD && MapsOk(maps, segs0) && Available(segs0, maps, mp, size) && Extended(segs0, arena.segs, mp, size)
      ensures Valid()
    {
      arena.HeapGround();
      forall i | 0 <= i < |arena.segs| ensures arena.segs[i].size > 0 { SegmentsApart(arena.Ground(), i, i); }
      StillApart(segs0, arena.segs, maps, mp, size);
    }

    // dlmalloc, in terms of the padded request. What is on hand serves the request as the policy says; otherwise a request of
    // 256 KiB or more is mapped, once there is a segment, and the others get a new segment.
    method Serve(bytes: nat, mm: Addr, mp: Addr) returns (mem: Addr, lost: bool)
      requires Valid() && bytes < WORD && Answers(RequestSize(bytes), mm, mp)
      modifies this, arena
      ensures Valid()
      ensures var nb := RequestSize(bytes); (mem == 0 <==> old(Unserved(nb, mm, mp))) && (lost <==> old(Astray(nb, mm, mp)))
      ensures mem == 0 ==> Live() == old(Live()) && maps == old(maps) && arena.segs == old(arena.segs) && arena.Held() == old(arena.Held())
      ensures mem != 0 ==> Handed(old(Live()), Live(), mem, RequestSize(bytes)) && bytes < MAX_REQUEST
      ensures mem != 0 && mem - 8 !in maps ==> Live()[mem - 8] < RequestSize(bytes) + MIN_CHUNK_SIZE
      ensures var nb := RequestSize(bytes); mem != 0 && old(arena.OnHand(nb)) ==>
        && old(arena.Policy(nb, mem - 8)) && Served(old(arena.Held()), arena.Held(), nb, mem - 8)
        && maps == old(maps) && mem - 8 !in maps && Live()[mem - 8] < nb + MIN_CHUNK_SIZE && arena.segs == old(arena.segs)
      ensures var nb := RequestSize(bytes); mem != 0 && old(!arena.OnHand(nb) && Mappable(nb, mm)) ==>
        mem == mm + 8 && arena.Held() == old(arena.Held()) && maps == old(maps)[mm := Mapped(0, MapSize(nb) - MMAP_FOOT_PAD)] && arena.segs == old(arena.segs)
      ensures var nb := RequestSize(bytes); mem != 0 && old(!arena.OnHand(nb) && !Mappable(nb, mm)) ==>
        maps == old(maps) && mem - 8 !in maps && Live()[mem - 8] == nb && Extended(old(arena.segs), arena.segs, mp, AllocSize(nb))
        && TakenIn(old(arena.segs), old(arena.ch), old(arena.Held()), arena.Held(), nb, mp, AllocSize(nb))
    {
      hide TakenIn, Served, RequestSize, MapSize, AllocSize, MapsOk, Available, LiveOf, Blocks, BinsOk, HeapOk, LandOk, Extended, NoFit;
      var nb := RequestSize(bytes);
      arena.RequestKinds(bytes);
      MapSizeFits(nb);
      arena.PolicyOnHand(nb);
      arena.GroundIs();
      ghost var live := LiveOf(arena.ch);
      lost := false;
      mem := arena.MallocHeld(bytes);
      arena.GroundIs();
      if mem != 0 {
        Elsewhere(mem - 8);
        BlocksSet(live, maps, mem - 8, LiveOf(arena.ch)[mem - 8]);
        BlocksOf(live, maps, mem - 8);
        BlocksOf(LiveOf(arena.ch), maps, mem - 8);
        assert LiveOf(arena.ch) == live[mem - 8 := LiveOf(arena.ch)[mem - 8]];
      } else {
        mem, lost := SysAlloc(nb, mm, mp);
      }
    }

    lemma MappedSize(p: Addr)
      ensures p in maps ==> p in Live() && Live()[p] == maps[p].size
    {}

    // dlmalloc. What is on hand serves the request as the policy says; otherwise a request of
    // 256 KiB or more is mapped, once there is a segment, and the others get a new segment.
    method DlMalloc(bytes: nat, mm: Addr, mp: Addr) returns (mem: Addr, lost: bool)
      requires Valid() && bytes < WORD && Answers(RequestSize(bytes), mm, mp)
      modifies this, arena
      ensures Valid()
      ensures var nb := RequestSize(bytes); (mem == 0 <==> old(Unserved(nb, mm, mp))) && (lost <==> old(Astray(nb, mm, mp)))
      // in bytes: when it succeeds and fails, and how much is given
      ensures old(Stocked(bytes + 16)) || (old(Granting(bytes, mm, mp)) && !lost) ==> mem != 0
      ensures bytes >= 0xFFFF_FFC0 ==> mem == 0
      ensures mem != 0 ==> mem - 8 in Live() && bytes + 4 <= Live()[mem - 8] && (mem - 8 !in maps ==> Live()[mem - 8] <= bytes + 31)
      ensures mem != 0 && mem - 8 in maps ==> (Live()[mem - 8] + 16) % 0x1000 == 0 && Live()[mem - 8] < bytes + 31 + 0x1000
      ensures bytes + 16 < 0x4_0000 ==> maps == old(maps)
      ensures mm != 0 && old(arena.topsize) != 0 && 0x4_0000 <= bytes <= 0xFFFF_0000 && !old(Stocked(bytes + 4)) ==> mem == mm + 8 && mm in maps
      ensures mem == 0 ==> Live() == old(Live()) && maps == old(maps) && arena.segs == old(arena.segs) && arena.Held() == old(arena.Held())
      ensures mem != 0 ==> Handed(old(Live()), Live(), mem, RequestSize(bytes)) && bytes < MAX_REQUEST
      ensures mem != 0 && mem - 8 !in maps ==> Live()[mem - 8] < RequestSize(bytes) + MIN_CHUNK_SIZE
      ensures var nb := RequestSize(bytes); mem != 0 && old(arena.OnHand(nb)) ==>
        && old(arena.Policy(nb, mem - 8)) && Served(old(arena.Held()), arena.Held(), nb, mem - 8)
        && maps == old(maps) && mem - 8 !in maps && Live()[mem - 8] < nb + MIN_CHUNK_SIZE && arena.segs == old(arena.segs)
      ensures var nb := RequestSize(bytes); mem != 0 && old(!arena.OnHand(nb) && Mappable(nb, mm)) ==>
        mem == mm + 8 && arena.Held() == old(arena.Held()) && maps == old(maps)[mm := Mapped(0, MapSize(nb) - MMAP_FOOT_PAD)] && arena.segs == old(arena.segs)
      ensures var nb := RequestSize(bytes); mem != 0 && old(!arena.OnHand(nb) && !Mappable(nb, mm)) ==>
        maps == old(maps) && mem - 8 !in maps && Live()[mem - 8] == nb && Extended(old(arena.segs), arena.segs, mp, AllocSize(nb))
        && TakenIn(old(arena.segs), old(arena.ch), old(arena.Held()), arena.Held(), nb, mp, AllocSize(nb))
    {
      assert arena.Sound();
      hide *;
      InBytes(bytes, mm, mp);
      MaxRequest();
      HandedBytes(RequestSize(bytes));
      mem, lost := Serve(bytes, mm, mp);
      MappedSize(mem - 8);
    }

    // sys_alloc
    method SysAlloc(nb: nat, mm: Addr, mp: Addr) returns (mem: Addr, lost: bool)
      requires Valid() && MIN_CHUNK_SIZE <= nb < WORD && (nb < WORD - 1 ==> nb % 8 == 0) && Answers(nb, mm, mp)
      modifies this, arena
      ensures Valid()
      ensures mem == 0 <==> old(!Mappable(nb, mm) && arena.Unmet(nb, mp))
      ensures lost <==> old(!Mappable(nb, mm) && arena.Stray(nb, mp))
      ensures mem == 0 ==> Live() == old(Live()) && maps == old(maps) && arena.segs == old(arena.segs) && arena.Held() == old(arena.Held())
      ensures mem != 0 ==> Handed(old(Live()), Live(), mem, nb)
      ensures mem != 0 && old(Mappable(nb, mm)) ==>
        mem == mm + 8 && arena.Held() == old(arena.Held()) && maps == old(maps)[mm := Mapped(0, MapSize(nb) - MMAP_FOOT_PAD)] && arena.segs == old(arena.segs)
      ensures mem != 0 && old(!Mappable(nb, mm)) ==>
        maps == old(maps) && mem - 8 !in maps && Live()[mem - 8] == nb && Extended(old(arena.segs), arena.segs, mp, AllocSize(nb))
        && TakenIn(old(arena.segs), old(arena.ch), old(arena.Held()), arena.Held(), nb, mp, AllocSize(nb))
    {
      hide TakenIn, MapSize, AllocSize, MapsOk, Available, LiveOf, Blocks, BinsOk, HeapOk, LandOk, Extended, Fresh;
      mem, lost := 0, false;
      ghost var live, maps0, segs0 := LiveOf(arena.ch), maps, arena.segs;
      if nb >= MMAP_THRESHOLD && arena.topsize != 0 {
        mem := MmapAlloc(nb, mm);
        if mem != 0 {
          MapSizeFits(nb);
          BlocksMap(live, maps0, mm, Mapped(0, MapSize(nb) - MMAP_FOOT_PAD));
          BlocksOf(live, maps0, mm);
          BlocksOf(live, maps, mm);
          return;
        }
      }
      AvailableFresh(nb, mp);
      mem, lost := arena.SysAlloc(nb, mp);
      if mem != 0 {
        Grown(segs0, mp, AllocSize(nb));
        assert mem - 8 in LiveOf(arena.ch);
        Elsewhere(mem - 8);
        BlocksSet(live, maps, mem - 8, nb);
        BlocksOf(live, maps, mem - 8);
        BlocksOf(LiveOf(arena.ch), maps, mem - 8);
      }
    }

    lemma AvailableFresh(nb: nat, mp: Addr)
      requires mp != 0 ==> Available(arena.segs, maps, mp, AllocSize(nb))
      ensures mp != 0 ==> Fresh(arena.segs, mp, AllocSize(nb))
    {}

    // dlfree
    method DlFree(mem: Addr)
      requires Valid() && (mem != 0 ==> mem - 8 in Live())
      modifies this, arena
      ensures Valid() && arena.segs == old(arena.segs)
      ensures Live() == if mem == 0 then old(Live()) else old(Live()) - {mem - 8}
      ensures mem == 0 || mem - 8 in old(maps) ==> arena.ch == old(arena.ch) && arena.Held() == old(arena.Held())
      ensures mem != 0 && mem - 8 !in old(maps) ==> GivenBack(old(arena.ch), old(arena.Held()), arena.Held(), mem - 8)
      ensures maps == if mem == 0 then old(maps) else old(maps) - {mem - 8}
    {
      hide GivenBack, MapsOk, LiveOf, Blocks, BinsOk, HeapOk, LandOk;
      if mem != 0 {
        var p := mem - 8;
        ghost var live := LiveOf(arena.ch);
        BlocksOf(live, maps, p);
        if p in maps {
          assert p !in live by { if p in live { Elsewhere(p); } }
          BlocksUnmap(live, maps, p);
          FewerMaps(p);
          maps := maps - {p};
        } else {
          BlocksSet(live, maps, p, 0);
          assert maps - {p} == maps;
          arena.GroundIs();
          arena.DlFree(mem);
          arena.GroundIs();
        }
      }
    }

    lemma FewerMaps(p: Addr)
      requires Valid()
      ensures MapsOk(maps - {p}, arena.segs)
    {}

    // mmap_resize, there being no mremap: p stays or 0 is returned
    method MmapResize(p: Addr, nb: nat) returns (newp: Addr)
      requires p in maps && p != 0
      ensures newp == if MapStays(p, nb) then p else 0
    {
      var oldsize := maps[p].size;
      newp := 0;
      if nb / 8 >= NBINS {
        if oldsize >= nb + 4 && oldsize - nb <= 2 * GRANULARITY {
          newp := p;
        }
      }
    }

    // a mapped chunk big enough, but not too big, for a request that is not small
    ghost predicate MapStays(p: Addr, nb: nat)
      reads this
    {
      p in maps && nb >= 256 && nb + 4 <= maps[p].size <= nb + 2 * GRANULARITY
    }

    // block p is resized where it is
    ghost predicate Stays(p: Addr, nb: nat)
      reads this, arena
    {
      if p in maps then MapStays(p, nb) else nb <= arena.RoomAt(p)
    }

    // try_realloc_chunk
    method TryRealloc(p: Addr, nb: nat) returns (newp: Addr)
      requires Valid() && p in Live() && nb % 8 == 0 && MIN_CHUNK_SIZE <= nb
      modifies arena
      ensures Valid() && maps == old(maps) && arena.segs == old(arena.segs)
      ensures newp == (if old(Stays(p, nb)) then p else 0) && p != 0
      ensures newp == 0 ==> Live() == old(Live())
      ensures newp == 0 ==> arena.free == old(arena.free) && arena.dvsize == old(arena.dvsize) && arena.topsize == old(arena.topsize)
      ensures newp != 0 ==> p in Live() && nb <= Live()[p] && Live() == old(Live())[p := Live()[p]]
      ensures newp != 0 && p !in maps ==> p in old(arena.ch) && Next(old(arena.ch), p) in old(arena.ch) && Resized(old(arena.ch), old(arena.Held()), arena.Held(), p, nb)
      ensures newp != 0 && p !in maps ==> Live()[p] < nb + MIN_CHUNK_SIZE
    {
      hide Resized, MapsOk, LiveOf, Blocks, BinsOk, HeapOk, LandOk;
      ghost var live := LiveOf(arena.ch);
      BlocksOf(live, maps, p);
      if p in maps {
        assert p != 0 by { RegionAt(p); }
        newp := MmapResize(p, nb);
        assert Live() == Live()[p := Live()[p]];
      } else {
        RoomIs(p);
        arena.GroundIs();
        newp := arena.TryReallocChunk(p, nb);
        arena.GroundIs();
        if newp != 0 {
          BlocksSet(live, maps, p, LiveOf(arena.ch)[p]);
          BlocksOf(LiveOf(arena.ch), maps, p);
        }
      }
    }

    lemma RegionAt(p: Addr)
      requires Valid() && p in maps
      ensures RegionOk(p, maps[p])
    {}

    lemma RoomIs(p: Addr)
      requires arena.Sound() && p in LiveOf(arena.ch)
      ensures p in arena.ch && arena.ch[p].kind == Used && arena.RoomAt(p) == arena.Room(p)
    {}

    // block p has n bytes, with a chunk behind it that is free or dv, or that is top and more
    ghost predicate Roomy(p: Addr, n: nat)
      reads arena
    {
      && p in arena.ch && Next(arena.ch, p) in arena.ch
      && var size, behind := arena.ch[p].size, arena.ch[Next(arena.ch, p)];
        || n <= size
        || ((behind.kind == Free || behind.kind == Dv) && n <= size + behind.size)
        || (behind.kind == Top && n < size + behind.size)
    }

    // When realloc leaves a block where it is, up to 12 bytes of padding: a block of a segment
    // that it can be grown or cut, a mapped one of more than 244 bytes that it is big enough and
    // at most 128 KiB too big.
    lemma StaysInBytes(p: Addr, bytes: nat)
      requires Valid() && p in Live() && bytes < 0xFFFF_FFC0
      ensures p !in maps ==> (Roomy(p, bytes + 16) ==> Stays(p, RequestSize(bytes)))
      ensures p !in maps ==> (Stays(p, RequestSize(bytes)) ==> Roomy(p, bytes + 4))
      ensures p in maps ==> (bytes > 244 && bytes + 20 <= maps[p].size <= bytes + 0x2_0004 ==> Stays(p, RequestSize(bytes)))
      ensures p in maps ==> (Stays(p, RequestSize(bytes)) ==> bytes > 244 && bytes + 8 <= maps[p].size <= bytes + 0x2_0010)
    {
      RequestFits(bytes);
      hide *;
      if p in maps { MapStaysIs(p, bytes, RequestSize(bytes)); } else { RoomyIs(p, bytes, RequestSize(bytes)); }
    }

    lemma MapStaysIs(p: Addr, bytes: nat, nb: nat)
      requires p in maps && bytes + 4 <= nb && nb % 8 == 0 && nb >= 16 && (nb > 16 ==> nb - 8 < bytes + 4) && (bytes <= 244 <==> nb < 256)
      ensures bytes > 244 && bytes + 20 <= maps[p].size <= bytes + 0x2_0004 ==> Stays(p, nb)
      ensures Stays(p, nb) ==> bytes > 244 && bytes + 8 <= maps[p].size <= bytes + 0x2_0010
    {}

    lemma RoomyIs(p: Addr, bytes: nat, nb: nat)
      requires Valid() && p in Live() && p !in maps && bytes + 4 <= nb && nb % 8 == 0 && nb >= 16 && (nb > 16 ==> nb - 8 < bytes + 4)
      ensures Roomy(p, bytes + 16) ==> Stays(p, nb)
      ensures Stays(p, nb) ==> Roomy(p, bytes + 4)
    {
      hide MapsOk, LandOk, BinsOk, HeapOk;
      BlocksOf(LiveOf(arena.ch), maps, p);
      RoomIs(p);
      arena.RoomSpans(p);
    }

    // Every block ends in memory, and two blocks have no byte in common.
    lemma BlockBounds(p: Addr)
      requires Valid() && p in Live()
      ensures p > 0 && p + Live()[p] + 8 <= WORD && Live()[p] >= MIN_CHUNK_SIZE
    {
      arena.HeapGround();
      BlocksOf(LiveOf(arena.ch), maps, p);
      if p in maps {
        RegionAt(p);
      } else {
        assert Chunks.Placed(arena.ch, p);
      }
    }

    lemma TwoBlocks(p: Addr, q: Addr)
      requires Valid() && p in Live() && q in Live() && p != q
      ensures p + Live()[p] <= q || q + Live()[q] <= p
    {
      hide Blocks, LiveOf, MapsOk;
      arena.HeapGround();
      if p < q {
        BlocksApart(arena.ch, arena.Ground(), maps, p, q);
      } else {
        BlocksApart(arena.ch, arena.Ground(), maps, q, p);
      }
    }

    // the bytes of every block lie in memory
    lemma AllWithin()
      requires Valid()
      ensures forall q :: q in Live() ==> Carried(memory[..], q + 8, memory[..], q + 8, Usable(q))
    {
      hide Blocks, LiveOf, MapsOk;
      forall q | q in Live() ensures Carried(memory[..], q + 8, memory[..], q + 8, Usable(q)) { BlockBounds(q); }
    }

    lemma AllKept(but: Addr)
      requires Valid()
      ensures Undisturbed(memory[..], memory[..], Live(), maps, but)
    {
      AllWithin();
    }

    // memcpy, of bytes that do not overlap
    method CopyBytes(dst: nat, src: nat, n: nat)
      requires dst + n <= memory.Length && src + n <= memory.Length && (dst + n <= src || src + n <= dst)
      modifies memory
      ensures memory[..] == Paste(old(memory[..]), dst, old(memory[src..src + n]))
    {
      forall i | 0 <= i < n {
        memory[dst + i] := memory[src + i];
      }
    }

    // memset to zero
    method ClearBytes(dst: nat, n: nat)
      requires dst + n <= memory.Length
      modifies memory
      ensures memory[..] == Paste(old(memory[..]), dst, seq(n, _ => 0))
    {
      forall i | 0 <= i < n {
        memory[dst + i] := 0;
      }
    }

    // bytes written into a new block disturb no other
    lemma WrittenNew(mem: Addr, m: seq<Byte>, x: seq<Byte>, live: Sizes, maps0: Maps)
      requires Valid() && mem > 8 && mem - 8 in Live() && mem - 8 !in live && Live() == live[mem - 8 := Live()[mem - 8]]
      requires |x| + 4 <= Live()[mem - 8] && |m| == WORD
      ensures mem + |x| <= WORD && Undisturbed(m, Paste(m, mem, x), live, maps0, -8)
    {
      hide Blocks, LiveOf, MapsOk, Paste;
      BlockBounds(mem - 8);
      forall q | q in live ensures Carried(m, q + 8, Paste(m, mem, x), q + 8, UsableOf(live, maps0, q)) {
        assert q in Live() && Live()[q] == live[q];
        BlockBounds(q);
        TwoBlocks(q, mem - 8);
        PastedElsewhere(m, mem, x, q + 8, UsableOf(live, maps0, q));
      }
    }

    // dlrealloc of a block, for a request that is not too large
    method ReallocBlock(oldmem: Addr, bytes: nat, mm: Addr, mp: Addr) returns (mem: Addr, lost: bool)
      requires Valid() && bytes < MAX_REQUEST && oldmem != 0 && oldmem - 8 in Live() && Answers(RequestSize(bytes), mm, mp)
      modifies this, arena, memory
      ensures Valid()
      ensures old(Stocked(bytes + 16)) || (old(Granting(bytes, mm, mp)) && !lost) ==> mem != 0
      ensures mem != 0 ==> mem - 8 in Live() && bytes + 4 <= Live()[mem - 8]
      ensures var p := oldmem - 8; mem == oldmem && p !in old(maps) ==>
        p in old(arena.ch) && Next(old(arena.ch), p) in old(arena.ch) && Resized(old(arena.ch), old(arena.Held()), arena.Held(), p, RequestSize(bytes))
      ensures mem == 0 ==> Live() == old(Live()) && maps == old(maps) && arena.segs == old(arena.segs)
      ensures mem != 0 ==>
        mem - 8 in Live() && RequestSize(bytes) <= Live()[mem - 8] && Live() == (old(Live()) - {oldmem - 8})[mem - 8 := Live()[mem - 8]]
      ensures mem != 0 && mem != oldmem ==> mem - 8 !in old(Live()) && mem % 8 == 0
      ensures mem != 0 && mem - 8 !in maps ==> Live()[mem - 8] < RequestSize(bytes) + MIN_CHUNK_SIZE
      ensures var nb := RequestSize(bytes);
        && (mem == oldmem <==> old(Stays(oldmem - 8, nb)))
        && (mem == 0 <==> old(Unserved(nb, mm, mp) && !Stays(oldmem - 8, nb)))
        && (lost <==> old(Astray(nb, mm, mp) && !Stays(oldmem - 8, nb)))
      ensures mem != 0 ==>
        Carried(old(memory[..]), oldmem, memory[..], mem, if bytes < old(Usable(oldmem - 8)) then bytes else old(Usable(oldmem - 8)))
      ensures Undisturbed(old(memory[..]), memory[..], old(Live()), old(maps), oldmem - 8)
    {
      hide MapsOk, LiveOf, Blocks, BinsOk, HeapOk, LandOk, RequestSize, AllocSize, MapSize, Available, Extended, NoFit, Stays, Undisturbed, Resized, Stocked, Granting;
      InBytes(bytes, mm, mp);
      RequestFits(bytes);
      AllWithin();
      AllKept(oldmem - 8);
      mem, lost := 0, false;
      var nb := RequestSize(bytes);
      var oldp := oldmem - 8;
      ghost var live := Live();
      var newp := TryRealloc(oldp, nb);
      if newp != 0 {
        mem := newp + 8;
        assert live[oldp := Live()[oldp]] == (live - {oldp})[oldp := Live()[oldp]];
      } else {
        mem, lost := MoveBlock(oldmem, bytes, mm, mp);
      }
    }

    // realloc of no block
    method ReallocNone(bytes: nat, mm: Addr, mp: Addr) returns (mem: Addr, lost: bool)
      requires Valid() && bytes < WORD && Answers(RequestSize(bytes), mm, mp)
      modifies this, arena
      ensures Valid() && Undisturbed(memory[..], memory[..], old(Live()), old(maps), -8)
      ensures old(Stocked(bytes + 16)) || (old(Granting(bytes, mm, mp)) && !lost) ==> mem != 0
      ensures bytes >= 0xFFFF_FFC0 ==> mem == 0
      ensures mem != 0 ==> mem - 8 in Live() && bytes + 4 <= Live()[mem - 8] && (mem - 8 !in maps ==> Live()[mem - 8] < RequestSize(bytes) + MIN_CHUNK_SIZE)
      ensures mem == 0 ==> Live() == old(Live()) && maps == old(maps) && arena.segs == old(arena.segs)
      ensures mem != 0 ==> Handed(old(Live()), Live(), mem, RequestSize(bytes)) && mem - 8 !in old(Live()) && mem % 8 == 0
      ensures var nb := RequestSize(bytes); (mem == 0 <==> old(Unserved(nb, mm, mp))) && (lost <==> old(Astray(nb, mm, mp)))
    {
      HandedPlace(RequestSize(bytes));
      hide *;
      AllKept(-8);
      mem, lost := DlMalloc(bytes, mm, mp);
    }

    // dlrealloc
    method DlRealloc(oldmem: Addr, bytes: nat, mm: Addr, mp: Addr) returns (mem: Addr, lost: bool)
      requires Valid() && bytes < WORD && (oldmem != 0 ==> oldmem - 8 in Live()) && Answers(RequestSize(bytes), mm, mp)
      modifies this, arena, memory
      ensures Valid()
      ensures old(Stocked(bytes + 16)) || (old(Granting(bytes, mm, mp)) && !lost) ==> mem != 0
      ensures bytes >= 0xFFFF_FFC0 ==> mem == 0
      ensures mem != 0 ==> mem - 8 in Live() && bytes + 4 <= Live()[mem - 8]
      ensures var p := oldmem - 8; mem == oldmem != 0 && p !in old(maps) ==>
        p in old(arena.ch) && Next(old(arena.ch), p) in old(arena.ch) && Resized(old(arena.ch), old(arena.Held()), arena.Held(), p, RequestSize(bytes))
      ensures mem == 0 ==> Live() == old(Live()) && maps == old(maps) && arena.segs == old(arena.segs)
      ensures mem != 0 && oldmem == 0 ==> Handed(old(Live()), Live(), mem, RequestSize(bytes))
      ensures mem != 0 && oldmem != 0 ==>
        mem - 8 in Live() && RequestSize(bytes) <= Live()[mem - 8] && Live() == (old(Live()) - {oldmem - 8})[mem - 8 := Live()[mem - 8]]
      ensures mem != 0 && mem != oldmem ==> mem - 8 !in old(Live()) && mem % 8 == 0
      ensures mem != 0 && mem - 8 !in maps ==> Live()[mem - 8] < RequestSize(bytes) + MIN_CHUNK_SIZE
      ensures var nb := RequestSize(bytes); oldmem != 0 ==> (mem == oldmem <==> bytes < MAX_REQUEST && old(Stays(oldmem - 8, nb)))
      ensures var nb := RequestSize(bytes);
        && (mem == 0 <==> (oldmem != 0 && bytes >= MAX_REQUEST) || (old(Unserved(nb, mm, mp)) && (oldmem == 0 || !old(Stays(oldmem - 8, nb)))))
        && (lost <==> old(Astray(nb, mm, mp)) && (oldmem == 0 || (bytes < MAX_REQUEST && !old(Stays(oldmem - 8, nb)))))
      // the block's bytes go with it, as far as they fit, and those of the others stay
      ensures mem != 0 && oldmem != 0 ==>
        Carried(old(memory[..]), oldmem, memory[..], mem, if bytes < old(Usable(oldmem - 8)) then bytes else old(Usable(oldmem - 8)))
      ensures Undisturbed(old(memory[..]), memory[..], old(Live()), old(maps), oldmem - 8)
    {
      assert arena.Sound();
      hide *;
      MaxRequest();
      mem, lost := 0, false;
      if oldmem == 0 {
        mem, lost := ReallocNone(bytes, mm, mp);
      } else if bytes < MAX_REQUEST {
        mem, lost := ReallocBlock(oldmem, bytes, mm, mp);
      } else {
        AllKept(oldmem - 8);
        InBytes(bytes, mm, mp);
        TooMuch(bytes, mm, mp);
      }
    }

    // a block that cannot be resized where it is
    method MoveBlock(oldmem: Addr, bytes: nat, mm: Addr, mp: Addr) returns (mem: Addr, lost: bool)
      requires Valid() && bytes < MAX_REQUEST && oldmem - 8 in Live() && Answers(RequestSize(bytes), mm, mp)
      modifies this, arena, memory
      ensures Valid()
      ensures var nb := RequestSize(bytes); (mem == 0 <==> old(Unserved(nb, mm, mp))) && (lost <==> old(Astray(nb, mm, mp)))
      ensures mem == 0 ==> Live() == old(Live()) && maps == old(maps) && arena.segs == old(arena.segs)
      ensures mem != 0 ==> mem - 8 !in old(Live()) && mem % 8 == 0 && mem - 8 in Live() && RequestSize(bytes) <= Live()[mem - 8]
      ensures mem != 0 ==> Live() == (old(Live()) - {oldmem - 8})[mem - 8 := Live()[mem - 8]]
      ensures mem != 0 && mem - 8 !in maps ==> Live()[mem - 8] < RequestSize(bytes) + MIN_CHUNK_SIZE
      ensures mem != 0 ==>
        Carried(old(memory[..]), oldmem, memory[..], mem, if bytes < old(Usable(oldmem - 8)) then bytes else old(Usable(oldmem - 8)))
      ensures mem == 0 ==> memory[..] == old(memory[..])
      ensures Undisturbed(old(memory[..]), memory[..], old(Live()), old(maps), oldmem - 8)
    {
      hide TakenIn, Served, GivenBack, Stocked, Granting, Answers, Unserved, Astray, Mappable;
      hide MapsOk, LiveOf, Blocks, BinsOk, HeapOk, LandOk, RequestSize, AllocSize, MapSize, Available, Extended, NoFit, Carried, Undisturbed, UsableOf;
      ghost var live, maps0 := Live(), maps;
      AllKept(oldmem - 8);
      mem, lost := DlMalloc(bytes, mm, mp);
      if mem != 0 {
        ghost var grown := Live();
        NoneBelow(live);
        MoveBytes(oldmem, mem, bytes, live, maps0);
        UndisturbedBut(old(memory[..]), memory[..], live, maps0, oldmem - 8);
        DlFree(oldmem);
        assert live[mem - 8 := grown[mem - 8]] - {oldmem - 8} == (live - {oldmem - 8})[mem - 8 := grown[mem - 8]];
      }
    }

    lemma NoneBelow(live: Sizes)
      requires Valid() && forall q :: q in live ==> q in Live()
      ensures -8 !in live
    {
      if -8 in live { BlockBounds(-8); }
    }

    // the copying of a block that moves
    method MoveBytes(oldmem: Addr, mem: Addr, bytes: nat, ghost live: Sizes, ghost maps0: Maps)
      requires Valid() && bytes < MAX_REQUEST && oldmem - 8 in live && mem - 8 !in live && (oldmem - 8 in maps <==> oldmem - 8 in maps0)
      requires Handed(live, Live(), mem, RequestSize(bytes))
      modifies memory
      ensures var n := UsableOf(live, maps0, oldmem - 8); Carried(old(memory[..]), oldmem, memory[..], mem, if bytes < n then bytes else n)
      ensures Undisturbed(old(memory[..]), memory[..], live, maps0, -8)
    {
      hide MapsOk, LiveOf, Blocks, RequestSize, Paste, Carried, Undisturbed;
      RequestFits(bytes);
      var oldp := oldmem - 8;
      BlockBounds(oldp);
      BlockBounds(mem - 8);
      TwoBlocks(oldp, mem - 8);
      var size := ChunkSize(oldp);
      var oc := size - Overhead(maps, oldp);
      var n := if oc < bytes then oc else bytes;
      ghost var m := memory[..];
      assert n + 4 <= Live()[mem - 8];
      WrittenNew(mem, m, m[oldmem..oldmem + n], live, maps0);
      Pasted(m, mem, oldmem, n);
      CopyBytes(mem, oldmem, n);
    }

    // chunksize
    method ChunkSize(p: Addr) returns (size: nat)
      requires Valid() && p in Live()
      ensures size == Live()[p]
    {
      BlocksOf(LiveOf(arena.ch), maps, p);
      if p in maps {
        size := maps[p].size;
      } else {
        arena.LiveKind(p);
        arena.HeapGround();
        assert Tagged(arena.ch, arena.head, arena.foot, p);
        size := arena.head[p].size;
      }
    }

    // dlcalloc: a block for n elements of e bytes, or none when the product does not fit a word
    method DlCalloc(n: nat, e: nat, mm: Addr, mp: Addr) returns (mem: Addr, lost: bool)
      requires Valid() && n < WORD && e < WORD && Answers(RequestSize(CallocRequest(n, e)), mm, mp)
      modifies this, arena, memory
      ensures Valid()
      ensures mem == 0 ==> Live() == old(Live()) && maps == old(maps) && arena.segs == old(arena.segs)
      ensures var nb := RequestSize(CallocRequest(n, e));
        && (mem == 0 <==> old(Unserved(nb, mm, mp))) && (lost <==> old(Astray(nb, mm, mp)))
        && (mem != 0 && old(!arena.OnHand(nb) && Mappable(nb, mm)) ==> mem == mm + 8 && mm in maps)
      ensures mem == 0 || mem - 8 in maps ==> memory[..] == old(memory[..])
      ensures Undisturbed(old(memory[..]), memory[..], old(Live()), old(maps), -8)
      // The block is clear, unless it is mapped: then it is taken to be clear already, which is
      // for the system to see to.
      ensures var size := Product(n, e);
        && (old(Stocked(size + 16)) || (old(Granting(size, mm, mp)) && !lost) ==> mem != 0)
        && (size >= 0xFFFF_FFC0 ==> mem == 0)
        && (mem != 0 ==>
              && mem - 8 in Live() && size + 4 <= Live()[mem - 8] && Handed(old(Live()), Live(), mem, RequestSize(size))
              && (AllZero(memory[..], mem, size) <==> mem - 8 !in maps || AllZero(old(memory[..]), mem, size)))
    {
      CallocExact(n, e);
      mem, lost := ZeroedBlock(CallocRequest(n, e), Product(n, e), mm, mp);
    }

    // a cleared block for a request of size bytes, asked for as req
    method ZeroedBlock(req: nat, ghost size: nat, mm: Addr, mp: Addr) returns (mem: Addr, lost: bool)
      requires Valid() && req == (if size < WORD then size else WORD - 1) && Answers(RequestSize(req), mm, mp)
      modifies this, arena, memory
      ensures Valid()
      ensures mem == 0 ==> Live() == old(Live()) && maps == old(maps) && arena.segs == old(arena.segs)
      ensures var nb := RequestSize(req);
        && (mem == 0 <==> old(Unserved(nb, mm, mp))) && (lost <==> old(Astray(nb, mm, mp)))
        && (mem != 0 && old(!arena.OnHand(nb) && Mappable(nb, mm)) ==> mem == mm + 8 && mm in maps)
      ensures mem == 0 || mem - 8 in maps ==> memory[..] == old(memory[..])
      ensures Undisturbed(old(memory[..]), memory[..], old(Live()), old(maps), -8)
      ensures old(Stocked(size + 16)) || (old(Granting(size, mm, mp)) && !lost) ==> mem != 0
      ensures size >= 0xFFFF_FFC0 ==> mem == 0
      ensures mem != 0 ==>
        && mem - 8 in Live() && size + 4 <= Live()[mem - 8] && Handed(old(Live()), Live(), mem, RequestSize(size))
        && (AllZero(memory[..], mem, size) <==> mem - 8 !in maps || AllZero(old(memory[..]), mem, size))
    {
      InBytes(size, mm, mp);
      InBytes(req, mm, mp);
      if size >= 0xFFFF_FFC0 { TooMuch(size, mm, mp); }
      hide MapsOk, LiveOf, Blocks, BinsOk, HeapOk, LandOk, RequestSize, AllocSize, MapSize, Available, Extended, NoFit;
      hide TakenIn, Stocked, Granting, Unserved, Astray, Handed, Undisturbed, AllZero, Answers, Mappable, Served, Carried;
      ghost var live, maps0 := Live(), maps;
      AllKept(-8);
      mem, lost := DlMalloc(req, mm, mp);
      if mem != 0 {
        ClearNew(mem, req, live, maps0);
      }
    }

    // the clearing of a new block
    method ClearNew(mem: Addr, req: nat, ghost live: Sizes, ghost maps0: Maps)
      requires Valid() && req < MAX_REQUEST && Handed(live, Live(), mem, RequestSize(req))
      requires Undisturbed(memory[..], memory[..], live, maps0, -8)
      modifies memory
      ensures mem - 8 !in maps ==> AllZero(memory[..], mem, req)
      ensures mem - 8 in maps ==> memory[..] == old(memory[..])
      ensures Undisturbed(old(memory[..]), memory[..], live, maps0, -8)
    {
      hide MapsOk, LiveOf, Blocks, RequestSize, Paste;
      if mem - 8 !in maps {
        RequestFits(req);
        BlockBounds(mem - 8);
        ghost var m := memory[..];
        WrittenNew(mem, m, seq(req, _ => 0), live, maps0);
        Zeroed(m, mem, req);
        ClearBytes(mem, req);
      }
    }

    // the misaligned block p of internal_memalign, moved on to an aligned address
    method AlignBlock(p: Addr, a: nat, ghost n: nat, nb: nat) returns (newp: Addr)
      requires Valid() && p in Live() && p > 0 && 4 <= n < 32 && a == Pow2(n) && a <= 0x8000_0000
      requires !MultipleOf(p + 8, a) && nb + a + MIN_CHUNK_SIZE <= Live()[p] && nb >= MIN_CHUNK_SIZE
      modifies this, arena
      ensures Valid() && newp > p && MultipleOf(newp + 8, a) && newp !in old(Live()) && arena.segs == old(arena.segs)
      ensures newp in Live() && nb <= Live()[newp] && Live() == (old(Live()) - {p})[newp := Live()[newp]]
      ensures newp in maps <==> p in old(maps)
    {
      hide MapsOk, LiveOf, Blocks, BinsOk, HeapOk, LandOk, Pow2, MultipleOf;
      ghost var live, maps0 := LiveOf(arena.ch), maps;
      BlocksOf(live, maps, p);
      if p in maps {
        RegionAt(p);
        newp := AlignedSpot(p, a, n);
        var lead, m := newp - p, maps[p];
        MovedMap(arena.segs, maps, p, lead);
        maps := (maps - {p})[newp := Mapped(m.offset + lead, m.size - lead)];
        MoveBlocks(live, maps0, p, newp, maps[newp]);
      } else {
        arena.LiveKind(p);
        newp := arena.GiveLead(p, a, n, nb);
        arena.LiveKind(newp);
        assert newp in LiveOf(arena.ch);
        Elsewhere(newp);
        BlocksSet(live, maps, p, 0);
        BlocksSet(live - {p}, maps, newp, LiveOf(arena.ch)[newp]);
        BlocksOf(live, maps, newp);
        BlocksOf(LiveOf(arena.ch), maps, newp);
      }
    }

    lemma MoveBlocks(live: Sizes, maps0: Maps, p: Addr, newp: Addr, m: Mapped)
      requires Valid() && live == LiveOf(arena.ch) && p in maps0 && newp !in maps0 && newp in maps && maps == (maps0 - {p})[newp := m]
      requires MapsOk(maps0, arena.segs)
      ensures newp !in Blocks(live, maps0) && Blocks(live, maps) == (Blocks(live, maps0) - {p})[newp := m.size]
    {
      hide MapsOk, LiveOf, Blocks;
      arena.HeapGround();
      if newp in live { Elsewhere(newp); }
      if p in live { BlockApart(arena.ch, arena.Ground(), maps0, p, p); }
      BlocksUnmap(live, maps0, p);
      BlocksMap(live, maps0 - {p}, newp, m);
      BlocksOf(live, maps0, newp);
    }

    // internal_memalign: a block of at least the padded size at a multiple of the alignment
    method InternalMemalign(asked: nat, bytes: nat, mm: Addr, mp: Addr) returns (mem: Addr, lost: bool)
      requires Valid() && asked <= 0x8000_0000 && bytes < WORD && Answers(RequestSize(MemalignRequest(asked, bytes)), mm, mp)
      modifies this, arena
      ensures Valid()
      ensures var most := bytes + 2 * asked + 44; old(Stocked(most + 16)) || (old(Granting(most, 0, mp)) && !lost) ==> mem != 0
      ensures mem != 0 ==> mem - 8 in Live() && bytes + 4 <= Live()[mem - 8]
      ensures mem == 0 ==> Live() == old(Live()) && maps == old(maps) && arena.segs == old(arena.segs)
      ensures var nb := RequestSize(MemalignRequest(asked, bytes)); var big := bytes >= MAX_REQUEST - RoundAlignment(asked);
        (mem == 0 <==> big || old(Unserved(nb, mm, mp))) && (lost <==> !big && old(Astray(nb, mm, mp)))
      ensures mem != 0 ==> MultipleOf(mem, RoundAlignment(asked)) && Handed(old(Live()), Live(), mem, RequestSize(bytes))
      ensures mem != 0 && mem - 8 !in maps ==> Live()[mem - 8] <= RequestSize(bytes) + MIN_CHUNK_SIZE
    {
      hide Stocked, Granting, Unserved, Astray, Answers, MapsOk, LiveOf, Blocks, BinsOk, HeapOk, LandOk;
      hide AllocSize, MapSize, Available, Extended, NoFit, And, Pow2, RoundAlignment;
      MemalignInBytes(asked, bytes, mm, mp);
      mem, lost := 0, false;
      var alignment;
      ghost var n;
      alignment, n := NormalAlignment(asked);
      if bytes < MAX_REQUEST - alignment {
        RequestFits(bytes);
        MemalignSize(bytes, alignment, n);
        var nb := RequestSize(bytes);
        var req := nb + alignment + MIN_CHUNK_SIZE - 4;
        mem, lost := DlMalloc(req, mm, mp);
        if mem != 0 {
          mem := CutToAlign(mem, alignment, n, nb, old(Live()));
        }
      }
    }

    // what internal_memalign does with the enlarged block
    method CutToAlign(mem0: Addr, a: nat, ghost n: nat, nb: nat, ghost live: Sizes) returns (mem: Addr)
      requires Valid() && Handed(live, Live(), mem0, nb + a + MIN_CHUNK_SIZE) && 4 <= n < 32 && a == Pow2(n) && a <= 0x8000_0000
      requires nb % 8 == 0 && nb >= MIN_CHUNK_SIZE
      modifies this, arena
      ensures Valid() && arena.segs == old(arena.segs) && mem != 0
      ensures MultipleOf(mem, a) && Handed(live, Live(), mem, nb)
      ensures mem - 8 !in maps ==> Live()[mem - 8] <= nb + MIN_CHUNK_SIZE
    {
      hide MapsOk, LiveOf, Blocks, BinsOk, HeapOk, LandOk, And, Pow2;
      var p := mem0 - 8;
      MaskLow(mem0, n);
      if And(mem0, a - 1) != 0 {
        p := AlignBlock(p, a, n, nb);
        Replaced(live, old(Live()), mem0 - 8, Live(), p);
      }
      assert p in Live() && nb <= Live()[p] && Live() == live[p := Live()[p]] && p !in live;
      if p !in maps {
        ghost var arena0 := LiveOf(arena.ch);
        BlocksOf(arena0, maps, p);
        arena.GiveTail(p, nb);
        BlocksSet(arena0, maps, p, LiveOf(arena.ch)[p]);
        BlocksOf(LiveOf(arena.ch), maps, p);
        assert live[p := Live()[p]] == Live();
      }
      mem := p + 8;
      AlignedMem(mem, a, n);
    }

    lemma Replaced(live: Sizes, live1: Sizes, p: Addr, live2: Sizes, q: Addr)
      requires p !in live && p in live1 && live1 == live[p := live1[p]] && q !in live1 && q in live2 && live2 == (live1 - {p})[q := live2[q]]
      ensures live2 == live[q := live2[q]]
    {}

    lemma AlignedMem(mem: Addr, a: nat, n: nat)
      requires 4 <= n && a == Pow2(n) && MultipleOf(mem, a) && mem > 8
      ensures mem % 8 == 0
    {
      Pow2Multiple(n, 3);
      assert Pow2(3) == 8;
      hide Pow2;
      DivisorOf(mem, a, 8);
    }

    // dlmemalign
    method DlMemalign(asked: nat, bytes: nat, mm: Addr, mp: Addr) returns (mem: Addr, lost: bool)
      requires Valid() && asked <= 0x8000_0000 && bytes < WORD
      requires Answers(RequestSize(if asked <= 8 then bytes else MemalignRequest(asked, bytes)), mm, mp)
      modifies this, arena
      ensures Valid()
      ensures var most := bytes + 2 * asked + 44; old(Stocked(most + 16)) || (old(Granting(most, 0, mp)) && !lost) ==> mem != 0
      ensures mem != 0 ==> mem - 8 in Live() && bytes + 4 <= Live()[mem - 8]
      ensures mem == 0 ==> Live() == old(Live()) && maps == old(maps) && arena.segs == old(arena.segs)
      ensures var nb := RequestSize(if asked <= 8 then bytes else MemalignRequest(asked, bytes));
        var big := asked > 8 && bytes >= MAX_REQUEST - RoundAlignment(asked);
        (mem == 0 <==> big || old(Unserved(nb, mm, mp))) && (lost <==> !big && old(Astray(nb, mm, mp)))
      ensures mem != 0 ==> MultipleOf(mem, if asked <= 8 then 8 else RoundAlignment(asked))
      ensures mem != 0 ==> Handed(old(Live()), Live(), mem, RequestSize(bytes))
    {
      InBytes(bytes, mm, mp);
      hide RequestSize, AllocSize, MapSize, RoundAlignment, MapsOk, LiveOf, Blocks, BinsOk, HeapOk, LandOk, Available, Extended;
      if asked <= 8 {
        mem, lost := DlMalloc(bytes, mm, mp);
      } else {
        mem, lost := InternalMemalign(asked, bytes, mm, mp);
      }
    }
  }

  lemma NoMaps(segs: seq<Segment>)
    ensures MapsOk(map[], segs)
  {}

  // The last 16 pages of the address space become the first segment; the next region from the
  // system loses sys_alloc.
  method LastPagesRun() returns (mem: Addr, lost: bool)
    ensures lost && mem == 0
  {
    hide BinsOk, HeapOk, LandOk, LiveOf, Handed, Extended, MapsOk, Blocks;
    var h := new Heap();
    h.arena.FirstRegion(0xFFFF_0000, 0x1_0000);
    NoMaps(h.arena.segs);
    var nb := RequestSize(0x2_0000);
    assert nb == 0x2_0008 && AllocSize(nb) == 0x3_0000;
    assert !h.arena.OnHand(nb) && h.arena.Stray(nb, 0x10_0000);
    mem, lost := h.DlMalloc(0x2_0000, 0, 0x10_0000);
  }

  // A request of 256 KiB is mapped, and calloc does not clear it: its first byte is what the
  // pages held.
  method MappedCallocRun() returns (first: Byte)
    ensures first != 0
  {
    hide BinsOk, HeapOk, LandOk, LiveOf, Undisturbed, Handed, Carried, Extended, MapsOk, Blocks;
    var h := new Heap();
    h.arena.FirstRegion(0x10_0000, 0x1_0000);
    NoMaps(h.arena.segs);
    h.memory[0x20_0008] := 1;
    var nb := RequestSize(0x4_0000);
    assert CallocRequest(1, 0x4_0000) == 0x4_0000 by { CallocExact(1, 0x4_0000); }
    assert nb == 0x4_0008 && MapSize(nb) == 0x4_1000;
    assert !h.arena.OnHand(nb) && h.Mappable(nb, 0x20_0000);
    var mem, lost := h.DlCalloc(1, 0x4_0000, 0x20_0000, 0);
    first := h.memory[mem];
  }
}
