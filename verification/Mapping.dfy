/** Kernel mappings: both buddy pools, the kernel page tables and the map reference counts
    (kernel/lib/mem.c:299-368). Whether freeing a block of either pool tests the buddy's order is chosen
    when the memory is made; the source does not test it. What is promised after giving a block back
    then holds when the merging stops clean. */
module Mapping {
  import opened BinIndex
  import opened Blocks
  import opened BuddyLists
  import opened Pools

  const PAGE_SIZE: nat := 4096
  const KERNEL_MEMORY_BASE: nat := 0xC000_0000
  const KERNEL_MEMORY_PAGES: nat := 0x4_0000
  const MAX_PAGES: nat := 0x10_0000            // a physical address is a word

  function Address(v: nat): nat { KERNEL_MEMORY_BASE + v * PAGE_SIZE }

  function IndexOf(addr: nat): nat
    requires addr >= KERNEL_MEMORY_BASE
  {
    (addr - KERNEL_MEMORY_BASE) / PAGE_SIZE
  }

  // a page table entry that lets the page at address a be read and written: the bits for
  // present and writable are set, the other flags are not
  predicate Opens(entry: nat, a: nat) {
    entry % 2 == 1 && entry / 2 % 2 == 1 && entry - entry % 4 == a
  }

  // the n entries from v on open the n pages from p on
  predicate MapsTo(tables: seq<nat>, v: nat, p: nat, n: nat) {
    v + n <= |tables| && forall j :: v <= j < v + n ==> Opens(tables[j], (p + (j - v)) * 0x1000)
  }

  // reads and writes of the n pages at address addr reach the n pages from p on
  predicate Reaches(tables: seq<nat>, addr: nat, p: nat, n: nat) {
    addr >= 0xC000_0000 && MapsTo(tables, (addr - 0xC000_0000) / 0x1000, p, n)
  }

  lemma ReachesAt(tables: seq<nat>, v: nat, p: nat, n: nat)
    ensures IndexOf(Address(v)) == v && (Reaches(tables, Address(v), p, n) <==> MapsTo(tables, v, p, n))
  {
    hide MapsTo;
  }

  // the n entries from v on are not present
  predicate MapsNothing(tables: seq<nat>, v: nat, n: nat) {
    v + n <= |tables| && forall j :: v <= j < v + n ==> tables[j] % 2 == 0
  }

  // phaddr_of_kernel_vaddr
  function PhaddrOf(tables: seq<nat>, vaddr: nat): nat
    requires vaddr >= KERNEL_MEMORY_BASE && IndexOf(vaddr) < |tables|
  {
    tables[IndexOf(vaddr)] / PAGE_SIZE * PAGE_SIZE + vaddr % PAGE_SIZE
  }

  // It inverts a mapping at every offset.
  lemma PhaddrInverts(tables: seq<nat>, v: nat, p: nat, n: nat, off: nat)
    requires MapsTo(tables, v, p, n) && off < n * PAGE_SIZE
    ensures IndexOf(Address(v) + off) < |tables| && PhaddrOf(tables, Address(v) + off) == p * PAGE_SIZE + off
  {
    var i := off / PAGE_SIZE;
    assert i < n;
    assert IndexOf(Address(v) + off) == v + i;
    assert Opens(tables[v + i], (p + i) * 0x1000);
    EntryBack(tables[v + i], p + i);
  }

  // the state besides the pools
  ghost predicate MapsOk(pages: Blocks, pageLive: set<nat>, vaddrs: Blocks, vaddrLive: set<nat>,
                         at: map<nat, nat>, kernelVaddr: seq<nat>, refcnt: seq<int>, tables: seq<nat>)
  {
    && |kernelVaddr| == |refcnt|
    && (forall p :: p in at ==> Mapped(pages, pageLive, vaddrs, vaddrLive, at[p], kernelVaddr, refcnt, tables, p))
    && (forall p, q :: p in at && q in at && p != q ==> at[p] != at[q])
    && (forall p :: 0 <= p < |kernelVaddr| && p !in at ==> kernelVaddr[p] == 0 && refcnt[p] == 0)
  }

  // page block p is mapped at the virtual block v, of its own size
  ghost predicate Mapped(pages: Blocks, pageLive: set<nat>, vaddrs: Blocks, vaddrLive: set<nat>,
                         v: nat, kernelVaddr: seq<nat>, refcnt: seq<int>, tables: seq<nat>, p: nat)
  {
    && p in pages && p in pageLive && v in vaddrs && v in vaddrLive && vaddrs[v] == pages[p]
    && p < |kernelVaddr| == |refcnt| && kernelVaddr[p] == Address(v) && refcnt[p] > 0
    && MapsTo(tables, v, p, Pow2(pages[p]))
  }

  // two mapped blocks have disjoint physical and disjoint virtual ranges
  lemma MappingsApart(pages: Blocks, pageLive: set<nat>, vaddrs: Blocks, vaddrLive: set<nat>,
                      at: map<nat, nat>, kernelVaddr: seq<nat>, refcnt: seq<int>, tables: seq<nat>, p: nat, q: nat)
    requires MapsOk(pages, pageLive, vaddrs, vaddrLive, at, kernelVaddr, refcnt, tables) && Tidy(pages) && Tidy(vaddrs)
    requires p in at && q in at && p != q
    ensures p in pages && q in pages
    ensures var n, m := Pow2(pages[p]), Pow2(pages[q]);
            && (p + n <= q || q + m <= p)
            && (Address(at[p]) + n * PAGE_SIZE <= Address(at[q]) || Address(at[q]) + m * PAGE_SIZE <= Address(at[p]))
  {
    assert Mapped(pages, pageLive, vaddrs, vaddrLive, at[p], kernelVaddr, refcnt, tables, p);
    assert Mapped(pages, pageLive, vaddrs, vaddrLive, at[q], kernelVaddr, refcnt, tables, q);
    assert Separate(p, pages[p], q, pages[q]) && Separate(at[p], vaddrs[at[p]], at[q], vaddrs[at[q]]);
  }

  // one mapping survives a change that leaves its own parts alone
  lemma MappedKept(pages: Blocks, pageLive: set<nat>, vaddrs: Blocks, vaddrLive: set<nat>, kernelVaddr: seq<nat>, refcnt: seq<int>, tables: seq<nat>,
                   pages': Blocks, pageLive': set<nat>, vaddrs': Blocks, vaddrLive': set<nat>, kernelVaddr': seq<nat>, refcnt': seq<int>, tables': seq<nat>,
                   v: nat, p: nat)
    requires Mapped(pages, pageLive, vaddrs, vaddrLive, v, kernelVaddr, refcnt, tables, p)
    requires p in pageLive' && v in vaddrLive' && LiveKept(pages, pages', pageLive') && LiveKept(vaddrs, vaddrs', vaddrLive')
    requires |kernelVaddr'| == |refcnt'| == |kernelVaddr| && |tables'| == |tables|
    requires kernelVaddr'[p] == kernelVaddr[p] && refcnt'[p] > 0
    requires forall j :: v <= j < v + Pow2(pages[p]) && j < |tables| ==> tables'[j] == tables[j]
    ensures Mapped(pages', pageLive', vaddrs', vaddrLive', v, kernelVaddr', refcnt', tables', p)
  {}

  // page p gets mapped at the new virtual block v
  lemma MapAdded(pages: Blocks, pageLive: set<nat>, vaddrs: Blocks, vaddrLive: set<nat>, at: map<nat, nat>,
                 kernelVaddr: seq<nat>, refcnt: seq<int>, tables: seq<nat>, vaddrs': Blocks, tables': seq<nat>, p: nat, v: nat)
    requires MapsOk(pages, pageLive, vaddrs, vaddrLive, at, kernelVaddr, refcnt, tables) && p !in at && v !in vaddrLive
    requires p in pages && p in pageLive && p < |kernelVaddr| && |tables'| == |tables|
    requires LiveKept(vaddrs, vaddrs', vaddrLive) && v in vaddrs' && vaddrs'[v] == pages[p] && Tidy(vaddrs')
    requires MapsTo(tables', v, p, Pow2(pages[p]))
    requires forall j :: 0 <= j < |tables| && !(v <= j < v + Pow2(pages[p])) ==> tables'[j] == tables[j]
    ensures MapsOk(pages, pageLive, vaddrs', vaddrLive + {v}, at[p := v], kernelVaddr[p := Address(v)], refcnt[p := 1], tables')
  {
    hide MapsTo, Tidy, Pow2;
    var at' := at[p := v];
    var kernelVaddr', refcnt' := kernelVaddr[p := Address(v)], refcnt[p := 1];
    forall q | q in at ensures Mapped(pages, pageLive, vaddrs', vaddrLive + {v}, at[q], kernelVaddr', refcnt', tables', q) && at[q] != v {
      assert Mapped(pages, pageLive, vaddrs, vaddrLive, at[q], kernelVaddr, refcnt, tables, q);
      AwayFrom(vaddrs', v, at[q]);
      MappedKept(pages, pageLive, vaddrs, vaddrLive, kernelVaddr, refcnt, tables,
                 pages, pageLive, vaddrs', vaddrLive, kernelVaddr', refcnt', tables', at[q], q);
    }
  }

  // a new virtual block, written in the page tables, touches no mapping
  lemma MapsKept(pages: Blocks, pageLive: set<nat>, vaddrs: Blocks, vaddrLive: set<nat>, at: map<nat, nat>,
                 kernelVaddr: seq<nat>, refcnt: seq<int>, tables: seq<nat>, vaddrs': Blocks, tables': seq<nat>, v: nat)
    requires MapsOk(pages, pageLive, vaddrs, vaddrLive, at, kernelVaddr, refcnt, tables) && v !in vaddrLive
    requires |tables'| == |tables| && LiveKept(vaddrs, vaddrs', vaddrLive) && v in vaddrs' && Tidy(vaddrs')
    requires forall j :: 0 <= j < |tables| && !(v <= j < v + Pow2(vaddrs'[v])) ==> tables'[j] == tables[j]
    ensures MapsOk(pages, pageLive, vaddrs', vaddrLive + {v}, at, kernelVaddr, refcnt, tables')
  {
    hide MapsTo, Tidy, Pow2;
    forall q | q in at ensures Mapped(pages, pageLive, vaddrs', vaddrLive + {v}, at[q], kernelVaddr, refcnt, tables', q) {
      assert Mapped(pages, pageLive, vaddrs, vaddrLive, at[q], kernelVaddr, refcnt, tables, q);
      AwayFrom(vaddrs', v, at[q]);
      MappedKept(pages, pageLive, vaddrs, vaddrLive, kernelVaddr, refcnt, tables,
                 pages, pageLive, vaddrs', vaddrLive, kernelVaddr, refcnt, tables', at[q], q);
    }
  }

  lemma AwayFrom(b: Blocks, v: nat, w: nat)
    requires Tidy(b) && v in b && w in b && v != w
    ensures v + Pow2(b[v]) <= w || w + Pow2(b[w]) <= v
  {
    assert Separate(v, b[v], w, b[w]);
  }

  // page p and its virtual block are unmapped
  lemma MapDropped(pages: Blocks, pageLive: set<nat>, vaddrs: Blocks, vaddrLive: set<nat>, at: map<nat, nat>,
                   kernelVaddr: seq<nat>, refcnt: seq<int>, tables: seq<nat>, vaddrs': Blocks, tables': seq<nat>, p: nat)
    requires MapsOk(pages, pageLive, vaddrs, vaddrLive, at, kernelVaddr, refcnt, tables) && p in at && p < |kernelVaddr| && p in pages
    requires LiveKept(vaddrs, vaddrs', vaddrLive - {at[p]}) && Tidy(vaddrs) && |tables'| == |tables|
    requires forall j :: 0 <= j < |tables| && !(at[p] <= j < at[p] + Pow2(pages[p])) ==> tables'[j] == tables[j]
    ensures MapsOk(pages, pageLive, vaddrs', vaddrLive - {at[p]}, at - {p}, kernelVaddr[p := 0], refcnt[p := 0], tables')
  {
    hide MapsTo, Tidy, Pow2;
    var v := at[p];
    var kernelVaddr', refcnt' := kernelVaddr[p := 0], refcnt[p := 0];
    assert Mapped(pages, pageLive, vaddrs, vaddrLive, v, kernelVaddr, refcnt, tables, p);
    forall q | q in at && q != p ensures Mapped(pages, pageLive, vaddrs', vaddrLive - {v}, at[q], kernelVaddr', refcnt', tables', q) {
      assert Mapped(pages, pageLive, vaddrs, vaddrLive, at[q], kernelVaddr, refcnt, tables, q);
      AwayFrom(vaddrs, v, at[q]);
      MappedKept(pages, pageLive, vaddrs, vaddrLive, kernelVaddr, refcnt, tables,
                 pages, pageLive, vaddrs', vaddrLive - {v}, kernelVaddr', refcnt', tables', at[q], q);
    }
  }

  // one more, or one less, map of page p
  lemma Recounted(pages: Blocks, pageLive: set<nat>, vaddrs: Blocks, vaddrLive: set<nat>, at: map<nat, nat>,
                  kernelVaddr: seq<nat>, refcnt: seq<int>, tables: seq<nat>, p: nat, c: int)
    requires MapsOk(pages, pageLive, vaddrs, vaddrLive, at, kernelVaddr, refcnt, tables) && p in at && p < |kernelVaddr| && c > 0
    ensures MapsOk(pages, pageLive, vaddrs, vaddrLive, at, kernelVaddr, refcnt[p := c], tables)
  {
    hide MapsTo;
    forall q | q in at ensures Mapped(pages, pageLive, vaddrs, vaddrLive, at[q], kernelVaddr, refcnt[p := c], tables, q) {
      assert Mapped(pages, pageLive, vaddrs, vaddrLive, at[q], kernelVaddr, refcnt, tables, q);
    }
  }

  // the page pool changes, but for the mapped pages
  lemma PagesChanged(pages: Blocks, pageLive: set<nat>, vaddrs: Blocks, vaddrLive: set<nat>, at: map<nat, nat>,
                     kernelVaddr: seq<nat>, refcnt: seq<int>, tables: seq<nat>, pages': Blocks, pageLive': set<nat>)
    requires MapsOk(pages, pageLive, vaddrs, vaddrLive, at, kernelVaddr, refcnt, tables)
    requires LiveKept(pages, pages', pageLive * pageLive') && at.Keys * pageLive <= pageLive'
    ensures MapsOk(pages', pageLive', vaddrs, vaddrLive, at, kernelVaddr, refcnt, tables)
  {
    hide MapsTo;
    forall q | q in at ensures Mapped(pages', pageLive', vaddrs, vaddrLive, at[q], kernelVaddr, refcnt, tables, q) {
      assert Mapped(pages, pageLive, vaddrs, vaddrLive, at[q], kernelVaddr, refcnt, tables, q);
      assert q in at.Keys * pageLive;
    }
  }

  lemma MapFacts(pages: Blocks, pageLive: set<nat>, vaddrs: Blocks, vaddrLive: set<nat>, at: map<nat, nat>,
                 kernelVaddr: seq<nat>, refcnt: seq<int>, tables: seq<nat>, p: nat)
    requires MapsOk(pages, pageLive, vaddrs, vaddrLive, at, kernelVaddr, refcnt, tables) && p < |kernelVaddr| == |refcnt|
    ensures p !in at ==> kernelVaddr[p] == 0 && refcnt[p] == 0
    ensures p in at ==> p in pages && p in pageLive && at[p] in vaddrs && at[p] in vaddrLive && vaddrs[at[p]] == pages[p]
    ensures p in at ==> kernelVaddr[p] == Address(at[p]) && refcnt[p] > 0 && MapsTo(tables, at[p], p, Pow2(pages[p]))
  {
    assert p in at ==> Mapped(pages, pageLive, vaddrs, vaddrLive, at[p], kernelVaddr, refcnt, tables, p);
  }

  lemma NothingCovered(f: Blocks, b: Blocks, live: set<nat>, units: set<nat>)
    requires Tiled(b, units) && units == {} && f == b - live
    ensures forall u :: !Covers(f, u)
  {
    hide Tiled, Pow2;
    forall u ensures !Covers(f, u) {
      if Covers(f, u) {
        var i :| i in f && Holds(f, i, u);
        UnitsOf(b, units, i, u);
      }
    }
  }

  class KernelMemory {
    const pages: BuddyPool
    const vaddrs: BuddyPool
    const kernelVaddr: array<nat>    // per page; 0 for NULL
    const refcnt: array<int>         // kernel_vaddr_refcnt
    const tables: array<nat>         // kernel_page_tables
    // the virtual block each mapped page block is mapped at
    ghost var at: map<nat, nat>

    ghost predicate Apart()
      reads this, pages, vaddrs
    {
      && pages != vaddrs
      && pages.order != vaddrs.order && pages.order != refcnt && vaddrs.order != refcnt
      && kernelVaddr != tables
    }

    ghost predicate Valid()
      reads this, pages, pages.order, vaddrs, vaddrs.order, kernelVaddr, refcnt, tables
    {
      && Apart() && pages.Valid() && vaddrs.Valid()
      && pages.count <= MAX_PAGES && vaddrs.count == KERNEL_MEMORY_PAGES
      && kernelVaddr.Length == refcnt.Length == pages.count && tables.Length == vaddrs.count
      && MapsOk(pages.blocks, pages.live, vaddrs.blocks, vaddrs.live, at, kernelVaddr[..], refcnt[..], tables[..])
    }

    // the constructor `mem` before it adds the usable ranges: every page is unmapped,
    // and the virtual pages from `first` on are free
    constructor (n: nat, first: nat, sameOrder: bool)
      requires n <= 0x10_0000 && first <= 0x4_0000
      ensures Valid() && pages.Whole() && vaddrs.Whole() && pages.count == n && pages.units == {} && at == map[]
      ensures vaddrs.units == Range(first, 0x4_0000) && vaddrs.live == {}
      ensures tables.Length == 0x4_0000 && forall j :: 0 <= j < 0x4_0000 ==> tables[j] == 0
      ensures fresh(pages) && fresh(pages.order) && fresh(vaddrs) && fresh(vaddrs.order)
      ensures fresh(kernelVaddr) && fresh(refcnt) && fresh(tables)
      ensures pages.sameOrder == vaddrs.sameOrder == sameOrder
    {
      var pool := new BuddyPool(n, sameOrder);
      var virtual := new BuddyPool(KERNEL_MEMORY_PAGES, sameOrder);
      NothingCovered(virtual.blocks - virtual.live, virtual.blocks, virtual.live, virtual.units);
      virtual.AddToPool(first, KERNEL_MEMORY_PAGES);
      pages := pool;
      vaddrs := virtual;
      kernelVaddr := new nat[n](_ => 0);
      refcnt := new int[n](_ => 0);
      tables := new nat[KERNEL_MEMORY_PAGES](_ => 0);
      at := map[];
    }

    // a usable range of the memory map
    method AddPages(from: nat, to: nat)
      requires Valid() && from <= to <= pages.count && pages.units !! Range(from, to)
      modifies pages
      ensures Valid() && pages.units == old(pages.units) + Range(from, to)
      ensures pages.live == old(pages.live) && LiveKept(old(pages.blocks), pages.blocks, pages.live)
      ensures old(pages.Whole()) && !Covers(old(pages.blocks - pages.live), from - 1) && !Covers(old(pages.blocks - pages.live), to)
              ==> pages.Whole()
    {
      hide MapsOk, Pow2, PoolOk, Tiled, Coalesced, Cut, Covers;
      ghost var pb0, pl0 := pages.blocks, pages.live;
      pages.AddToPool(from, to);
      PagesChanged(pb0, pl0, vaddrs.blocks, vaddrs.live, at, kernelVaddr[..], refcnt[..], tables[..], pages.blocks, pages.live);
    }

    // the entries of n pages from phaddr on
    method Fill(v: nat, phaddr: nat, n: nat)
      requires v + n <= tables.Length && phaddr % PAGE_SIZE == 0
      modifies tables
      ensures MapsTo(tables[..], v, phaddr / PAGE_SIZE, n)
      ensures forall j :: 0 <= j < tables.Length && !(v <= j < v + n) ==> tables[j] == old(tables[j])
    {
      ghost var p := phaddr / PAGE_SIZE;
      var i := 0;
      while i < n
        invariant 0 <= i <= n
        invariant forall j :: v <= j < v + i ==> Opens(tables[j], (p + (j - v)) * 0x1000)
        invariant forall j :: 0 <= j < tables.Length && !(v <= j < v + i) ==> tables[j] == old(tables[j])
      {
        tables[v + i] := phaddr + i * PAGE_SIZE + 3;
        EntryOpens(phaddr, i);
        i := i + 1;
      }
    }

    // map_phaddr_in_kernel
    method MapPhaddr(phaddr: nat, o: nat) returns (addr: nat)
      requires Valid() && o <= ORDERS && phaddr % PAGE_SIZE == 0
      modifies vaddrs`lists, vaddrs`blocks, vaddrs`live, vaddrs.order, tables
      ensures Valid() && (old(vaddrs.Whole()) ==> vaddrs.Whole())
      ensures addr == 0 ==> vaddrs.lists == old(vaddrs.lists) && vaddrs.blocks == old(vaddrs.blocks) && vaddrs.live == old(vaddrs.live)
                            && tables[..] == old(tables[..])
      ensures addr != 0 ==> addr >= KERNEL_MEMORY_BASE && addr == Address(IndexOf(addr))
      ensures addr != 0 ==> var v := IndexOf(addr);
                && v !in old(vaddrs.live) && vaddrs.live == old(vaddrs.live) + {v} && v in vaddrs.blocks && vaddrs.blocks[v] == o
                && LiveKept(old(vaddrs.blocks), vaddrs.blocks, old(vaddrs.live))
                && Reaches(tables[..], addr, phaddr / 0x1000, Pow2(o))
      ensures addr != 0 ==> forall j :: 0 <= j < tables.Length && !(IndexOf(addr) <= j < IndexOf(addr) + Pow2(o)) ==> tables[j] == old(tables[j])
    {
      hide MapsOk, Pow2, PoolOk, Tiled, Coalesced, AllocLists, MapsTo, Reaches;
      ghost var vb0, vl0, tb0 := vaddrs.blocks, vaddrs.live, tables[..];
      var ok, v := vaddrs.Allocate(o);
      if !ok {
        return 0;
      }
      PoolFacts(vaddrs.lists, vaddrs.blocks, vaddrs.live, vaddrs.units);
      BlockFits(vaddrs.blocks, vaddrs.units, vaddrs.count, v);
      Fill(v, phaddr, Pow2(o));
      MapsKept(pages.blocks, pages.live, vb0, vl0, at, kernelVaddr[..], refcnt[..], tb0, vaddrs.blocks, tables[..], v);
      addr := KERNEL_MEMORY_BASE + v * PAGE_SIZE;
      ReachesAt(tables[..], v, phaddr / PAGE_SIZE, Pow2(o));
    }

    // unmap_phaddr_in_kernel
    method UnmapPhaddr(addr: nat)
      requires Apart() && vaddrs.Valid() && tables.Length == vaddrs.count
      requires addr >= KERNEL_MEMORY_BASE && IndexOf(addr) in vaddrs.live && IndexOf(addr) in vaddrs.blocks
      modifies vaddrs`lists, vaddrs`blocks, vaddrs`live, vaddrs.order, tables
      ensures old(vaddrs.Clean(IndexOf(addr))) ==> vaddrs.Valid() && (old(vaddrs.Whole()) ==> vaddrs.Whole())
      ensures old(vaddrs.Clean(IndexOf(addr))) ==> LiveKept(old(vaddrs.blocks), vaddrs.blocks, vaddrs.live)
      ensures vaddrs.live == old(vaddrs.live) - {IndexOf(addr)}
      ensures MapsNothing(tables[..], IndexOf(addr), Pow2(old(vaddrs.blocks)[IndexOf(addr)]))
      ensures var v := IndexOf(addr); var n := Pow2(old(vaddrs.blocks)[v]);
              && (forall j :: v <= j < v + n && j < tables.Length ==> tables[j] == 0)
              && (forall j :: 0 <= j < tables.Length && !(v <= j < v + n) ==> tables[j] == old(tables[j]))
    {
      hide Pow2, PoolOk, Tiled, Coalesced, FreeLists, LiteralFree, StopsClean;
      var v := IndexOf(addr);
      PoolFacts(vaddrs.lists, vaddrs.blocks, vaddrs.live, vaddrs.units);
      BlockFits(vaddrs.blocks, vaddrs.units, vaddrs.count, v);
      Pow2Positive(vaddrs.blocks[v]);
      var n := Pow2(vaddrs.order[v]);
      var i := 0;
      while i < n
        invariant 0 <= i <= n
        invariant forall j :: v <= j < v + i ==> tables[j] == 0
        invariant forall j :: 0 <= j < tables.Length && !(v <= j < v + i) ==> tables[j] == old(tables[j])
        modifies tables
      {
        tables[v + i] := 0;
        i := i + 1;
      }
      vaddrs.Release(v);
    }

    // page_map
    method PageMap(p: nat) returns (addr: nat)
      requires Valid() && p in pages.live && p in pages.blocks && p < pages.count && refcnt[p] >= 0
      modifies vaddrs`lists, vaddrs`blocks, vaddrs`live, vaddrs.order, tables, kernelVaddr, refcnt, this`at
      ensures Valid() && (old(vaddrs.Whole()) ==> vaddrs.Whole())
      ensures addr == 0 ==> at == old(at) && vaddrs.lists == old(vaddrs.lists) && vaddrs.live == old(vaddrs.live) && tables[..] == old(tables[..]) && p !in at
      ensures addr != 0 ==> p in at && at == old(at)[p := at[p]] && addr == Address(at[p]) && refcnt[p] == old(refcnt[p]) + 1
      ensures addr != 0 ==> Reaches(tables[..], addr, p, Pow2(pages.blocks[p]))
      ensures old(p in at) ==> addr == old(Address(at[p])) && vaddrs.live == old(vaddrs.live)
      ensures old(p !in at) && addr != 0 ==> at[p] !in old(vaddrs.live) && vaddrs.live == old(vaddrs.live) + {at[p]}
      ensures forall q :: 0 <= q < pages.count && q != p ==> refcnt[q] == old(refcnt[q])
    {
      hide MapsOk, Pow2, PoolOk, Tiled, Coalesced, MapsTo, Below, Reaches;
      MapFacts(pages.blocks, pages.live, vaddrs.blocks, vaddrs.live, at, kernelVaddr[..], refcnt[..], tables[..], p);
      PoolFacts(pages.lists, pages.blocks, pages.live, pages.units);
      OrderBound(pages.blocks, p);
      ghost var kv0, rc0, tb0 := kernelVaddr[..], refcnt[..], tables[..];
      ghost var vb0, vl0 := vaddrs.blocks, vaddrs.live;
      if kernelVaddr[p] == 0 {
        var a := MapPhaddr(p * PAGE_SIZE, pages.order[p]);
        if a == 0 {
          kernelVaddr[p] := 0;
          assert kernelVaddr[..] == kv0;
          return 0;
        }
        kernelVaddr[p] := a;
        ghost var v := IndexOf(a);
        ReachesAt(tables[..], v, p, Pow2(pages.blocks[p]));
        PoolFacts(vaddrs.lists, vaddrs.blocks, vaddrs.live, vaddrs.units);
        MapAdded(pages.blocks, pages.live, vb0, vl0, at, kv0, rc0, tb0, vaddrs.blocks, tables[..], p, v);
        at := at[p := v];
      } else {
        ReachesAt(tb0, at[p], p, Pow2(pages.blocks[p]));
        Recounted(pages.blocks, pages.live, vb0, vl0, at, kv0, rc0, tb0, p, rc0[p] + 1);
      }
      refcnt[p] := refcnt[p] + 1;
      assert refcnt[..] == rc0[p := rc0[p] + 1];
      addr := kernelVaddr[p];
    }

    // page_unmap
    method PageUnmap(p: nat)
      requires Valid() && p in at && p < pages.count
      modifies vaddrs`lists, vaddrs`blocks, vaddrs`live, vaddrs.order, tables, kernelVaddr, refcnt, this`at
      ensures old(refcnt[p] > 1 || vaddrs.Clean(at[p])) ==> Valid() && (old(vaddrs.Whole()) ==> vaddrs.Whole())
      ensures old(refcnt[p]) > 1 ==> at == old(at) && vaddrs.live == old(vaddrs.live) && refcnt[p] == old(refcnt[p]) - 1
      ensures old(refcnt[p]) == 1 ==> at == old(at) - {p} && vaddrs.live == old(vaddrs.live) - {old(at)[p]}
      ensures old(refcnt[p]) == 1 && p in pages.blocks ==> MapsNothing(tables[..], old(at)[p], Pow2(pages.blocks[p]))
      ensures forall q :: 0 <= q < pages.count && q != p ==> refcnt[q] == old(refcnt[q])
    {
      hide MapsOk, Pow2, PoolOk, Tiled, Coalesced, MapsTo, Below, Reaches;
      MapFacts(pages.blocks, pages.live, vaddrs.blocks, vaddrs.live, at, kernelVaddr[..], refcnt[..], tables[..], p);
      ghost var kv0, rc0, tb0 := kernelVaddr[..], refcnt[..], tables[..];
      ghost var vb0, vl0, v := vaddrs.blocks, vaddrs.live, at[p];
      refcnt[p] := refcnt[p] - 1;
      if refcnt[p] != 0 {
        Recounted(pages.blocks, pages.live, vb0, vl0, at, kv0, rc0, tb0, p, refcnt[p]);
        assert refcnt[..] == rc0[p := refcnt[p]];
        return;
      }
      PoolFacts(vaddrs.lists, vaddrs.blocks, vaddrs.live, vaddrs.units);
      AddressBack(v);
      UnmapPhaddr(kernelVaddr[p]);
      kernelVaddr[p] := 0;
      if old(vaddrs.Clean(at[p])) {
        MapDropped(pages.blocks, pages.live, vb0, vl0, at, kv0, rc0, tb0, vaddrs.blocks, tables[..], p);
      }
      assert refcnt[..] == rc0[p := 0] && kernelVaddr[..] == kv0[p := 0];
      at := at - {p};
    }

    // kernel_page_allocate: a new page block mapped at a new virtual block, or nothing at all
    method KernelPageAllocate(o: nat) returns (addr: nat, ghost p: nat)
      requires Valid() && o <= ORDERS
      modifies pages`lists, pages`blocks, pages`live, pages.order
      modifies vaddrs`lists, vaddrs`blocks, vaddrs`live, vaddrs.order, tables, kernelVaddr, refcnt, this`at
      ensures addr != 0 || old(pages.CleanAgain(o)) ==> Valid() && (old(pages.Whole()) ==> pages.Whole()) && (old(vaddrs.Whole()) ==> vaddrs.Whole())
      ensures addr == 0 ==> at == old(at) && pages.live == old(pages.live) && vaddrs.live == old(vaddrs.live) && tables[..] == old(tables[..])
      ensures addr == 0 && old(pages.CleanAgain(o) && pages.Whole()) ==> SameEntries(old(pages.lists), pages.lists) && vaddrs.lists == old(vaddrs.lists)
      ensures addr != 0 ==> p !in old(pages.live) && pages.live == old(pages.live) + {p} && p in pages.blocks && pages.blocks[p] == o
      ensures addr != 0 ==> p in at && p !in old(at) && at == old(at)[p := at[p]] && addr == Address(at[p]) && p < pages.count && refcnt[p] == 1
      ensures addr != 0 ==> at[p] !in old(vaddrs.live) && vaddrs.live == old(vaddrs.live) + {at[p]}
      ensures addr != 0 ==> Reaches(tables[..], addr, p, Pow2(o))
    {
      hide MapsOk, Pow2, PoolOk, Tiled, Coalesced, MapsTo, Below, AllocLists, FreeLists, Reaches;
      ghost var pb0, pl0, lists0 := pages.blocks, pages.live, pages.lists;
      ghost var whole, clean := pages.Whole(), pages.CleanAgain(o);
      PoolFacts(pages.lists, pages.blocks, pages.live, pages.units);
      if o < ORDERS && AllocLists(pages.lists, o).block.Some? && whole {
        AllocFreeRestores(pages.lists, pages.blocks, pages.live, pages.units, pages.count, o);
      }
      var ok, page := pages.Allocate(o);
      p := page;
      if !ok {
        addr := 0;
        return;
      }
      PagesChanged(pb0, pl0, vaddrs.blocks, vaddrs.live, at, kernelVaddr[..], refcnt[..], tables[..], pages.blocks, pages.live);
      NotMapped(pb0, pl0, vaddrs.blocks, vaddrs.live, at, kernelVaddr[..], refcnt[..], tables[..], p);
      addr := PageMap(page);
      if addr == 0 {
        ghost var pb1, pl1 := pages.blocks, pages.live;
        PoolFacts(pages.lists, pages.blocks, pages.live, pages.units);
        OrderBound(pages.blocks, p);
        pages.Release(page);
        if clean {
          PagesChanged(pb1, pl1, vaddrs.blocks, vaddrs.live, at, kernelVaddr[..], refcnt[..], tables[..], pages.blocks, pages.live);
        }
        assert pages.live == pl0;
      }
    }

    // kernel_page_free, of a block mapped once
    method KernelPageFree(addr: nat, ghost p: nat)
      requires Valid() && p in at && p < pages.count && addr == Address(at[p]) && refcnt[p] == 1
      modifies pages`lists, pages`blocks, pages`live, pages.order
      modifies vaddrs`lists, vaddrs`blocks, vaddrs`live, vaddrs.order, tables, kernelVaddr, refcnt, this`at
      ensures old(vaddrs.Clean(at[p]) && pages.Clean(p)) ==>
                Valid() && (old(pages.Whole()) ==> pages.Whole()) && (old(vaddrs.Whole()) ==> vaddrs.Whole())
      ensures pages.live == old(pages.live) - {p} && vaddrs.live == old(vaddrs.live) - {old(at)[p]} && at == old(at) - {p}
      ensures old(pages.Clean(p)) ==> LiveKept(old(pages.blocks), pages.blocks, pages.live)
      ensures p in old(pages.blocks) && MapsNothing(tables[..], old(at)[p], Pow2(old(pages.blocks)[p]))
    {
      hide MapsOk, Pow2, PoolOk, Tiled, Coalesced, Below, FreeLists, LiteralFree, StopsClean;
      MapFacts(pages.blocks, pages.live, vaddrs.blocks, vaddrs.live, at, kernelVaddr[..], refcnt[..], tables[..], p);
      PoolFacts(pages.lists, pages.blocks, pages.live, pages.units);
      OrderBound(pages.blocks, p);
      AddressBack(at[p]);
      Pow2Positive(pages.blocks[p]);
      var pageIndex := IndexOf(addr);
      EntryBack(tables[pageIndex], p);
      var page := tables[pageIndex] / PAGE_SIZE;
      assert page == p;
      PageUnmap(page);
      ghost var pb0, pl0 := pages.blocks, pages.live;
      pages.Release(page);
      NotAt(at, p);
      if old(vaddrs.Clean(at[p]) && pages.Clean(p)) {
        PagesChanged(pb0, pl0, vaddrs.blocks, vaddrs.live, at, kernelVaddr[..], refcnt[..], tables[..], pages.blocks, pages.live);
      }
    }
  }

  lemma AddressBack(v: nat)
    ensures IndexOf(Address(v)) == v
  {}

  lemma EntryBack(entry: nat, p: nat)
    requires Opens(entry, p * 0x1000)
    ensures entry / PAGE_SIZE == p
  {}

  lemma EntryOpens(phaddr: nat, i: nat)
    requires phaddr % PAGE_SIZE == 0
    ensures Opens(phaddr + i * PAGE_SIZE + 3, (phaddr / PAGE_SIZE + i) * 0x1000)
  {
    var a := phaddr / PAGE_SIZE + i;
    assert phaddr + i * PAGE_SIZE == a * PAGE_SIZE;
    LowBits(a);
  }

  lemma LowBits(a: nat)
    ensures Opens(a * PAGE_SIZE + 3, a * 0x1000)
  {
    FlagBits(a * 0x400);
  }

  lemma FlagBits(b: nat)
    ensures Opens(4 * b + 3, 4 * b)
  {
    assert (4 * b + 3) / 2 == 2 * b + 1;
  }

  lemma NotAt(at: map<nat, nat>, p: nat)
    requires p !in at
    ensures forall live: set<nat> :: at.Keys * live <= live - {p}
  {}

  // what was not allocated is not mapped
  lemma NotMapped(pages: Blocks, pageLive: set<nat>, vaddrs: Blocks, vaddrLive: set<nat>, at: map<nat, nat>,
                  kernelVaddr: seq<nat>, refcnt: seq<int>, tables: seq<nat>, p: nat)
    requires MapsOk(pages, pageLive, vaddrs, vaddrLive, at, kernelVaddr, refcnt, tables) && p !in pageLive && p < |kernelVaddr| == |refcnt|
    ensures p !in at && kernelVaddr[p] == 0 && refcnt[p] == 0
  {
    MapFacts(pages, pageLive, vaddrs, vaddrLive, at, kernelVaddr, refcnt, tables, p);
  }

  // the lists hold the same blocks, in some order
  ghost predicate SameEntries(lists: Lists, lists': Lists) {
    |lists'| == |lists| && forall o, x :: 0 <= o < |lists| ==> (x in lists'[o] <==> x in lists[o])
  }

  lemma OrderBound(b: Blocks, i: nat)
    requires Tidy(b) && i in b
    ensures b[i] <= MAX_ORDER
  {
    assert Placed(i, b[i]);
  }

  lemma BlockFits(b: Blocks, units: set<nat>, count: nat, i: nat)
    requires Tiled(b, units) && Below(units, count) && i in b
    ensures i + Pow2(b[i]) <= count
  {
    Pow2Positive(b[i]);
    UnitsOf(b, units, i, i + Pow2(b[i]) - 1);
  }
}
