/** lib/kernel/memory.c: sys_malloc and sys_free for kernel threads, on the page maps and the arenas. */
module Heap {
  import opened Bitmap
  import opened Pages
  import opened Arenas

  /** What sys_malloc returns; `Panic` is the failed assertion of bitmap_scan on a full map. */
  datatype Result = Pointer(addr: nat) | Null | Panic

  function PagesFor(size: nat): (n: nat)
    ensures 4096 * n >= size + 12 && forall m: nat :: 4096 * m >= size + 12 ==> n <= m
  {
    (size + HEADER + PG - 1) / PG
  }

  /** The smallest class whose blocks hold size bytes. */
  function ClassFor(size: nat, from: nat): (k: nat)
    requires from < CLASSES && size <= 1024
    ensures from <= k < CLASSES && size <= Size(k) && forall j :: from <= j < k ==> Size(j) < size
    decreases CLASSES - from
  {
    if size <= Size(from) || from == CLASSES - 1 then from else ClassFor(size, from + 1)
  }

  /** The pages that malloc asks malloc_page for. */
  function PagesWanted(free: seq<seq<nat>>, size: nat): nat
    requires |free| == CLASSES
  {
    if size > 1024 then PagesFor(size) else if free[ClassFor(size, 0)] == [] then 1 else 0
  }

  function Zeroed(mem: seq<nat>, start: nat, len: nat): (r: seq<nat>)
    requires start + len <= |mem|
    ensures |r| == |mem| && forall i :: 0 <= i < |mem| ==> r[i] == if start <= i < start + len then 0 else mem[i]
  {
    mem[..start] + seq(len, _ => 0) + mem[start + len..]
  }

  /** The bytes of every live allocation are as they were. */
  ghost predicate LiveKept(s: Store, mem: seq<nat>, mem': seq<nat>) {
    && |mem'| == |mem|
    && forall c, i :: c in s.live && PageOf(c) in s.arenas && c <= i < c + Granted(s.arenas, c) && i < |mem| ==>
          mem'[i] == mem[i]
  }

  lemma LivePage(s: Store, c: nat, i: nat)
    requires Inv(s) && c in s.live && PageOf(c) in s.arenas && c <= i < c + Granted(s.arenas, c)
    ensures PageOf(i) in s.cover
  {
    LiveInside(s, c);
    assert Covers(s.arenas, PageOf(c), PageOf(i));
  }

  /** Clearing pages that are not in use changes no live byte. */
  lemma ClearingPagesKeeps(s: Store, mem: seq<nat>, b: nat, pages: nat)
    requires Inv(s) && PG * (b + pages) <= |mem| && forall v :: b <= v < b + pages ==> v !in s.cover
    ensures PG * b + PG * pages <= |mem| && LiveKept(s, mem, Zeroed(mem, PG * b, PG * pages))
  {
    forall c, i | c in s.live && PageOf(c) in s.arenas && c <= i < c + Granted(s.arenas, c) && i < |mem|
      ensures Zeroed(mem, PG * b, PG * pages)[i] == mem[i]
    {
      LivePage(s, c, i);
    }
  }

  /** Clearing the new allocation changes no byte of the others. */
  lemma ClearingBlockKeeps(s: Store, t: Store, mem: seq<nat>, a: nat)
    requires Inv(s) && Inv(t) && a in t.live && a !in s.live && PageOf(a) in t.arenas
    requires a + Granted(t.arenas, a) <= |mem|
    requires forall c :: c in s.live && PageOf(c) in s.arenas ==>
               c in t.live && PageOf(c) in t.arenas && Granted(t.arenas, c) == Granted(s.arenas, c)
    requires Granted(t.arenas, a) >= 0
    ensures LiveKept(s, mem, Zeroed(mem, a, Granted(t.arenas, a)))
  {
    forall c, i | c in s.live && PageOf(c) in s.arenas && c <= i < c + Granted(s.arenas, c) && i < |mem|
      ensures Zeroed(mem, a, Granted(t.arenas, a))[i] == mem[i]
    {
      if a < c { LiveApart(t, a, c); } else { LiveApart(t, c, a); }
    }
  }

  /** Kernel memory: both page maps and the entries, the allocator's data, and the bytes of the heap, which are
      meaningful inside live allocations. */
  datatype Kernel = Kernel(vbits: seq<bool>, pbits: seq<bool>, pte: map<nat, nat>, n: nat, store: Store, mem: seq<nat>)

  ghost predicate Valid(h: Kernel) {
    && VirtualOk(h.vbits, h.pte, h.n) && FramesOk(h.pbits, h.pte, h.n) && Inv(h.store) && |h.mem| == PG * h.n
    && forall v :: v in h.store.cover <==> v in h.pte
  }

  ghost predicate RawPage(s: Store, v: nat) {
    v in s.cover && s.cover[v] in s.arenas && s.arenas[s.cover[v]].Raw?
  }

  ghost predicate RawArena(s: Store, p: nat) {
    p in s.arenas && s.arenas[p].Raw?
  }

  /** The pages of get_kernel_page and their frames are as they were. */
  ghost predicate RawKept(a: Kernel, b: Kernel) {
    && (forall p :: RawArena(a.store, p) <==> RawArena(b.store, p))
    && (forall p :: RawArena(a.store, p) && RawArena(b.store, p) ==> b.store.arenas[p] == a.store.arenas[p])
    && (forall v :: RawPage(a.store, v) && v in a.pte && v in b.pte ==> b.pte[v] == a.pte[v])
  }

  /** With nothing live every page in use is one of get_kernel_page. */
  lemma OnlyRawPages(s: Store, t: Store)
    requires Inv(s) && Inv(t) && s.live == map[]
    requires forall p :: RawArena(s, p) <==> RawArena(t, p)
    requires forall p :: RawArena(s, p) && RawArena(t, p) ==> t.arenas[p] == s.arenas[p]
    ensures forall v :: v in s.cover ==> RawPage(s, v) && v in t.cover
  {
    NothingLive(s);
    forall v | v in s.cover ensures RawPage(s, v) && v in t.cover {
      var p := s.cover[v];
      assert Covers(s.arenas, p, v) && RawArena(s, p);
      assert Covers(t.arenas, p, v);
    }
  }

  lemma FramesAreValues(pbits: seq<bool>, pte: map<nat, nat>, n: nat)
    requires FramesOk(pbits, pte, n)
    ensures forall i :: 0 <= i < n ==> (pbits[i] <==> i in pte.Values)
  {
  }

  lemma CoversAgree(s: Store, t: Store)
    requires Inv(s) && Inv(t) && s.live == map[] && t.live == map[]
    requires forall p :: RawArena(s, p) <==> RawArena(t, p)
    requires forall p :: RawArena(s, p) && RawArena(t, p) ==> t.arenas[p] == s.arenas[p]
    ensures (forall v :: v in s.cover <==> v in t.cover) && forall v :: v in s.cover ==> RawPage(s, v)
  {
    OnlyRawPages(s, t);
    OnlyRawPages(t, s);
  }

  lemma ReclaimedEntries(a: Kernel, b: Kernel)
    requires Valid(a) && Valid(b) && a.n == b.n && RawKept(a, b) && a.store.live == map[] && b.store.live == map[]
    ensures b.pte == a.pte
  {
    CoversAgree(a.store, b.store);
    RawEntries(a.store, b.store, a.pte, b.pte);
  }

  lemma RawEntries(s: Store, t: Store, p: map<nat, nat>, q: map<nat, nat>)
    requires (forall v :: v in s.cover <==> v in p) && (forall v :: v in t.cover <==> v in q)
    requires (forall v :: v in s.cover <==> v in t.cover) && forall v :: v in s.cover ==> RawPage(s, v)
    requires forall v :: RawPage(s, v) && v in p && v in q ==> q[v] == p[v]
    ensures p == q
  {
    SameEntries(s.cover, t.cover, p, q);
  }

  /** With nothing live, before and after, the kernel's memory is the same: both page maps, every page table
      entry, and seven empty free lists. */
  lemma Reclaimed(a: Kernel, b: Kernel)
    requires Valid(a) && Valid(b) && a.n == b.n && RawKept(a, b) && a.store.live == map[] && b.store.live == map[]
    ensures b.vbits == a.vbits && b.pbits == a.pbits && b.pte == a.pte
    ensures forall k :: 0 <= k < CLASSES ==> b.store.free[k] == []
  {
    ReclaimedEntries(a, b);
    SameVirtual(a.vbits, b.vbits, a.pte, b.pte, a.n);
    FramesAreValues(a.pbits, a.pte, a.n);
    FramesAreValues(b.pbits, b.pte, b.n);
    NothingLive(b.store);
  }

  lemma SameEntries(c: map<nat, nat>, d: map<nat, nat>, p: map<nat, nat>, q: map<nat, nat>)
    requires (forall v :: v in c <==> v in p) && (forall v :: v in d <==> v in q) && forall v :: v in c <==> v in d
    requires forall v :: v in c && v in p && v in q ==> q[v] == p[v]
    ensures p == q
  {
    SameKeys(c, d, p, q);
  }

  lemma SameKeys(c: map<nat, nat>, d: map<nat, nat>, p: map<nat, nat>, q: map<nat, nat>)
    requires (forall v :: v in c <==> v in p) && (forall v :: v in d <==> v in q) && forall v :: v in c <==> v in d
    ensures forall v :: v in p <==> v in q
  {
    forall v ensures v in p <==> v in q {
      assert v in c <==> v in p;
    }
  }

  lemma SameVirtual(x: seq<bool>, y: seq<bool>, p: map<nat, nat>, q: map<nat, nat>, n: nat)
    requires VirtualOk(x, p, n) && VirtualOk(y, q, n) && forall v :: v in p <==> v in q
    ensures x == y
  {
  }

  /** malloc_page has added cnt pages from `start`; the allocator's data has them too. */
  lemma PagesAdded(a: Kernel, b: Kernel, start: nat, cnt: nat)
    requires Valid(a) && Inv(b.store) && |b.mem| == |a.mem| && b.n == a.n && VirtualOk(b.vbits, b.pte, b.n)
    requires FramesOk(b.pbits, b.pte, b.n)
    requires Kept(b.pte, a.pte, start, cnt) && forall v :: start <= v < start + cnt ==> v in b.pte && v !in a.pte
    requires forall v :: v in b.store.cover <==> v in a.store.cover || start <= v < start + cnt
    ensures Valid(b) && forall v :: v in a.pte ==> v in b.pte && b.pte[v] == a.pte[v]
  {
  }

  lemma LargeDone(a: Kernel, b: Kernel, start: nat, pages: nat, size: nat)
    requires Valid(a) && pages >= 1 && 0 < size <= PG * pages - HEADER && start + pages <= a.n
    requires b.n == a.n && VirtualOk(b.vbits, b.pte, b.n) && FramesOk(b.pbits, b.pte, b.n)
    requires Kept(b.pte, a.pte, start, pages) && forall v :: start <= v < start + pages ==> v in b.pte && v !in a.pte
    requires PG * start + PG * pages <= |a.mem|
    requires b.store == NewLarge(a.store, start, pages, size) && b.mem == Zeroed(a.mem, PG * start, PG * pages)
    ensures Valid(b) && RawKept(a, b) && LiveKept(a.store, a.mem, b.mem)
    ensures NewAllocation(a.store, b.store, b.mem, PG * start + HEADER, size)
  {
    assert forall v :: start <= v < start + pages ==> v !in a.store.cover;
    NewLargeKeeps(a.store, start, pages, size);
    ClearingPagesKeeps(a.store, a.mem, start, pages);
    PagesAdded(a, b, start, pages);
    LargeRaw(a, b, start, pages, size);
    assert PageOf(PG * start + HEADER) == start;
  }

  lemma LargeRaw(a: Kernel, b: Kernel, start: nat, pages: nat, size: nat)
    requires Valid(a) && start !in a.store.arenas && b.store == NewLarge(a.store, start, pages, size)
    requires forall v :: v in a.pte ==> v in b.pte && b.pte[v] == a.pte[v]
    ensures RawKept(a, b)
  {
    forall p ensures RawArena(a.store, p) <==> RawArena(b.store, p) {
    }
  }

  /** The pointer is new, its bytes are zero, and it is the only change among the live allocations. */
  ghost predicate NewAllocation(s: Store, t: Store, mem: seq<nat>, a: nat, size: nat) {
    && a !in s.live && t.live == s.live[a := size] && PageOf(a) in t.arenas && size <= Granted(t.arenas, a)
    && a + Granted(t.arenas, a) <= |mem| && forall i :: a <= i < a + Granted(t.arenas, a) ==> mem[i] == 0
  }

  /** The kernel heap: page maps, arena headers, free lists, bytes. */
  class KernelHeap {
    const maps: PageMaps
    const poolSize: nat
    var arenas: map<nat, Arena>
    var free: seq<seq<nat>>
    var mem: seq<nat>
    ghost var cover: map<nat, nat>
    ghost var live: map<nat, nat>

    ghost function StoreOf(): Store
      reads this
    {
      Store(arenas, free, cover, live)
    }

    ghost function State(): Kernel
      reads this, maps
    {
      Kernel(maps.vbits, maps.pbits, maps.pte, maps.n, StoreOf(), mem)
    }

    /** mem_init: empty maps and empty lists. */
    constructor (kernelFreePages: nat)
      ensures Valid(State()) && fresh(maps) && live == map[] && maps.n == kernelFreePages / 8 * 8
      ensures poolSize == PG * kernelFreePages
    {
      maps := new PageMaps(kernelFreePages);
      poolSize := PG * kernelFreePages;
      arenas := map[];
      free := seq(CLASSES, _ => []);
      mem := seq(PG * (kernelFreePages / 8 * 8), _ => 0);
      cover := map[];
      live := map[];
    }

    /** The header and the zeros of a large allocation whose pages are mapped. */
    method SetUpLarge(b: nat, pages: nat, size: nat, ghost a: Kernel) returns (addr: nat)
      requires Valid(a) && 1 <= pages && 0 < size <= PG * pages - HEADER && b + pages <= a.n
      requires a.n == maps.n && maps.Valid() && a.store == StoreOf() && a.mem == mem
      requires Kept(maps.pte, a.pte, b, pages) && forall v :: b <= v < b + pages ==> v in maps.pte && v !in a.pte
      modifies this
      ensures addr == PG * b + HEADER && Allocated(a, State(), addr, size) && free == old(free)
    {
      addr := PG * b + HEADER;
      mem := Zeroed(mem, PG * b, PG * pages);
      arenas := arenas[b := Large(pages)];
      cover := CoverRun(cover, b, pages);
      live := live[addr := size];
      LargeDone(a, State(), b, pages, size);
    }

    /** sys_malloc of more than 1024 bytes. */
    method MallocLarge(size: nat, past: bool) returns (r: Result)
      requires Valid(State()) && size > 1024
      requires var f := ScanOf(maps.vbits, past, PagesFor(size)); f.At? ==> f.start + PagesFor(size) <= Reach(maps.n)
      modifies this, maps
      ensures r == FromScan(ScanOf(old(maps.vbits), past, PagesFor(size)), HEADER) && free == old(free)
      ensures !r.Pointer? ==> State() == old(State())
      ensures r.Pointer? ==> Allocated(old(State()), State(), r.addr, size)
    {
      var pages := PagesFor(size);
      var found := maps.MallocPage(pages, past);
      if found.At? {
        var addr := SetUpLarge(found.start, pages, size, old(State()));
        r := Pointer(addr);
      } else {
        r := FromScan(found, HEADER);
      }
    }

    /** A fresh arena: its page cleared, its header written, its blocks appended to the free list one by one. */
    method SetUpSmall(b: nat, k: nat, ghost a: Kernel)
      requires Valid(a) && k < CLASSES && b + 1 <= a.n
      requires a.n == maps.n && maps.Valid() && a.store == StoreOf() && a.mem == mem
      requires Kept(maps.pte, a.pte, b, 1) && b in maps.pte && b !in a.pte
      modifies this
      ensures StoreOf() == NewSmall(a.store, b, k) && mem == Zeroed(a.mem, PG * b, PG)
    {
      mem := Zeroed(mem, PG * b, PG);
      arenas := arenas[b := Small(k, Per(k))];
      cover := cover[b := b];
      AppendBlocks(b, k);
    }

    /** The blocks of a page, appended to their free list one by one. */
    method AppendBlocks(b: nat, k: nat)
      requires k < CLASSES == |free|
      modifies this`free
      ensures free == old(free)[k := old(free)[k] + Blocks(b, k)]
    {
      var i := 0;
      assert free[k] + Blocks(b, k)[..0] == free[k];
      while i < Per(k)
        invariant i <= Per(k) && |free| == CLASSES && free == old(free)[k := old(free)[k] + Blocks(b, k)[..i]]
      {
        assert old(free)[k] + Blocks(b, k)[..i] + [BlockAddr(b, k, i)] == old(free)[k] + Blocks(b, k)[..i + 1];
        free := free[k := free[k] + [BlockAddr(b, k, i)]];
        i := i + 1;
      }
      assert Blocks(b, k)[..i] == Blocks(b, k);
    }

    /** The head of a free list that is not empty is popped and cleared, and its arena's count goes down. */
    method PopBlock(k: nat, size: nat) returns (addr: nat)
      requires Loose(StoreOf()) && k < CLASSES && free[k] != [] && 0 < size <= Size(k)
      requires BusyBut(arenas, PageOf(free[k][0])) && free[k][0] + Size(k) <= |mem|
      modifies this
      ensures old(free[k]) != [] && addr == old(free[k][0]) && addr !in old(live)
      ensures Inv(StoreOf()) && PageOf(addr) in old(arenas) && old(arenas)[PageOf(addr)].Small?
      ensures old(arenas)[PageOf(addr)].cnt > 0
      ensures StoreOf() == TakeBlock(old(StoreOf()), k, size) && mem == Zeroed(old(mem), addr, Size(k))
    {
      TakeBlockKeeps(StoreOf(), k, size);
      addr := free[k][0];
      free := free[k := free[k][1..]];
      mem := Zeroed(mem, addr, Size(k));
      var b := PageOf(addr);
      arenas := Recounted(arenas, b, arenas[b].cnt - 1);
      live := live[addr := size];
    }

    /** A new arena of class k, if malloc_page has a page for it. */
    method NewArena(k: nat, past: bool) returns (found: Found)
      requires Valid(State()) && k < CLASSES && free[k] == []
      requires var f := ScanOf(maps.vbits, past, 1); f.At? ==> f.start + 1 <= Reach(maps.n)
      modifies this, maps
      ensures found == ScanOf(old(maps.vbits), past, 1)
      ensures !found.At? ==> State() == old(State())
      ensures found.At? ==> Ready(old(State()), State(), k) && free == old(free)[k := Blocks(found.start, k)]
    {
      found := maps.MallocPage(1, past);
      if found.At? {
        SetUpSmall(found.start, k, old(State()));
        FreshReady(old(State()), State(), found.start, k);
        assert [] + Blocks(found.start, k) == Blocks(found.start, k);
      }
    }

    /** sys_malloc of at most 1024 bytes: a new arena if the free list is empty, then its head. */
    method MallocSmall(size: nat, past: bool) returns (r: Result)
      requires Valid(State()) && 0 < size <= 1024
      requires free[ClassFor(size, 0)] == [] ==> var f := ScanOf(maps.vbits, past, 1); f.At? ==>
                f.start + 1 <= Reach(maps.n)
      modifies this, maps
      ensures r.Pointer? <==> old(free)[ClassFor(size, 0)] != [] || ScanOf(old(maps.vbits), past, 1).At?
      ensures !r.Pointer? ==> State() == old(State()) && r == FromScan(ScanOf(maps.vbits, past, 1), 0)
      ensures r.Pointer? ==> Allocated(old(State()), State(), r.addr, size)
      ensures r.Pointer? ==> Placed(old(maps.vbits), old(free), free, size, past, r.addr)
    {
      var k := ClassFor(size, 0);
      ghost var a := State();
      AlreadyReady(a, k);
      if free[k] == [] {
        var found := NewArena(k, past);
        if !found.At? { return FromScan(found, 0); }
      }
      ghost var h := State();
      ReadyHead(a, h, k);
      var addr := PopBlock(k, size);
      SmallDone(a, h, State(), k, size, addr);
      PopsPlaced(a.vbits, a.store.free, h.store.free, free, k, size, past, addr);
      return Pointer(addr);
    }

    /** sys_malloc. `past` is the bit in memory after the virtual map. */
    method SysMalloc(size: nat, past: bool) returns (r: Result)
      requires Valid(State())
      requires var want := PagesWanted(free, size);
               0 < size < poolSize && want > 0 ==> var f := ScanOf(maps.vbits, past, want); f.At? ==>
                   f.start + want <= Reach(maps.n)
      modifies this, maps
      ensures r.Pointer? ==> Allocated(old(State()), State(), r.addr, size)
      ensures r.Pointer? ==> Placed(old(maps.vbits), old(free), free, size, past, r.addr)
      ensures !r.Pointer? ==> State() == old(State())
      ensures var want := PagesWanted(old(free), size);
              && (r.Pointer? <==> 0 < size < poolSize && (want == 0 || ScanOf(old(maps.vbits), past, want).At?))
              && (r == Panic <==> 0 < size < poolSize && want > 0 && ScanOf(old(maps.vbits), past, want).Stopped?)
    {
      if !(size > 0 && size < poolSize) { return Null; }
      if size > 1024 {
        r := MallocLarge(size, past);
      } else {
        r := MallocSmall(size, past);
      }
    }

    /** get_kernel_page: cleared pages that sys_free never sees. */
    method GetKernelPage(cnt: nat, past: bool) returns (r: Result)
      requires Valid(State()) && cnt >= 1
      requires var f := ScanOf(maps.vbits, past, cnt); f.At? ==> f.start + cnt <= Reach(maps.n)
      modifies this, maps
      ensures r == FromScan(ScanOf(old(maps.vbits), past, cnt), 0)
      ensures !r.Pointer? ==> State() == old(State())
      ensures r.Pointer? ==> RawAdded(old(State()), State(), ScanOf(old(maps.vbits), past, cnt).start, cnt)
    {
      var found := maps.MallocPage(cnt, past);
      r := FromScan(found, 0);
      if found.At? {
        var b := found.start;
        mem := Zeroed(mem, PG * b, PG * cnt);
        arenas := arenas[b := Raw(cnt)];
        cover := CoverRun(cover, b, cnt);
        RawDone(old(State()), State(), b, cnt);
      }
    }

    /** sys_free of a large allocation: mfree_page gets the pointer behind the header. */
    method FreeLarge(ptr: nat, b: nat, pages: nat)
      requires Valid(State()) && ptr in live && b == PageOf(ptr) && b in arenas && arenas[b] == Large(pages)
      modifies this, maps
      ensures Released(old(State()), State(), ptr) && free == old(free)
    {
      ghost var a := State();
      LargePages(a, b, ptr);
      maps.MfreePage(ptr, pages, b);
      arenas := arenas - {b};
      cover := UncoverRun(cover, b, pages);
      live := live - {ptr};
      LargeReleased(a, State(), b, ptr);
    }

    /** The arena's blocks leave the free list one by one. */
    method RemoveBlocks(b: nat, k: nat)
      requires k < CLASSES == |free| && NoRepeats(free[k]) && forall x :: x in free[k] ==> IsBlock(x, k)
      modifies this`free
      ensures free == old(free)[k := WithoutPage(old(free)[k], b)]
    {
      ghost var list := free[k];
      var i := 0;
      WithoutNoBlocks(list, b, k);
      while i < Per(k)
        invariant i <= Per(k) && |free| == CLASSES && free == old(free)[k := WithoutBlocks(list, b, k, i)]
      {
        RemoveNextBlock(list, b, k, i);
        free := free[k := Remove(free[k], BlockAddr(b, k, i))];
        i := i + 1;
      }
      WithoutAllBlocks(list, b, k);
    }

    /** sys_free of a block: to the tail of the free list, and the arena goes back when all its blocks are free. */
    method FreeSmall(ptr: nat, b: nat, k: nat)
      requires Valid(State()) && ptr in live && b == PageOf(ptr) && b in arenas && arenas[b].Small? && arenas[b].k == k
      modifies this, maps
      ensures Released(old(State()), State(), ptr) && Appends(old(free), free, k, ptr, old(arenas[b].cnt) + 1 == Per(k))
    {
      ghost var a := State();
      PutBlockKeeps(StoreOf(), ptr);
      free := free[k := free[k] + [ptr]];
      arenas := Recounted(arenas, b, arenas[b].cnt + 1);
      live := live - {ptr};
      ghost var h := State();
      PutDone(a, h, ptr);
      if arenas[b].cnt == Per(k) {
        GiveBack(b, k, ptr, a);
      }
      AppendsIs(a.store.free, h.store.free, free, k, ptr, h.store.arenas[b].cnt == Per(k));
    }

    /** An arena whose blocks are all free leaves the free list. */
    method DropArena(b: nat, k: nat)
      requires Loose(StoreOf()) && BusyBut(arenas, b) && b in arenas && arenas[b].Small? && arenas[b].k == k
      requires arenas[b].cnt == Per(k)
      modifies this`free, this`arenas, this`cover
      ensures StoreOf() == DropSmall(old(StoreOf()), b) && Inv(StoreOf())
    {
      DropSmallKeeps(StoreOf(), b);
      assert ListOk(arenas, free[k], k);
      RemoveBlocks(b, k);
      arenas := arenas - {b};
      cover := cover - {b};
    }

    /** And its page is unmapped. */
    method GiveBack(b: nat, k: nat, ptr: nat, ghost a: Kernel)
      requires RawKept(a, State()) && maps.Valid() && maps.n == a.n && mem == a.mem && |mem| == PG * maps.n
      requires maps.pte == a.pte
      requires live == a.store.live - {ptr} && cover == a.store.cover
      requires (forall v :: v in cover <==> v in maps.pte) && Loose(StoreOf()) && BusyBut(arenas, b)
      requires b in arenas && arenas[b].Small? && arenas[b].k == k && arenas[b].cnt == Per(k)
      modifies this`free, this`arenas, this`cover, maps
      ensures Released(a, State(), ptr) && free == old(free)[k := WithoutPage(old(free)[k], b)]
    {
      ghost var h := State();
      assert Covers(arenas, b, b) && b in maps.pte;
      DropArena(b, k);
      maps.MfreeOne(b);
      DropDone(a, h, State(), b, ptr);
    }

    /** sys_free. */
    method SysFree(ptr: nat)
      requires Valid(State()) && ptr in live
      modifies this, maps
      ensures Released(old(State()), State(), ptr)
      ensures match old(arenas)[PageOf(ptr)]
              case Small(k, cnt) => k < CLASSES && Appends(old(free), free, k, ptr, cnt + 1 == Per(k))
              case _ => free == old(free)
    {
      LiveInside(StoreOf(), ptr);
      var b := PageOf(ptr);
      assert IsLive(arenas, free, ptr);
      match arenas[b]
      case Large(pages) => FreeLarge(ptr, b, pages);
      case Small(k, _) => FreeSmall(ptr, b, k);
    }
  }

  /** What sys_free does: the pointer is live no more, nothing else has changed for the other owners. */
  ghost predicate Released(a: Kernel, b: Kernel, ptr: nat) {
    Valid(b) && b.n == a.n && RawKept(a, b) && b.mem == a.mem && b.store.live == a.store.live - {ptr}
  }

  /** Between `a` and popping a block of class k: perhaps one more arena, and a list that is not empty. */
  ghost predicate Ready(a: Kernel, h: Kernel, k: nat)
    requires k < CLASSES
  {
    && h.n == a.n && VirtualOk(h.vbits, h.pte, h.n) && FramesOk(h.pbits, h.pte, h.n) && |h.mem| == |a.mem|
    && (forall v :: v in h.store.cover <==> v in h.pte)
          && (forall v :: v in a.pte ==> v in h.pte && h.pte[v] == a.pte[v])
    && Middle(a.store, a.mem, h.store, h.mem, k)
  }

  ghost predicate Middle(a: Store, mem: seq<nat>, s: Store, mem': seq<nat>, k: nat)
    requires k < CLASSES
  {
    && Loose(s) && s.live == a.live && s.free[k] != [] && BusyBut(s.arenas, PageOf(s.free[k][0]))
    && LiveKept(a, mem, mem')
    && (forall p :: RawArena(a, p) <==> RawArena(s, p))
    && (forall p :: RawArena(a, p) && RawArena(s, p) ==> s.arenas[p] == a.arenas[p])
    && (forall c :: c in a.live ==>
          PageOf(c) in a.arenas && PageOf(c) in s.arenas && Granted(s.arenas, c) == Granted(a.arenas, c))
  }

  lemma AlreadyReady(a: Kernel, k: nat)
    requires Valid(a) && k < CLASSES
    ensures a.store.free[k] != [] ==> Ready(a, a, k)
  {
    forall c | c in a.store.live ensures PageOf(c) in a.store.arenas {
      LiveInside(a.store, c);
    }
  }

  /** A fresh arena is ready to give out its first block. */
  lemma FreshReady(a: Kernel, h: Kernel, b: nat, k: nat)
    requires Valid(a) && k < CLASSES && b < a.n && a.store.free[k] == [] && PG * b + PG <= |a.mem|
    requires h.n == a.n && VirtualOk(h.vbits, h.pte, h.n) && FramesOk(h.pbits, h.pte, h.n)
    requires Kept(h.pte, a.pte, b, 1) && b in h.pte && b !in a.pte
    requires h.store == NewSmall(a.store, b, k) && h.mem == Zeroed(a.mem, PG * b, PG)
    ensures Ready(a, h, k)
  {
    NewSmallLoose(a.store, b, k);
    ClearingPagesKeeps(a.store, a.mem, b, 1);
    FreshMiddle(a.store, b, k);
  }

  lemma FreshMiddle(s: Store, b: nat, k: nat)
    requires Inv(s) && k < CLASSES && b !in s.arenas && s.free[k] == []
    ensures var t := NewSmall(s, b, k);
            && t.free[k] != [] && BusyBut(t.arenas, PageOf(t.free[k][0]))
            && (forall p :: RawArena(s, p) <==> RawArena(t, p))
            && (forall p :: RawArena(s, p) && RawArena(t, p) ==> t.arenas[p] == s.arenas[p])
            && (forall c :: c in s.live ==>
                  PageOf(c) in s.arenas && PageOf(c) in t.arenas && Granted(t.arenas, c) == Granted(s.arenas, c))
  {
    var t := NewSmall(s, b, k);
    BlockRoundTrip(b, k, 0);
    assert t.free[k][0] == BlockAddr(b, k, 0);
    forall c | c in s.live ensures PageOf(c) in s.arenas {
      LiveInside(s, c);
    }
  }

  lemma ReadyHead(a: Kernel, h: Kernel, k: nat)
    requires Valid(a) && k < CLASSES && Ready(a, h, k)
    ensures h.store.free[k] != [] && h.store.free[k][0] + Size(k) <= |h.mem|
  {
    HeadCounts(h.store, k);
    var x := h.store.free[k][0];
    BlockOfAddr(x, k);
    assert Covers(h.store.arenas, PageOf(x), PageOf(x));
  }

  lemma SmallDone(a: Kernel, h: Kernel, b: Kernel, k: nat, size: nat, addr: nat)
    requires Valid(a) && k < CLASSES && 0 < size <= Size(k) && Ready(a, h, k)
    requires addr == h.store.free[k][0] && addr + Size(k) <= |h.mem|
    requires PageOf(addr) in h.store.arenas && h.store.arenas[PageOf(addr)].Small?
    requires h.store.arenas[PageOf(addr)].cnt > 0
    requires b == h.(store := TakeBlock(h.store, k, size), mem := Zeroed(h.mem, addr, Size(k)))
    ensures Allocated(a, b, addr, size)
  {
    var s, t := h.store, b.store;
    TakeBlockKeeps(s, k, size);
    HeadCounts(s, k);
    assert Granted(t.arenas, addr) == Size(k);
    ClearingBlockKeeps(a.store, t, h.mem, addr);
    SmallRaw(a, h, b, k, size);
  }

  lemma SmallRaw(a: Kernel, h: Kernel, b: Kernel, k: nat, size: nat)
    requires Valid(a) && k < CLASSES && Ready(a, h, k)
    requires var page := PageOf(h.store.free[k][0]);
             page in h.store.arenas && h.store.arenas[page].Small? && h.store.arenas[page].cnt > 0
    requires b.store == TakeBlock(h.store, k, size) && b.pte == h.pte
    ensures RawKept(a, b)
  {
    forall p ensures RawArena(b.store, p) <==> RawArena(h.store, p) {
    }
  }

  /** The outcome of malloc_page, with an offset into the first page. */
  function FromScan(found: Found, off: nat): Result {
    match found
    case At(start) => Pointer(PG * start + off)
    case Nowhere => Null
    case Stopped => Panic
  }

  /** sys_malloc gives out the head of the free list. On an empty list it is the first block of the page found,
      whose other blocks become the list. */
  ghost predicate Pops(was: seq<seq<nat>>, now: seq<seq<nat>>, k: nat, addr: nat, page: Found) {
    && k < |was| && k < CLASSES
    && if was[k] != [] then addr == was[k][0] && now == was[k := was[k][1..]]
       else page.At? && addr == 4096 * page.start + 12 && now == was[k := Blocks(page.start, k)[1..]]
  }

  /** sys_free puts the block at the end of the free list, so that blocks are given out again in the order they were
      freed; the last live block of an arena takes all of the arena's blocks with it. */
  ghost predicate Appends(was: seq<seq<nat>>, now: seq<seq<nat>>, k: nat, ptr: nat, last: bool) {
    k < |was| && now == was[k := if last then WithoutPage(was[k] + [ptr], PageOf(ptr)) else was[k] + [ptr]]
  }

  /** The address that sys_malloc returns, and the free lists then. */
  ghost predicate Placed(vbits: seq<bool>, was: seq<seq<nat>>, now: seq<seq<nat>>, size: nat, past: bool, addr: nat) {
    if size <= 1024 then Pops(was, now, ClassFor(size, 0), addr, ScanOf(vbits, past, 1))
    else
      var found := ScanOf(vbits, past, PagesFor(size));
      now == was && found.At? && addr == 4096 * found.start + 12
  }

  lemma PopsPlaced(vbits: seq<bool>, was: seq<seq<nat>>, ready: seq<seq<nat>>, now: seq<seq<nat>>, k: nat, size: nat,
                   past: bool, addr: nat)
    requires size <= 1024 && k == ClassFor(size, 0) && |was| == CLASSES == |ready|
    requires if was[k] != [] then ready == was
             else
               var found := ScanOf(vbits, past, 1);
               found.At? && ready == was[k := Blocks(found.start, k)]
    requires ready[k] != [] && addr == ready[k][0] && now == ready[k := ready[k][1..]]
    ensures Placed(vbits, was, now, size, past, addr)
  {
  }

  lemma AppendsIs(was: seq<seq<nat>>, put: seq<seq<nat>>, now: seq<seq<nat>>, k: nat, ptr: nat, last: bool)
    requires k < |was| && put == was[k := was[k] + [ptr]]
    requires now == if last then put[k := WithoutPage(put[k], PageOf(ptr))] else put
    ensures Appends(was, now, k, ptr, last)
  {
  }

  /** What a successful sys_malloc does. */
  ghost predicate Allocated(a: Kernel, b: Kernel, addr: nat, size: nat) {
    && Valid(b) && b.n == a.n && RawKept(a, b) && LiveKept(a.store, a.mem, b.mem)
    && NewAllocation(a.store, b.store, b.mem, addr, size)
  }

  lemma LargePages(a: Kernel, b: nat, ptr: nat)
    requires Valid(a) && ptr in a.store.live && b == PageOf(ptr) && b in a.store.arenas && a.store.arenas[b].Large?
    ensures ptr == PG * b + HEADER && a.store.arenas[b].pages >= 1
    ensures forall v :: b <= v < b + a.store.arenas[b].pages ==> v in a.pte
  {
    assert IsLive(a.store.arenas, a.store.free, ptr);
    forall v | b <= v < b + a.store.arenas[b].pages ensures v in a.pte {
      assert Covers(a.store.arenas, b, v);
    }
  }

  /** mfree_page has unmapped cnt pages from `start`; the allocator's data has lost them too. */
  lemma PagesRemoved(a: Kernel, b: Kernel, start: nat, cnt: nat)
    requires (forall v :: v in a.store.cover <==> v in a.pte) && Inv(b.store) && |b.mem| == PG * b.n
    requires VirtualOk(b.vbits, b.pte, b.n) && FramesOk(b.pbits, b.pte, b.n) && Kept(a.pte, b.pte, start, cnt)
    requires forall v :: v in b.store.cover <==> v in a.store.cover && !(start <= v < start + cnt)
    ensures Valid(b) && forall v :: v in b.pte ==> v in a.pte && b.pte[v] == a.pte[v]
  {
  }

  lemma LargeReleased(a: Kernel, b: Kernel, page: nat, ptr: nat)
    requires Valid(a) && ptr == PG * page + HEADER && page in a.store.arenas && a.store.arenas[page].Large?
    requires b.n == a.n && VirtualOk(b.vbits, b.pte, b.n) && FramesOk(b.pbits, b.pte, b.n) && b.mem == a.mem
    requires Kept(a.pte, b.pte, page, a.store.arenas[page].pages) && b.store.arenas == a.store.arenas - {page}
    requires b.store.free == a.store.free && b.store.live == a.store.live - {ptr}
    requires b.store.cover == UncoverRun(a.store.cover, page, a.store.arenas[page].pages)
    ensures Released(a, b, ptr)
  {
    DropLargeKeeps(a.store, page);
    PagesRemoved(a, b, page, a.store.arenas[page].pages);
    forall p ensures RawArena(a.store, p) <==> RawArena(b.store, p) {
    }
  }

  /** The block is on its free list again. */
  lemma PutDone(a: Kernel, h: Kernel, ptr: nat)
    requires Valid(a) && ptr in a.store.live && PageOf(ptr) in a.store.arenas && a.store.arenas[PageOf(ptr)].Small?
    requires h == a.(store := PutBlock(a.store, ptr))
    ensures Loose(h.store) && BusyBut(h.store.arenas, PageOf(ptr)) && RawKept(a, h)
    ensures h.store.arenas[PageOf(ptr)].cnt < Per(h.store.arenas[PageOf(ptr)].k) ==> Released(a, h, ptr)
    ensures h.store.arenas[PageOf(ptr)].cnt <= Per(h.store.arenas[PageOf(ptr)].k)
  {
    PutBlockKeeps(a.store, ptr);
    CountAtMost(h.store, PageOf(ptr));
    forall p ensures RawArena(a.store, p) <==> RawArena(h.store, p) {
    }
  }

  /** The arena of the last block to be freed is gone. */
  lemma DropDone(a: Kernel, h: Kernel, b: Kernel, page: nat, ptr: nat)
    requires RawKept(a, h) && h.n == a.n && h.mem == a.mem && h.pte == a.pte && h.store.live == a.store.live - {ptr}
    requires h.store.cover == a.store.cover
    requires (forall v :: v in h.store.cover <==> v in h.pte) && page in h.store.arenas && h.store.arenas[page].Small?
    requires Loose(h.store)
    requires b.n == h.n && VirtualOk(b.vbits, b.pte, b.n) && FramesOk(b.pbits, b.pte, b.n) && b.mem == h.mem
    requires |b.mem| == PG * b.n
    requires Kept(h.pte, b.pte, page, 1) && b.store == DropSmall(h.store, page) && Inv(b.store)
    ensures Released(a, b, ptr)
  {
    assert forall v :: v in b.store.cover <==> v in h.store.cover && v != page;
    PagesRemoved(h, b, page, 1);
    DropRaw(h, b, page);
    RawKeptTrans(a, h, b);
  }

  lemma DropRaw(h: Kernel, b: Kernel, page: nat)
    requires |h.store.free| == CLASSES && page in h.store.arenas && h.store.arenas[page].Small?
    requires h.store.arenas[page].k < CLASSES
    requires b.store == DropSmall(h.store, page) && forall v :: v in b.pte ==> v in h.pte && b.pte[v] == h.pte[v]
    ensures RawKept(h, b)
  {
    forall p ensures RawArena(h.store, p) <==> RawArena(b.store, p) {
    }
  }

  lemma RawKeptTrans(a: Kernel, h: Kernel, b: Kernel)
    requires RawKept(a, h) && RawKept(h, b) && h.pte == a.pte
    requires h.store.cover == a.store.cover
    ensures RawKept(a, b)
  {
    forall v ensures RawPage(a.store, v) ==> RawPage(h.store, v) {
      assert RawPage(a.store, v) ==> RawArena(h.store, a.store.cover[v]);
    }
  }

  /** What get_kernel_page does. */
  ghost predicate RawAdded(a: Kernel, b: Kernel, start: nat, cnt: nat) {
    && Valid(b) && b.n == a.n && b.store == NewRaw(a.store, start, cnt) && LiveKept(a.store, a.mem, b.mem)
    && (forall v :: v in a.pte ==> v in b.pte && b.pte[v] == a.pte[v])
    && forall i :: PG * start <= i < PG * start + PG * cnt ==> i < |b.mem| && b.mem[i] == 0
  }

  lemma RawDone(a: Kernel, b: Kernel, start: nat, cnt: nat)
    requires Valid(a) && cnt >= 1 && start + cnt <= a.n && PG * start + PG * cnt <= |a.mem|
    requires b.n == a.n && VirtualOk(b.vbits, b.pte, b.n) && FramesOk(b.pbits, b.pte, b.n)
    requires Kept(b.pte, a.pte, start, cnt) && forall v :: start <= v < start + cnt ==> v in b.pte && v !in a.pte
    requires b.store == NewRaw(a.store, start, cnt) && b.mem == Zeroed(a.mem, PG * start, PG * cnt)
    ensures RawAdded(a, b, start, cnt)
  {
    assert forall v :: start <= v < start + cnt ==> v !in a.store.cover;
    NewRawKeeps(a.store, start, cnt);
    ClearingPagesKeeps(a.store, a.mem, start, cnt);
    PagesAdded(a, b, start, cnt);
  }

  // ---------------------------------------------------------------- whole runs

  datatype Op = Malloc(size: nat, addr: nat) | Free(addr: nat)

  /** What sys_malloc, when it succeeds, and sys_free promise of a step from a valid state. */
  ghost predicate Does(a: Kernel, op: Op, b: Kernel) {
    Valid(a) ==>
      match op
      case Malloc(size, addr) => Allocated(a, b, addr, size)
      case Free(addr) => addr in a.store.live && Released(a, b, addr)
  }

  ghost predicate IsRun(run: seq<Kernel>, ops: seq<Op>)
    decreases |ops|
  {
    |run| == |ops| + 1 && (ops != [] ==> Does(run[0], ops[0], run[1]) && IsRun(run[1..], ops[1..]))
  }

  /** The live allocations as the callers count them. */
  function LiveAfter(live: map<nat, nat>, ops: seq<Op>): map<nat, nat>
    decreases |ops|
  {
    if ops == [] then live
    else match ops[0]
      case Malloc(size, addr) => LiveAfter(live[addr := size], ops[1..])
      case Free(addr) => LiveAfter(live - {addr}, ops[1..])
  }

  lemma RawPagesPersist(a: Kernel, b: Kernel, v: nat)
    requires Valid(a) && Valid(b) && RawKept(a, b) && RawPage(a.store, v)
    ensures RawPage(b.store, v) && v in a.pte && v in b.pte
  {
    var p := a.store.cover[v];
    assert Covers(a.store.arenas, p, v) && RawArena(a.store, p);
    assert RawArena(b.store, p) && Covers(b.store.arenas, p, v);
  }

  lemma RawKeptOver(a: Kernel, b: Kernel, c: Kernel)
    requires Valid(a) && Valid(b) && Valid(c) && RawKept(a, b) && RawKept(b, c)
    ensures RawKept(a, c)
  {
    forall v | RawPage(a.store, v) && v in a.pte && v in c.pte ensures c.pte[v] == a.pte[v] {
      RawPagesPersist(a, b, v);
    }
  }

  /** Every run of mallocs and frees keeps the invariant, and what is live is what was not freed. */
  lemma {:induction false} RunsKeep(run: seq<Kernel>, ops: seq<Op>)
    requires IsRun(run, ops) && Valid(run[0])
    ensures Valid(run[|ops|]) && run[|ops|].n == run[0].n && RawKept(run[0], run[|ops|])
    ensures run[|ops|].store.live == LiveAfter(run[0].store.live, ops)
    decreases |ops|
  {
    if ops != [] {
      RunsKeep(run[1..], ops[1..]);
      RawKeptOver(run[0], run[1], run[|ops|]);
    }
  }

  /** A run that starts with nothing live and frees all it allocates, in whatever order, restores both page maps
      and every page table entry and empties the seven free lists. */
  lemma FullReclamation(run: seq<Kernel>, ops: seq<Op>)
    requires IsRun(run, ops) && Valid(run[0]) && run[0].store.live == map[] && LiveAfter(map[], ops) == map[]
    ensures var z := run[|ops|];
            && z.vbits == run[0].vbits && z.pbits == run[0].pbits && z.pte == run[0].pte
            && z.store.free == seq(CLASSES, _ => [])
  {
    RunsKeep(run, ops);
    Reclaimed(run[0], run[|ops|]);
  }
}
