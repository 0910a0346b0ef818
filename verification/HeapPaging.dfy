/** lib/kernel/memory.c: the kernel heap's page table entries in physical memory. The heap starts 1 MB above 3 GB;
    its frames are counted from the start of the kernel's pool. */
module HeapPaging {
  import Bitmap
  import opened Paging
  import Pages

  const K_HEAP_START := 0xc010_0000

  function HeapAddr(v: nat): nat {
    K_HEAP_START + 4096 * v
  }

  /** The tables of the kernel half exist and are different frames, none of them the directory. */
  ghost predicate TablesApart(m: Phys, d: nat) {
    && SelfMapped(m, d)
    && (forall i :: KernelHalf(i) ==>
          Present(m[d][i]) && FrameOf(m[d][i]) in m && |m[FrameOf(m[d][i])]| == 1024 && FrameOf(m[d][i]) != d)
    && (forall i, j :: KernelHalf(i) && KernelHalf(j) && i != j ==> FrameOf(m[d][i]) != FrameOf(m[d][j]))
  }

  lemma HeapIndices(v: nat)
    requires v < 2048
    ensures HeapAddr(v) < MAX32 && HeapAddr(v) % 4096 == 0 && HeapAddr(v) / 4096 == 0xc0100 + v
    ensures KernelHalf(PdeIdx(HeapAddr(v)))
  {
    assert PdeIdx(HeapAddr(v)) == HeapAddr(v) / 4096 / 1024;
  }

  lemma HeapMappable(m: Phys, d: nat, v: nat)
    requires TablesApart(m, d) && v < 2048
    ensures HeapAddr(v) < MAX32 && HeapAddr(v) % 4096 == 0 && Mappable(m, d, HeapAddr(v)) && HasTable(m, d, HeapAddr(v))
  {
    HeapIndices(v);
  }

  /** The page directory translates exactly the pages of pte, each to its frame. */
  ghost predicate HeapMapped(m: Phys, d: nat, pte: map<nat, nat>, n: nat, base: nat)
    requires Directory(m, d) && n <= 2048
  {
    forall v :: 0 <= v < n ==> PageIs(m, d, pte, v, base)
  }

  ghost predicate PageIs(m: Phys, d: nat, pte: map<nat, nat>, v: nat, base: nat)
    requires Directory(m, d)
  {
    HeapAddr(v) < MAX32 && Translate(m, d, HeapAddr(v)) == if v in pte then At(4096 * (base + pte[v])) else Fault
  }

  /** The entries are determined by physical memory. */
  lemma EntriesUnique(m: Phys, d: nat, a: map<nat, nat>, b: map<nat, nat>, n: nat, base: nat)
    requires Directory(m, d) && n <= 2048 && HeapMapped(m, d, a, n, base) && HeapMapped(m, d, b, n, base)
    requires forall v :: v in a || v in b ==> v < n
    ensures a == b
  {
    forall v | 0 <= v < n ensures (v in a <==> v in b) && (v in a ==> a[v] == b[v]) {
      assert PageIs(m, d, a, v, base) && PageIs(m, d, b, v, base);
    }
  }

  /** Every byte of a heap page lies at the same place in the page's frame. */
  lemma HeapByte(m: Phys, d: nat, pte: map<nat, nat>, n: nat, base: nat, v: nat, off: nat)
    requires TablesApart(m, d) && n <= 2048 && HeapMapped(m, d, pte, n, base) && v < n && off < 4096
    ensures HeapAddr(v) + off < MAX32
    ensures Translate(m, d, HeapAddr(v) + off) == if v in pte then At(4096 * (base + pte[v]) + off) else Fault
  {
    HeapIndices(v);
    assert PageIs(m, d, pte, v, base);
    assert (HeapAddr(v) + off) / 4096 == HeapAddr(v) / 4096 && (HeapAddr(v) + off) % 4096 == off;
    SameIndices(HeapAddr(v) + off, HeapAddr(v));
  }

  /** Different heap pages have different table entries. */
  lemma EntriesApart(m: Phys, d: nat, v: nat, w: nat)
    requires TablesApart(m, d) && v < 2048 && w < 2048
    ensures HeapAddr(v) < MAX32 && HeapAddr(w) < MAX32 && (SameEntry(m, d, HeapAddr(v), HeapAddr(w)) ==> v == w)
  {
    HeapIndices(v);
    HeapIndices(w);
    if SameEntry(m, d, HeapAddr(v), HeapAddr(w)) {
      assert PdeIdx(HeapAddr(v)) == PdeIdx(HeapAddr(w));
      SameIndices(HeapAddr(v), HeapAddr(w));
    }
  }

  lemma TablesStay(m: Phys, d: nat, v: nat, w: nat)
    requires TablesApart(m, d) && v < 2048
    ensures Mappable(m, d, HeapAddr(v)) && HasTable(m, d, HeapAddr(v))
    ensures TablesApart(SetEntry(m, TableOf(m, d, HeapAddr(v)), PteIdx(HeapAddr(v)), w), d)
  {
    HeapMappable(m, d, v);
  }

  /** page_table_add of a heap page gives pte that page's entry and changes no other. */
  lemma HeapAdd(m: Phys, d: nat, pte: map<nat, nat>, n: nat, base: nat, v: nat, p: nat, f: nat)
    requires TablesApart(m, d) && n <= 2048 && HeapMapped(m, d, pte, n, base) && v < n && v !in pte
    ensures HeapAddr(v) < MAX32 && Mappable(m, d, HeapAddr(v)) && HasTable(m, d, HeapAddr(v))
    ensures Translate(m, d, HeapAddr(v)) == Fault
    ensures var m' := Added(m, d, HeapAddr(v), base + p, f);
            TablesApart(m', d) && HeapMapped(m', d, pte[v := p], n, base)
  {
    HeapMappable(m, d, v);
    assert PageIs(m, d, pte, v, base);
    TablesStay(m, d, v, Entry(base + p));
    var m', pte' := Added(m, d, HeapAddr(v), base + p, f), pte[v := p];
    forall w | 0 <= w < n ensures PageIs(m', d, pte', w, base) {
      assert PageIs(m, d, pte, w, base);
      EntriesApart(m, d, v, w);
      AddChanges(m, d, HeapAddr(v), base + p, f, HeapAddr(w));
      if w == v { AddMapsHere(m, d, HeapAddr(v), base + p, f); }
    }
  }

  lemma AddMapsHere(m: Phys, d: nat, v: nat, p: nat, f: nat)
    requires Mappable(m, d, v) && HasTable(m, d, v) && v % 4096 == 0
    ensures var n := Added(m, d, v, p, f); Directory(n, d) && Translate(n, d, v) == At(4096 * p)
  {
  }

  /** page_table_pte_remove of a heap page takes that page's entry away and changes no other. */
  lemma HeapRemove(m: Phys, d: nat, pte: map<nat, nat>, n: nat, base: nat, v: nat)
    requires TablesApart(m, d) && n <= 2048 && HeapMapped(m, d, pte, n, base) && v < n && v in pte
    ensures HeapAddr(v) < MAX32 && Mappable(m, d, HeapAddr(v)) && HasTable(m, d, HeapAddr(v))
    ensures Translate(m, d, HeapAddr(v)) == At(4096 * (base + pte[v]))
    ensures var m' := Removed(m, d, HeapAddr(v)); TablesApart(m', d) && HeapMapped(m', d, pte - {v}, n, base)
  {
    HeapMappable(m, d, v);
    assert PageIs(m, d, pte, v, base);
    var t := TableOf(m, d, HeapAddr(v));
    TablesStay(m, d, v, m[t][PteIdx(HeapAddr(v))] / 2 * 2);
    var m', pte' := Removed(m, d, HeapAddr(v)), pte - {v};
    forall w | 0 <= w < n ensures PageIs(m', d, pte', w, base) {
      assert PageIs(m, d, pte, w, base);
      EntriesApart(m, d, v, w);
      RemoveChanges(m, d, HeapAddr(v), HeapAddr(w));
    }
  }

  /** The boot loader's tables are apart, and while their entries for the heap are clear no heap page is mapped. */
  lemma BootIsReady(m: Phys, n: nat, base: nat)
    requires 256 in m && m[256] == BootDirectory() && n <= 2048
    requires forall t :: 257 <= t < 512 ==> t in m && |m[t]| == 1024
    requires forall v :: 0 <= v < n ==> !Present(m[257 + PdeIdx(HeapAddr(v)) - 768][PteIdx(HeapAddr(v))])
    ensures TablesApart(m, 256) && HeapMapped(m, 256, map[], n, base)
  {
    assert BootDirectory()[1023] == Entry(256);
    assert SelfMapped(m, 256);
    assert forall i :: KernelHalf(i) ==> m[256][i] == Entry(257 + (i - 768));
    forall v | 0 <= v < n ensures PageIs(m, 256, map[], v, base) {
      HeapIndices(v);
    }
  }

  /** One turn of malloc_page's loop: palloc and page_table_add, which never finds the page mapped. */
  method MapHeapPage(maps: Pages.PageMaps, mmu: Mmu, base: nat, v: nat) returns (ok: bool)
    requires Pages.FramesOk(maps.pbits, maps.pte, maps.n) && v < Pages.Reach(maps.n) && v !in maps.pte
    requires TablesApart(mmu.phys, mmu.cr3) && HeapMapped(mmu.phys, mmu.cr3, maps.pte, Pages.Reach(maps.n), base)
    modifies maps`pbits, maps`pte, mmu`phys
    ensures ok && Pages.FramesOk(maps.pbits, maps.pte, maps.n)
    ensures var p := Bitmap.LowestClear(old(maps.pbits));
            p < |old(maps.pbits)| && maps.pte == old(maps.pte)[v := p] && maps.pbits == old(maps.pbits)[p := true]
    ensures TablesApart(mmu.phys, mmu.cr3) && HeapMapped(mmu.phys, mmu.cr3, maps.pte, Pages.Reach(maps.n), base)
  {
    ghost var pte := maps.pte;
    var p := maps.MapPage(v);
    HeapAdd(mmu.phys, mmu.cr3, pte, Pages.Reach(maps.n), base, v, p, 0);
    ok := mmu.PageTableAdd(HeapAddr(v), base + p, 0);
  }

  /** One turn of mfree_page's loop: the frame whose bit pfree clears is taken from the table entry, and it is the
      one that the page had. */
  method UnmapHeapPage(maps: Pages.PageMaps, mmu: Mmu, base: nat, v: nat) returns (frame: nat)
    requires Pages.FramesOk(maps.pbits, maps.pte, maps.n) && v in maps.pte
    requires TablesApart(mmu.phys, mmu.cr3) && HeapMapped(mmu.phys, mmu.cr3, maps.pte, Pages.Reach(maps.n), base)
    modifies maps`pbits, maps`pte, mmu`phys
    ensures Pages.FramesOk(maps.pbits, maps.pte, maps.n) && maps.pte == old(maps.pte) - {v}
    ensures frame == old(maps.pte)[v] && maps.pbits == old(maps.pbits)[frame := false]
    ensures TablesApart(mmu.phys, mmu.cr3) && HeapMapped(mmu.phys, mmu.cr3, maps.pte, Pages.Reach(maps.n), base)
  {
    HeapRemove(mmu.phys, mmu.cr3, maps.pte, Pages.Reach(maps.n), base, v);
    var addr := mmu.AddrV2P(HeapAddr(v));
    frame := addr / 4096 - base;
    maps.UnmapPage(v);
    mmu.PageTablePteRemove(HeapAddr(v));
  }

  // ---------------------------------------------------------------- malloc_page and mfree_page on both

  /** Maps and page tables in agreement. */
  ghost predicate Agree(maps: Pages.PageMaps, mmu: Mmu, base: nat)
    reads maps, mmu
  {
    TablesApart(mmu.phys, mmu.cr3) && HeapMapped(mmu.phys, mmu.cr3, maps.pte, Pages.Reach(maps.n), base)
  }

  method MapHeapNext(maps: Pages.PageMaps, mmu: Mmu, base: nat, start: nat, i: nat, ghost bits: seq<bool>,
                     ghost was: map<nat, nat>)
    requires Pages.FramesOk(maps.pbits, maps.pte, maps.n) && start + i < Pages.Reach(maps.n) && start + i !in was
    requires Pages.Kept(maps.pte, was, start, i) && Pages.InOrder(bits, maps.pbits, maps.pte, start, i)
    requires Agree(maps, mmu, base)
    modifies maps`pbits, maps`pte, mmu`phys
    ensures Pages.FramesOk(maps.pbits, maps.pte, maps.n) && Agree(maps, mmu, base)
    ensures Pages.Kept(maps.pte, was, start, i + 1) && Pages.InOrder(bits, maps.pbits, maps.pte, start, i + 1)
  {
    ghost var b, a := maps.pbits, maps.pte;
    var ok := MapHeapPage(maps, mmu, base, start + i);
    Pages.OrderMore(bits, b, a, start, i);
    Pages.KeptMore(was, a, maps.pte, start, i);
  }

  /** The loop of malloc_page. */
  method MapHeapPages(maps: Pages.PageMaps, mmu: Mmu, base: nat, start: nat, cnt: nat)
    requires Pages.FramesOk(maps.pbits, maps.pte, maps.n) && start + cnt <= Pages.Reach(maps.n)
    requires Agree(maps, mmu, base) && forall v :: start <= v < start + cnt ==> v !in maps.pte
    modifies maps`pbits, maps`pte, mmu`phys
    ensures Pages.FramesOk(maps.pbits, maps.pte, maps.n) && Pages.Kept(maps.pte, old(maps.pte), start, cnt)
    ensures Agree(maps, mmu, base) && Pages.InOrder(old(maps.pbits), maps.pbits, maps.pte, start, cnt)
  {
    var i := 0;
    while i < cnt
      invariant i <= cnt && Pages.FramesOk(maps.pbits, maps.pte, maps.n) && Agree(maps, mmu, base)
      invariant Pages.Kept(maps.pte, old(maps.pte), start, i)
      invariant Pages.InOrder(old(maps.pbits), maps.pbits, maps.pte, start, i)
    {
      MapHeapNext(maps, mmu, base, start, i, old(maps.pbits), old(maps.pte));
      i := i + 1;
    }
  }

  /** malloc_page with its page tables: the pages that the scan finds are mapped, in the maps and for the
      processor, or nothing has changed. */
  method MallocHeap(maps: Pages.PageMaps, mmu: Mmu, base: nat, cnt: nat, past: bool) returns (found: Bitmap.Found)
    requires maps.Valid() && cnt >= 1 && Agree(maps, mmu, base)
    requires var f := Bitmap.ScanOf(maps.vbits, past, cnt); f.At? ==> f.start + cnt <= Pages.Reach(maps.n)
    modifies maps`vbits, maps`pbits, maps`pte, mmu`phys
    ensures maps.Valid() && Agree(maps, mmu, base) && found == Bitmap.ScanOf(old(maps.vbits), past, cnt)
    ensures !found.At? ==> maps.pte == old(maps.pte) && mmu.phys == old(mmu.phys)
    ensures found.At? ==>
              found.start + cnt <= Pages.Reach(maps.n) && Pages.Kept(maps.pte, old(maps.pte), found.start, cnt)
    ensures found.At? ==> Pages.InOrder(old(maps.pbits), maps.pbits, maps.pte, found.start, cnt)
    ensures found.At? ==> forall v :: found.start <= v < found.start + cnt ==> v in maps.pte && v !in old(maps.pte)
  {
    found := maps.VadderGet(cnt, past);
    if found.At? {
      Pages.ScanInside(old(maps.vbits), past, cnt);
      MapHeapPages(maps, mmu, base, found.start, cnt);
    }
  }

  /** The loop of mfree_page. */
  method UnmapHeapPages(maps: Pages.PageMaps, mmu: Mmu, base: nat, page: nat, cnt: nat)
    requires Pages.FramesOk(maps.pbits, maps.pte, maps.n) && Agree(maps, mmu, base)
    requires forall v :: page <= v < page + cnt ==> v in maps.pte
    modifies maps`pbits, maps`pte, mmu`phys
    ensures Pages.FramesOk(maps.pbits, maps.pte, maps.n) && Pages.Kept(old(maps.pte), maps.pte, page, cnt)
    ensures Agree(maps, mmu, base)
  {
    var i := 0;
    while i < cnt
      invariant i <= cnt && Pages.FramesOk(maps.pbits, maps.pte, maps.n) && Agree(maps, mmu, base)
      invariant Pages.Kept(old(maps.pte), maps.pte, page, i)
    {
      var frame := UnmapHeapPage(maps, mmu, base, page + i);
      i := i + 1;
    }
  }

  /** mfree_page with its page tables: exactly these pages fault afterwards. */
  method MfreeHeap(maps: Pages.PageMaps, mmu: Mmu, base: nat, page: nat, cnt: nat)
    requires maps.Valid() && cnt >= 1 && Agree(maps, mmu, base) && forall v :: page <= v < page + cnt ==> v in maps.pte
    modifies maps`vbits, maps`pbits, maps`pte, mmu`phys
    ensures maps.Valid() && Agree(maps, mmu, base) && Pages.Kept(old(maps.pte), maps.pte, page, cnt)
  {
    assert page + cnt - 1 in maps.pte;
    UnmapHeapPages(maps, mmu, base, page, cnt);
    maps.VaddrRemove(page, cnt);
  }
}
