/** lib/kernel/memory.c and userprog/process.c: page tables reached through the directory's own last entry, and
    the kernel half that all directories share. Translation is that of 32-bit paging with 4 KB pages (Intel SDM
    volume 3A, section 4.3). */
module Paging {

  const MAX32 := 0x1_0000_0000

  /** Physical memory: page frames of 1024 words. */
  type Phys = map<nat, seq<nat>>

  datatype Place = At(addr: nat) | Fault

  predicate Present(entry: nat) {
    entry % 2 == 1
  }

  function FrameOf(entry: nat): nat {
    entry / 4096
  }

  /** A present, writable entry for user and kernel. */
  function Entry(frame: nat): (e: nat)
    ensures Present(e) && FrameOf(e) == frame && e % 4096 == 7
  {
    4096 * frame + 7
  }

  function PdeIdx(v: nat): nat {
    v / 0x40_0000
  }

  function PteIdx(v: nat): (i: nat)
    ensures i < 1024
  {
    v / 4096 % 1024
  }

  predicate Directory(m: Phys, d: nat) {
    d in m && |m[d]| == 1024
  }

  /** The page table of v, if the directory has one. */
  predicate HasTable(m: Phys, d: nat, v: nat)
    requires Directory(m, d) && v < MAX32
  {
    Present(m[d][PdeIdx(v)]) && FrameOf(m[d][PdeIdx(v)]) in m && |m[FrameOf(m[d][PdeIdx(v)])]| == 1024
  }

  function TableOf(m: Phys, d: nat, v: nat): nat
    requires Directory(m, d) && v < MAX32
  {
    FrameOf(m[d][PdeIdx(v)])
  }

  /** The processor's walk of directory d. */
  function Translate(m: Phys, d: nat, v: nat): Place
    requires Directory(m, d) && v < MAX32
  {
    if HasTable(m, d, v) && Present(m[TableOf(m, d, v)][PteIdx(v)]) then
      At(4096 * FrameOf(m[TableOf(m, d, v)][PteIdx(v)]) + v % 4096)
    else Fault
  }

  // ---------------------------------------------------------------- the addresses of entries

  /** get_pde_ptr and get_pte_ptr; the sums do not exceed 32 bits. */
  function PdePtr(v: nat): nat {
    0xffc0_0000 + 0x3f_f000 + PdeIdx(v) * 4
  }

  function PtePtr(v: nat): nat {
    0xffc0_0000 + v / 0x40_0000 * 0x40_0000 / 1024 + PteIdx(v) * 4
  }

  lemma PtrsInRange(v: nat)
    requires v < MAX32
    ensures PtePtr(v) == 0xffc0_0000 + 4 * (v / 4096) && PtePtr(v) + 4 <= MAX32 && PtePtr(v) % 4 == 0
    ensures PdePtr(v) == PtePtr(PtePtr(v)) && PdePtr(v) + 4 <= MAX32 && PdePtr(v) % 4 == 0
    ensures PdeIdx(PtePtr(v)) == 1023 && PteIdx(PtePtr(v)) == PdeIdx(v) && PtePtr(v) % 4096 == 4 * PteIdx(v)
    ensures PdeIdx(PdePtr(v)) == 1023 && PteIdx(PdePtr(v)) == 1023 && PdePtr(v) % 4096 == 4 * PdeIdx(v)
  {
    var page := v / 4096;
    assert v / 0x40_0000 == page / 1024;
    assert v / 0x40_0000 * 0x40_0000 / 1024 == page / 1024 * 4096;
    assert PteIdx(v) == page % 1024;
    assert PtePtr(v) == 0xffc0_0000 + 4 * page;
    assert PtePtr(v) / 4096 == 0xffc00 + page / 1024;
  }

  /** Different pages have different entry addresses. */
  lemma PtePtrInjective(v: nat, w: nat)
    requires v < MAX32 && w < MAX32
    ensures PtePtr(v) == PtePtr(w) <==> v / 4096 == w / 4096
  {
    PtrsInRange(v);
    PtrsInRange(w);
  }

  predicate SelfMapped(m: Phys, d: nat) {
    Directory(m, d) && Present(m[d][1023]) && FrameOf(m[d][1023]) == d
  }

  /** Through a directory whose last entry is itself, get_pde_ptr(v) is v's directory entry and get_pte_ptr(v),
      when v has a page table, is v's table entry. */
  lemma PtrsReachEntries(m: Phys, d: nat, v: nat)
    requires SelfMapped(m, d) && v < MAX32
    ensures PdePtr(v) < MAX32 && PtePtr(v) < MAX32
    ensures Translate(m, d, PdePtr(v)) == At(4096 * d + 4 * PdeIdx(v))
    ensures HasTable(m, d, v) ==> Translate(m, d, PtePtr(v)) == At(4096 * TableOf(m, d, v) + 4 * PteIdx(v))
    ensures !Present(m[d][PdeIdx(v)]) ==> Translate(m, d, PtePtr(v)) == Fault
  {
    PtrsInRange(v);
  }

  // ---------------------------------------------------------------- adding and removing a mapping

  function Word(m: Phys, addr: nat): nat
    requires addr / 4096 in m && |m[addr / 4096]| == 1024
  {
    m[addr / 4096][addr % 4096 / 4]
  }

  function WithWord(m: Phys, addr: nat, w: nat): Phys
    requires addr / 4096 in m && |m[addr / 4096]| == 1024
  {
    SetEntry(m, addr / 4096, addr % 4096 / 4, w)
  }

  function SetEntry(m: Phys, frame: nat, i: nat, w: nat): Phys
    requires frame in m && |m[frame]| == 1024 && i < 1024
  {
    var words: seq<nat> := m[frame][i := w];
    m[frame := words]
  }

  function Zeros(): (s: seq<nat>)
    ensures |s| == 1024
  {
    seq(1024, _ => 0)
  }

  /** Memory after page_table_add of page v to frame p; `f` is the frame that palloc gives for a new table. */
  function Added(m: Phys, d: nat, v: nat, p: nat, f: nat): Phys
    requires Directory(m, d) && v < MAX32 && (Present(m[d][PdeIdx(v)]) ==> HasTable(m, d, v))
  {
    if Present(m[d][PdeIdx(v)]) then SetEntry(m, TableOf(m, d, v), PteIdx(v), Entry(p))
    else SetEntry(SetEntry(m, d, PdeIdx(v), Entry(f))[f := Zeros()], f, PteIdx(v), Entry(p))
  }

  /** A page of the lower 1023 directory entries whose table, if it has one, is a frame other than the directory. */
  ghost predicate Mappable(m: Phys, d: nat, v: nat) {
    && SelfMapped(m, d) && v < MAX32 && PdeIdx(v) < 1023
    && (Present(m[d][PdeIdx(v)]) ==> HasTable(m, d, v) && TableOf(m, d, v) != d)
  }

  /** No directory entry uses frame f yet. */
  ghost predicate Unused(m: Phys, d: nat, f: nat) {
    f in m && f != d && Directory(m, d) && forall i :: 0 <= i < 1024 && Present(m[d][i]) ==> FrameOf(m[d][i]) != f
  }

  /** create_page_dir: entries 768 and up of the current directory in a cleared frame, whose last entry is itself. */
  function NewDirectory(m: Phys, d: nat, f: nat): seq<nat>
    requires Directory(m, d)
  {
    seq(1024, i requires 0 <= i < 1024 => if i == 1023 then Entry(f) else if i >= 768 then m[d][i] else 0)
  }

  /** The directory while the kernel's entries up to `to` have been copied. */
  function Copied(m: Phys, d: nat, to: nat): (s: seq<nat>)
    requires Directory(m, d)
    ensures |s| == 1024
  {
    seq(1024, i requires 0 <= i < 1024 => if 768 <= i < to then m[d][i] else 0)
  }

  /** The words of the current directory in the last page, and those of the new one in its own page; writing the
      new page does not disturb either. */
  lemma CopyAddresses(m: Phys, d: nat, v: nat, f: nat, words: seq<nat>, i: nat)
    requires Mappable(m, d, v) && HasTable(m, d, v) && v % 4096 == 0 && Translate(m, d, v) == At(4096 * f)
    requires Unused(m, d, f)
    requires |words| == 1024 && i < 1024
    ensures var n := m[f := words];
            && SelfMapped(n, d) && v + 4 * i < MAX32
            && Translate(n, d, 0xffff_f000 + 4 * i) == At(4096 * d + 4 * i)
            && Translate(n, d, v + 4 * i) == At(4096 * f + 4 * i)
  {
    var x, y := 0xffff_f000 + 4 * i, v + 4 * i;
    assert x / 4096 == 0xfffff && x % 4096 == 4 * i && PdeIdx(x) == 1023 && PteIdx(x) == 1023;
    assert y / 4096 == v / 4096 && y % 4096 == 4 * i;
    SameIndices(y, v);
  }

  /** The processor with directory cr3. */
  class Mmu {
    var phys: Phys
    var cr3: nat

    /** A word read or written through the translation. */
    method Load(v: nat) returns (w: nat)
      requires Directory(phys, cr3) && v < MAX32 && Translate(phys, cr3, v).At?
      requires var a := Translate(phys, cr3, v).addr; a / 4096 in phys && |phys[a / 4096]| == 1024
      ensures w == Word(phys, Translate(phys, cr3, v).addr)
    {
      w := Word(phys, Translate(phys, cr3, v).addr);
    }

    method Store(v: nat, w: nat)
      requires Directory(phys, cr3) && v < MAX32 && Translate(phys, cr3, v).At?
      requires var a := Translate(phys, cr3, v).addr; a / 4096 in phys && |phys[a / 4096]| == 1024
      modifies this`phys
      ensures phys == WithWord(old(phys), Translate(old(phys), cr3, v).addr, w)
    {
      phys := WithWord(phys, Translate(phys, cr3, v).addr, w);
    }

    /** memset of the page that v lies in. */
    method ClearPage(v: nat)
      requires Directory(phys, cr3) && v < MAX32 && Translate(phys, cr3, v / 4096 * 4096).At?
      modifies this`phys
      ensures phys == old(phys)[Translate(old(phys), cr3, v / 4096 * 4096).addr / 4096 := Zeros()]
    {
      phys := phys[Translate(phys, cr3, v / 4096 * 4096).addr / 4096 := Zeros()];
    }

    /** page_table_add, all of whose accesses go through the directory's last entry; it stops when the page is
        mapped already. */
    method PageTableAdd(v: nat, p: nat, f: nat) returns (ok: bool)
      requires Mappable(phys, cr3, v) && (Present(phys[cr3][PdeIdx(v)]) || Unused(phys, cr3, f))
      modifies this`phys
      ensures ok <==> Translate(old(phys), cr3, v) == Fault
      ensures !ok ==> phys == old(phys)
      ensures ok ==> phys == Added(old(phys), cr3, v, p, f)
    {
      PtrsReachEntries(phys, cr3, v);
      PtrsInRange(v);
      var pde := Load(PdePtr(v));
      ok := true;
      if Present(pde) {
        var pte := Load(PtePtr(v));
        if Present(pte) { ok := false; } else { Store(PtePtr(v), Entry(p)); }
      } else {
        AddTable(v, f);
        PtrsReachEntries(phys, cr3, v);
        var pte := Load(PtePtr(v));
        assert !Present(pte);
        Store(PtePtr(v), Entry(p));
      }
    }

    /** The directory entry for a new page table, which is cleared through its window. */
    method AddTable(v: nat, f: nat)
      requires Mappable(phys, cr3, v) && !Present(phys[cr3][PdeIdx(v)]) && Unused(phys, cr3, f)
      modifies this`phys
      ensures phys == SetEntry(old(phys), cr3, PdeIdx(v), Entry(f))[f := Zeros()]
    {
      PtrsReachEntries(phys, cr3, v);
      PtrsInRange(v);
      Store(PdePtr(v), Entry(f));
      NewTable(old(phys), cr3, v, f);
      ClearPage(PtePtr(v));
    }

    /** addr_v2p of an address whose page has a table. */
    method AddrV2P(v: nat) returns (addr: nat)
      requires SelfMapped(phys, cr3) && v < MAX32 && HasTable(phys, cr3, v)
      ensures Translate(phys, cr3, v).At? ==> At(addr) == Translate(phys, cr3, v)
    {
      PtrsReachEntries(phys, cr3, v);
      PtrsInRange(v);
      var pte := Load(PtePtr(v));
      addr := pte / 4096 * 4096 + v % 4096;
    }

    /** create_page_dir in the cleared kernel page v: copy the kernel's entries, then point the last entry at the
        page's own frame. */
    method CreatePageDir(v: nat, ghost f: nat)
      requires Mappable(phys, cr3, v) && HasTable(phys, cr3, v) && v % 4096 == 0
      requires Translate(phys, cr3, v) == At(4096 * f) && Unused(phys, cr3, f) && phys[f] == Zeros()
      modifies this`phys
      ensures phys == old(phys)[f := NewDirectory(old(phys), cr3, f)] && SelfMapped(phys, f)
      ensures forall w :: 0 <= w < 0xc000_0000 ==> Translate(phys, f, w) == Fault
      ensures forall i :: 0 <= i < 1023 ==> phys[f][i] == if i < 768 then 0 else old(phys)[cr3][i]
    {
      ghost var m := phys;
      assert Copied(m, cr3, 768) == Zeros();
      var i := 768;
      while i < 1024
        invariant 768 <= i <= 1024 && phys == m[f := Copied(m, cr3, i)]
      {
        CopyEntry(v, f, i, m);
        i := i + 1;
      }
      FinishDir(v, f, m);
    }

    method CopyEntry(v: nat, ghost f: nat, i: nat, ghost m: Phys)
      requires Mappable(m, cr3, v) && HasTable(m, cr3, v) && v % 4096 == 0 && Translate(m, cr3, v) == At(4096 * f)
      requires Unused(m, cr3, f)
      requires 768 <= i < 1024 && phys == m[f := Copied(m, cr3, i)]
      modifies this`phys
      ensures phys == m[f := Copied(m, cr3, i + 1)]
    {
      CopyAddresses(m, cr3, v, f, Copied(m, cr3, i), i);
      var w := Load(0xffff_f000 + 4 * i);
      assert Copied(m, cr3, i)[i := w] == Copied(m, cr3, i + 1);
      Store(v + 4 * i, w);
    }

    method FinishDir(v: nat, ghost f: nat, ghost m: Phys)
      requires Mappable(m, cr3, v) && HasTable(m, cr3, v) && v % 4096 == 0 && Translate(m, cr3, v) == At(4096 * f)
      requires Unused(m, cr3, f)
      requires phys == m[f := Copied(m, cr3, 1024)]
      modifies this`phys
      ensures phys == m[f := NewDirectory(m, cr3, f)]
    {
      CopyAddresses(m, cr3, v, f, Copied(m, cr3, 1024), 0);
      var addr := AddrV2P(v);
      SelfEntry(v, f, addr, m);
    }

    method SelfEntry(v: nat, ghost f: nat, addr: nat, ghost m: Phys)
      requires Mappable(m, cr3, v) && HasTable(m, cr3, v) && v % 4096 == 0 && Translate(m, cr3, v) == At(4096 * f)
      requires Unused(m, cr3, f)
      requires phys == m[f := Copied(m, cr3, 1024)] && addr == 4096 * f
      modifies this`phys
      ensures phys == m[f := NewDirectory(m, cr3, f)]
    {
      CopyAddresses(m, cr3, v, f, Copied(m, cr3, 1024), 1023);
      assert Copied(m, cr3, 1024)[1023 := Entry(f)] == NewDirectory(m, cr3, f);
      Store(v + 4 * 1023, Entry(addr / 4096));
    }

    /** page_table_pte_remove: bit 0 of the entry is cleared. */
    method PageTablePteRemove(v: nat)
      requires Mappable(phys, cr3, v) && HasTable(phys, cr3, v)
      modifies this`phys
      ensures phys == Removed(old(phys), cr3, v)
    {
      PtrsReachEntries(phys, cr3, v);
      PtrsInRange(v);
      var pte := Load(PtePtr(v));
      Store(PtePtr(v), pte / 2 * 2);
    }
  }

  function Removed(m: Phys, d: nat, v: nat): Phys
    requires Directory(m, d) && v < MAX32 && HasTable(m, d, v)
  {
    var t := TableOf(m, d, v);
    SetEntry(m, t, PteIdx(v), m[t][PteIdx(v)] / 2 * 2)
  }

  /** With the directory entry in place the new table's page is where its entries will be looked for. */
  lemma NewTable(m: Phys, d: nat, v: nat, f: nat)
    requires Mappable(m, d, v) && f in m && f != d
    ensures var n := SetEntry(m, d, PdeIdx(v), Entry(f));
            && SelfMapped(n, d) && PtePtr(v) < MAX32
            && Translate(n, d, PtePtr(v) / 4096 * 4096) == At(4096 * f)
  {
    PtrsInRange(v);
    var w := PtePtr(v) / 4096 * 4096;
    assert PdeIdx(w) == 1023 && PteIdx(w) == PdeIdx(v) && w % 4096 == 0;
  }

  // ---------------------------------------------------------------- what a mapping changes

  /** The page is mapped to the frame, byte by byte. */
  lemma AddMaps(m: Phys, d: nat, v: nat, p: nat, f: nat, off: nat)
    requires Mappable(m, d, v) && Unused(m, d, f) && Translate(m, d, v) == Fault && v % 4096 == 0 && off < 4096
    ensures Directory(Added(m, d, v, p, f), d) && Translate(Added(m, d, v, p, f), d, v + off) == At(4096 * p + off)
  {
    assert (v + off) % 4096 == off;
    assert PdeIdx(v + off) == PdeIdx(v) && PteIdx(v + off) == PteIdx(v) by {
      assert (v + off) / 4096 == v / 4096;
      SameIndices(v + off, v);
    }
  }

  lemma SameIndices(v: nat, w: nat)
    ensures v / 4096 == w / 4096 <==> PdeIdx(v) == PdeIdx(w) && PteIdx(v) == PteIdx(w)
  {
    assert PdeIdx(v) == v / 4096 / 1024 && PdeIdx(w) == w / 4096 / 1024;
  }

  /** The two pages are translated by one and the same table entry. */
  ghost predicate SameEntry(m: Phys, d: nat, v: nat, w: nat)
    requires Directory(m, d) && v < MAX32 && w < MAX32
  {
    HasTable(m, d, w) && TableOf(m, d, w) == TableOf(m, d, v) && PteIdx(w) == PteIdx(v)
  }

  /** Where v has a page table already, exactly the addresses that share its entry change their translation. */
  lemma AddChanges(m: Phys, d: nat, v: nat, p: nat, f: nat, w: nat)
    requires Mappable(m, d, v) && HasTable(m, d, v) && Translate(m, d, v) == Fault && w < MAX32
    ensures var n := Added(m, d, v, p, f);
            Directory(n, d) && (Translate(n, d, w) != Translate(m, d, w) <==> SameEntry(m, d, v, w))
  {
  }

  /** With a new page table it is v's page, and the page of the self-map window that shows the new table. */
  lemma AddWithTableChanges(m: Phys, d: nat, v: nat, p: nat, f: nat, w: nat)
    requires Mappable(m, d, v) && !Present(m[d][PdeIdx(v)]) && Unused(m, d, f) && w < MAX32
    requires forall i :: 0 <= i < 1023 && Present(m[d][i]) ==> FrameOf(m[d][i]) != d
    ensures var n := Added(m, d, v, p, f);
            && Directory(n, d)
            && (Translate(n, d, w) != Translate(m, d, w) <==> w / 4096 == v / 4096 || w / 4096 == PtePtr(v) / 4096)
  {
    SameIndices(v, w);
    SameIndices(w, PtePtr(v));
    PtrsInRange(v);
    assert PdeIdx(w) < 1024;
  }

  /** Removing a mapping makes exactly the addresses that share its entry fault. */
  lemma RemoveChanges(m: Phys, d: nat, v: nat, w: nat)
    requires Mappable(m, d, v) && HasTable(m, d, v) && w < MAX32
    ensures var n := Removed(m, d, v);
            Directory(n, d) && Translate(n, d, w) == if SameEntry(m, d, v, w) then Fault else Translate(m, d, w)
  {
  }

  /** The boot loader lets directory entries 0 and 768 share a table, so each heap page in the first 4 MB above
      3 GB is also mapped 3 GB lower. */
  lemma LowAlias(m: Phys, d: nat, v: nat, p: nat, f: nat)
    requires Mappable(m, d, v) && HasTable(m, d, v) && Translate(m, d, v) == Fault
    requires PdeIdx(v) == 768 && m[d][0] == m[d][768]
    ensures var n := Added(m, d, v, p, f);
            Directory(n, d) && Translate(n, d, v - 0xc000_0000) == At(4096 * p + v % 4096)
  {
    var low := v - 0xc000_0000;
    assert PdeIdx(low) == 0 && low / 4096 == v / 4096 - 0xc0000 && PteIdx(low) == PteIdx(v) && low % 4096 == v % 4096;
  }

  // ---------------------------------------------------------------- the shared kernel half

  /** Directory entries 768 to 1022. */
  predicate KernelHalf(i: int) {
    768 <= i < 1023
  }

  /** All directories have themselves as their last entry, tables that are no directories, and the same
      present entries for the kernel half. */
  ghost predicate Shared(m: Phys, dirs: set<nat>) {
    && (forall d :: d in dirs ==> SelfMapped(m, d))
    && (forall d, i :: d in dirs && 0 <= i < 1023 && Present(m[d][i]) ==>
          FrameOf(m[d][i]) in m && |m[FrameOf(m[d][i])]| == 1024 && FrameOf(m[d][i]) !in dirs)
    && (forall d, e, i :: d in dirs && e in dirs && KernelHalf(i) ==> Present(m[d][i]) && m[d][i] == m[e][i])
  }

  /** A frame that no directory uses as a directory or as a table. */
  ghost predicate Spare(m: Phys, dirs: set<nat>, f: nat) {
    && f in m && |m[f]| == 1024 && f !in dirs
    && forall d, i :: d in dirs && d in m && 0 <= i < |m[d]| && Present(m[d][i]) ==> FrameOf(m[d][i]) != f
  }

  /** Every kernel address but the self-map window means the same in all address spaces. */
  lemma KernelIsShared(m: Phys, dirs: set<nat>, d: nat, e: nat, v: nat)
    requires Shared(m, dirs) && d in dirs && e in dirs && v < MAX32 && KernelHalf(PdeIdx(v))
    ensures Translate(m, d, v) == Translate(m, e, v)
  {
  }

  lemma SharedMappable(m: Phys, dirs: set<nat>, d: nat, v: nat, f: nat)
    requires Shared(m, dirs) && d in dirs && v < MAX32 && PdeIdx(v) < 1023 && Spare(m, dirs, f)
    ensures Mappable(m, d, v) && Unused(m, d, f)
  {
  }

  /** Mapping a page, kernel or user, through any directory keeps the kernel half shared. */
  lemma AddKeepsShared(m: Phys, dirs: set<nat>, d: nat, v: nat, p: nat, f: nat)
    requires Shared(m, dirs) && d in dirs && v < MAX32 && PdeIdx(v) < 1023 && Spare(m, dirs, f)
    ensures Mappable(m, d, v) && Shared(Added(m, d, v, p, f), dirs)
  {
    SharedMappable(m, dirs, d, v, f);
    var n := Added(m, d, v, p, f);
    if Present(m[d][PdeIdx(v)]) {
      assert forall e :: e in dirs ==> n[e] == m[e];
    } else {
      assert forall e, i :: e in dirs && 0 <= i < 1024 && !(e == d && i == PdeIdx(v)) ==> n[e][i] == m[e][i];
    }
  }

  lemma RemoveKeepsShared(m: Phys, dirs: set<nat>, d: nat, v: nat)
    requires Shared(m, dirs) && d in dirs && v < MAX32 && PdeIdx(v) < 1023 && HasTable(m, d, v)
    ensures Shared(Removed(m, d, v), dirs)
  {
    var n := Removed(m, d, v);
    assert forall e :: e in dirs ==> n[e] == m[e];
  }

  lemma CreateKeepsShared(m: Phys, dirs: set<nat>, d: nat, f: nat)
    requires Shared(m, dirs) && d in dirs && Spare(m, dirs, f)
    ensures Shared(m[f := NewDirectory(m, d, f)], dirs + {f})
  {
    var n := m[f := NewDirectory(m, d, f)];
    assert forall e :: e in dirs ==> n[e] == m[e];
  }

  /** The boot loader's page directory in frame 256: entries 0 and 768 are one table, 769 to 1022 have their own. */
  function BootDirectory(): (s: seq<nat>)
    ensures |s| == 1024
  {
    seq(1024, i requires 0 <= i < 1024 =>
      if i == 0 || i == 768 then Entry(257) else if 769 <= i < 1023 then Entry(258 + (i - 769))
      else if i == 1023 then Entry(256) else 0)
  }

  lemma BootIsShared(m: Phys)
    requires 256 in m && m[256] == BootDirectory() && forall t :: 257 <= t < 512 ==> t in m && |m[t]| == 1024
    ensures Shared(m, {256}) && m[256][0] == m[256][768]
  {
    assert BootDirectory()[1023] == Entry(256);
    assert SelfMapped(m, 256);
  }

  // ---------------------------------------------------------------- whole runs

  datatype Op = Map(d: nat, v: nat, p: nat, f: nat) | Unmap(d: nat, v: nat) | Create(d: nat, f: nat)

  /** page_table_add, page_table_pte_remove and create_page_dir in directory d, with a spare frame f. */
  ghost predicate Does(m: Phys, dirs: set<nat>, op: Op, n: Phys) {
    op.d in dirs && Directory(m, op.d) &&
      match op
      case Map(d, v, p, f) => v < MAX32 && PdeIdx(v) < 1023 && Spare(m, dirs, f)
          && (Mappable(m, d, v) ==> n == Added(m, d, v, p, f))
      case Unmap(d, v) => v < MAX32 && PdeIdx(v) < 1023 && HasTable(m, d, v) && n == Removed(m, d, v)
      case Create(d, f) => Spare(m, dirs, f) && n == m[f := NewDirectory(m, d, f)]
  }

  function DirsAfter(dirs: set<nat>, op: Op): set<nat> {
    if op.Create? then dirs + {op.f} else dirs
  }

  ghost predicate IsRun(run: seq<Phys>, ops: seq<Op>, dirs: set<nat>)
    decreases |ops|
  {
    |run| == |ops| + 1 && (ops != [] ==>
        Does(run[0], dirs, ops[0], run[1]) && IsRun(run[1..], ops[1..], DirsAfter(dirs, ops[0])))
  }

  function AllDirs(dirs: set<nat>, ops: seq<Op>): set<nat>
    decreases |ops|
  {
    if ops == [] then dirs else AllDirs(DirsAfter(dirs, ops[0]), ops[1..])
  }

  /** Whatever is mapped and unmapped through whichever directory, and whenever a directory was created: at any
      time every kernel address outside the self-map window has one translation in all of them. */
  lemma {:induction false} KernelStaysShared(run: seq<Phys>, ops: seq<Op>, dirs: set<nat>)
    requires IsRun(run, ops, dirs) && Shared(run[0], dirs)
    ensures Shared(run[|ops|], AllDirs(dirs, ops))
    ensures var all := AllDirs(dirs, ops);
            forall d, e, v :: d in all && e in all && 0 <= v < MAX32 && KernelHalf(PdeIdx(v)) ==>
              Translate(run[|ops|], d, v) == Translate(run[|ops|], e, v)
    decreases |ops|
  {
    if ops == [] {
      forall d, e, v | d in dirs && e in dirs && 0 <= v < MAX32 && KernelHalf(PdeIdx(v))
        ensures Translate(run[0], d, v) == Translate(run[0], e, v)
      {
        KernelIsShared(run[0], dirs, d, e, v);
      }
    } else {
      match ops[0] {
        case Map(d, v, p, f) => AddKeepsShared(run[0], dirs, d, v, p, f);
        case Unmap(d, v) => RemoveKeepsShared(run[0], dirs, d, v);
        case Create(d, f) => CreateKeepsShared(run[0], dirs, d, f);
      }
      KernelStaysShared(run[1..], ops[1..], DirsAfter(dirs, ops[0]));
    }
  }

  // ---------------------------------------------------------------- the user halves

  /** A new directory has the kernel's entries and no user address. */
  lemma NewIsEmpty(m: Phys, d: nat, f: nat, v: nat)
    requires Directory(m, d) && v < 0xc000_0000
    ensures Translate(m[f := NewDirectory(m, d, f)], f, v) == Fault
  {
  }

  /** A user address space: its pages and their frames. */
  type Space = map<nat, nat>

  function InSpace(space: Space, v: nat): Place {
    if v / 4096 in space then At(4096 * space[v / 4096] + v % 4096) else Fault
  }

  function WithPage(space: Space, v: nat, p: nat): Space {
    map w | w in space.Keys + {v / 4096} :: if w == v / 4096 then p else space[w]
  }

  function WithoutPage(space: Space, v: nat): Space {
    map w | w in space && w != v / 4096 :: space[w]
  }

  /** The user address spaces of the directories that were created, as the operations describe them. */
  function SpacesAfter(spaces: map<nat, Space>, op: Op): map<nat, Space> {
    match op
    case Map(d, v, p, _) => if d in spaces && v < 0xc000_0000 then spaces[d := WithPage(spaces[d], v, p)] else spaces
    case Unmap(d, v) => if d in spaces && v < 0xc000_0000 then spaces[d := WithoutPage(spaces[d], v)] else spaces
    case Create(_, f) => spaces[f := map[]]
  }

  function AllSpaces(spaces: map<nat, Space>, ops: seq<Op>): map<nat, Space>
    decreases |ops|
  {
    if ops == [] then spaces else AllSpaces(SpacesAfter(spaces, ops[0]), ops[1..])
  }

  predicate SameTable(entry: nat, other: nat) {
    Present(entry) && Present(other) && FrameOf(entry) == FrameOf(other)
  }

  /** The page tables of d's user half are in no other place of any directory. */
  ghost predicate Private(m: Phys, dirs: set<nat>, d: nat)
    requires Directory(m, d) && forall e :: e in dirs ==> e in m && |m[e]| == 1024
  {
    forall i, e, j :: 0 <= i < 768 && e in dirs && 0 <= j < 1023 && SameTable(m[d][i], m[e][j]) ==> e == d && j == i
  }

  /** The created directories translate the user addresses as their spaces say. */
  ghost predicate SpacesAre(m: Phys, dirs: set<nat>, spaces: map<nat, Space>) {
    && Shared(m, dirs)
    && (forall d :: d in spaces ==> d in dirs && Private(m, dirs, d))
    && (forall d, v :: d in spaces && 0 <= v < 0xc000_0000 ==> Translate(m, d, v) == InSpace(spaces[d], v))
  }

  lemma MapInSpace(m: Phys, dirs: set<nat>, d: nat, v: nat, p: nat, f: nat, e: nat, w: nat)
    requires Shared(m, dirs) && d in dirs && v < MAX32 && PdeIdx(v) < 1023 && Spare(m, dirs, f)
    requires e in dirs && Private(m, dirs, e) && w < 0xc000_0000
    ensures Mappable(m, d, v) && Directory(Added(m, d, v, p, f), e)
    ensures Translate(Added(m, d, v, p, f), e, w) ==
            if d == e && w / 4096 == v / 4096 then At(4096 * p + w % 4096) else Translate(m, e, w)
  {
    SharedMappable(m, dirs, d, v, f);
    SameIndices(v, w);
    assert PdeIdx(w) < 768;
    if Present(m[d][PdeIdx(v)]) {
      assert HasTable(m, e, w) && TableOf(m, e, w) == TableOf(m, d, v) ==> e == d && PdeIdx(w) == PdeIdx(v);
    } else {
      assert !KernelHalf(PdeIdx(v));
    }
  }

  lemma MapPrivate(m: Phys, dirs: set<nat>, d: nat, v: nat, p: nat, f: nat, e: nat)
    requires Shared(m, dirs) && d in dirs && v < MAX32 && PdeIdx(v) < 1023 && Spare(m, dirs, f)
    requires e in dirs && Private(m, dirs, e)
    ensures Mappable(m, d, v) && Shared(Added(m, d, v, p, f), dirs) && Private(Added(m, d, v, p, f), dirs, e)
  {
    AddKeepsShared(m, dirs, d, v, p, f);
    var n := Added(m, d, v, p, f);
    if Present(m[d][PdeIdx(v)]) {
      assert forall c :: c in dirs ==> n[c] == m[c];
    } else {
      assert forall c, i :: c in dirs && 0 <= i < 1024 ==>
          n[c][i] == if c == d && i == PdeIdx(v) then Entry(f) else m[c][i];
    }
  }

  lemma MapSpaces(m: Phys, dirs: set<nat>, spaces: map<nat, Space>, d: nat, v: nat, p: nat, f: nat)
    requires SpacesAre(m, dirs, spaces) && d in dirs && v < MAX32 && PdeIdx(v) < 1023 && Spare(m, dirs, f)
    ensures Mappable(m, d, v)
    ensures SpacesAre(Added(m, d, v, p, f), dirs, SpacesAfter(spaces, Map(d, v, p, f)))
  {
    AddKeepsShared(m, dirs, d, v, p, f);
    var n, after := Added(m, d, v, p, f), SpacesAfter(spaces, Map(d, v, p, f));
    forall e | e in after ensures e in dirs && Private(n, dirs, e) {
      MapPrivate(m, dirs, d, v, p, f, e);
    }
    forall e, w | e in after && 0 <= w < 0xc000_0000 ensures Translate(n, e, w) == InSpace(after[e], w) {
      MapInSpace(m, dirs, d, v, p, f, e, w);
    }
  }

  lemma UnmapInSpace(m: Phys, dirs: set<nat>, d: nat, v: nat, e: nat, w: nat)
    requires Shared(m, dirs) && d in dirs && v < MAX32 && PdeIdx(v) < 1023 && HasTable(m, d, v)
    requires e in dirs && Private(m, dirs, e) && w < 0xc000_0000
    ensures Directory(Removed(m, d, v), e)
    ensures Translate(Removed(m, d, v), e, w) ==
            if d == e && w / 4096 == v / 4096 then Fault else Translate(m, e, w)
  {
    SameIndices(v, w);
    assert PdeIdx(w) < 768;
    assert HasTable(m, e, w) && TableOf(m, e, w) == TableOf(m, d, v) ==> e == d && PdeIdx(w) == PdeIdx(v);
  }

  lemma UnmapSpaces(m: Phys, dirs: set<nat>, spaces: map<nat, Space>, d: nat, v: nat)
    requires SpacesAre(m, dirs, spaces) && d in dirs && v < MAX32 && PdeIdx(v) < 1023 && HasTable(m, d, v)
    ensures SpacesAre(Removed(m, d, v), dirs, SpacesAfter(spaces, Unmap(d, v)))
  {
    RemoveKeepsShared(m, dirs, d, v);
    var n, after := Removed(m, d, v), SpacesAfter(spaces, Unmap(d, v));
    assert forall c :: c in dirs ==> n[c] == m[c];
    forall e, w | e in after && 0 <= w < 0xc000_0000 ensures Translate(n, e, w) == InSpace(after[e], w) {
      UnmapInSpace(m, dirs, d, v, e, w);
    }
  }

  lemma CreatePrivate(m: Phys, dirs: set<nat>, d: nat, f: nat, e: nat)
    requires Shared(m, dirs) && d in dirs && Spare(m, dirs, f) && e in dirs && Private(m, dirs, e)
    ensures Shared(m[f := NewDirectory(m, d, f)], dirs + {f})
    ensures Private(m[f := NewDirectory(m, d, f)], dirs + {f}, e)
  {
    CreateKeepsShared(m, dirs, d, f);
    var n := m[f := NewDirectory(m, d, f)];
    assert forall c :: c in dirs ==> n[c] == m[c];
    assert forall i, j :: 0 <= i < 768 && 768 <= j < 1023 ==> !SameTable(m[e][i], m[d][j]);
  }

  lemma CreateKeepsUser(m: Phys, dirs: set<nat>, d: nat, f: nat, e: nat, v: nat)
    requires Shared(m, dirs) && d in dirs && Spare(m, dirs, f) && e in dirs && v < 0xc000_0000
    ensures Translate(m[f := NewDirectory(m, d, f)], e, v) == Translate(m, e, v)
  {
    assert PdeIdx(v) < 768;
  }

  lemma CreateSpaces(m: Phys, dirs: set<nat>, spaces: map<nat, Space>, d: nat, f: nat)
    requires SpacesAre(m, dirs, spaces) && d in dirs && Spare(m, dirs, f)
    ensures SpacesAre(m[f := NewDirectory(m, d, f)], dirs + {f}, SpacesAfter(spaces, Create(d, f)))
  {
    CreateKeepsShared(m, dirs, d, f);
    var n := m[f := NewDirectory(m, d, f)];
    assert forall c :: c in dirs ==> n[c] == m[c];
    forall e | e in spaces ensures Private(n, dirs + {f}, e) { CreatePrivate(m, dirs, d, f, e); }
    forall e, v | e in spaces && 0 <= v < 0xc000_0000 ensures Translate(n, e, v) == Translate(m, e, v) {
      CreateKeepsUser(m, dirs, d, f, e, v);
    }
    forall v | 0 <= v < 0xc000_0000 ensures Translate(n, f, v) == Fault { NewIsEmpty(m, d, f, v); }
  }

  /** In every run each created directory translates each user address exactly as the maps and unmaps through
      that directory say; nothing done through another directory, for the kernel or for a process, reaches it. */
  lemma {:induction false} UserSpacesApart(run: seq<Phys>, ops: seq<Op>, dirs: set<nat>, spaces: map<nat, Space>)
    requires IsRun(run, ops, dirs) && SpacesAre(run[0], dirs, spaces)
    ensures SpacesAre(run[|ops|], AllDirs(dirs, ops), AllSpaces(spaces, ops))
    decreases |ops|
  {
    if ops != [] {
      match ops[0] {
        case Map(d, v, p, f) => MapSpaces(run[0], dirs, spaces, d, v, p, f);
        case Unmap(d, v) => UnmapSpaces(run[0], dirs, spaces, d, v);
        case Create(d, f) => CreateSpaces(run[0], dirs, spaces, d, f);
      }
      UserSpacesApart(run[1..], ops[1..], DirsAfter(dirs, ops[0]), SpacesAfter(spaces, ops[0]));
    }
  }

  /** Some page_table_add through d was for the page of v. */
  ghost predicate MapsPage(ops: seq<Op>, d: nat, v: nat) {
    exists k :: 0 <= k < |ops| && ops[k].Map? && ops[k].d == d && ops[k].v / 4096 == v / 4096
  }

  lemma {:induction false} SpaceHasMaps(spaces: map<nat, Space>, ops: seq<Op>, d: nat, v: nat)
    requires d in AllSpaces(spaces, ops) && v / 4096 in AllSpaces(spaces, ops)[d]
    ensures (d in spaces && v / 4096 in spaces[d]) || MapsPage(ops, d, v)
    decreases |ops|
  {
    if ops != [] {
      SpaceHasMaps(SpacesAfter(spaces, ops[0]), ops[1..], d, v);
      if MapsPage(ops[1..], d, v) {
        var k :| 0 <= k < |ops[1..]| && ops[1..][k].Map? && ops[1..][k].d == d && ops[1..][k].v / 4096 == v / 4096;
        assert ops[k + 1].Map? && ops[k + 1].d == d && ops[k + 1].v / 4096 == v / 4096;
      } else if !(d in spaces && v / 4096 in spaces[d]) {
        assert ops[0].Map? && ops[0].d == d && ops[0].v / 4096 == v / 4096;
      }
    }
  }

  lemma {:induction false} CreatedHasSpace(dirs: set<nat>, spaces: map<nat, Space>, ops: seq<Op>, d: nat)
    requires d in AllDirs(dirs, ops) && (d in dirs ==> d in spaces)
    ensures d in AllSpaces(spaces, ops)
    decreases |ops|
  {
    if ops != [] { CreatedHasSpace(DirsAfter(dirs, ops[0]), SpacesAfter(spaces, ops[0]), ops[1..], d); }
  }

  /** A directory that the run has created translates a user address only if the page was mapped through it. */
  lemma UserNeedsMap(run: seq<Phys>, ops: seq<Op>, dirs: set<nat>, d: nat, v: nat)
    requires IsRun(run, ops, dirs) && Shared(run[0], dirs) && d in AllDirs(dirs, ops) - dirs && v < 0xc000_0000
    ensures Directory(run[|ops|], d)
    ensures Translate(run[|ops|], d, v) != Fault ==> MapsPage(ops, d, v)
  {
    UserSpacesApart(run, ops, dirs, map[]);
    CreatedHasSpace(dirs, map[], ops, d);
    if Translate(run[|ops|], d, v) != Fault { SpaceHasMaps(map[], ops, d, v); }
  }
}
