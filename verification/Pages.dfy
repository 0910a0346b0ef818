/** lib/kernel/memory.c: the kernel's virtual page map, its page frames, and the page table entries between them. */
module Pages {
  import opened Bitmap

  /** The bits of a map of n bits that bitmap_set can reach. */
  function Reach(n: nat): nat {
    if n < 2048 then n else 2048
  }

  /** The page table entries, by heap page number, and the map of page frames: present entries point to
      different frames, and the frames in use are those they point to. */
  ghost predicate FramesOk(pbits: seq<bool>, pte: map<nat, nat>, n: nat) {
    && |pbits| == n
    && (forall v :: v in pte ==> v < Reach(n) && pte[v] < Reach(n) && pbits[pte[v]])
    && (forall v, w :: v in pte && w in pte && v != w ==> pte[v] != pte[w])
    && (forall p :: 0 <= p < n && pbits[p] ==> p in pte.Values)
  }

  /** A page's bit in the virtual map is set exactly when its entry is present. */
  ghost predicate VirtualOk(vbits: seq<bool>, pte: map<nat, nat>, n: nat) {
    |vbits| == n && (forall v :: v in pte ==> v < n) && forall v :: 0 <= v < n ==> (vbits[v] <==> v in pte)
  }

  /** cnt pages from start on. */
  function Run(start: nat, cnt: nat): (s: set<nat>)
    ensures forall i :: i in s <==> start <= i < start + cnt
    ensures |s| == cnt
  {
    if cnt == 0 then {} else Run(start, cnt - 1) + {start + cnt - 1}
  }

  lemma SubsetSize(a: set<nat>, b: set<nat>)
    requires a <= b
    ensures |a| <= |b|
  {
    assert b == a + (b - a);
  }

  lemma {:induction false} ValuesSize(m: map<nat, nat>)
    ensures |m.Values| <= |m.Keys|
    ensures (forall v, w :: v in m && w in m && v != w ==> m[v] != m[w]) ==> |m.Values| == |m.Keys|
    decreases |m|
  {
    if m != map[] {
      var k :| k in m;
      var m' := m - {k};
      ValuesSize(m');
      assert m.Keys == m'.Keys + {k};
      assert m.Values == m'.Values + {m[k]} by {
        forall x | x in m.Values ensures x in m'.Values + {m[k]} {
          var j :| j in m && m[j] == x;
          if j != k { assert m'[j] == x; }
        }
      }
      if forall v, w :: v in m && w in m && v != w ==> m[v] != m[w] {
        assert m[k] !in m'.Values;
      }
    }
  }

  ghost function SetBits(bits: seq<bool>): set<nat> {
    set i: nat | i < |bits| && bits[i]
  }

  /** The two maps of equal length have equally many bits set. */
  lemma EqualCounts(vbits: seq<bool>, pbits: seq<bool>, pte: map<nat, nat>, n: nat)
    requires VirtualOk(vbits, pte, n) && FramesOk(pbits, pte, n)
    ensures |SetBits(vbits)| == |SetBits(pbits)|
  {
    assert SetBits(vbits) == pte.Keys;
    assert SetBits(pbits) == pte.Values;
    ValuesSize(pte);
  }

  lemma SpareValue(m: map<nat, nat>, r: nat, v: nat) returns (p: nat)
    requires v < r && v !in m && forall k :: k in m ==> k < r
    ensures p < r && p !in m.Values
  {
    var all := Run(0, r);
    ValuesSize(m);
    SubsetSize(m.Keys, all - {v});
    if all <= m.Values {
      SubsetSize(all, m.Values);
      assert false;
    }
    p :| p in all && p !in m.Values;
  }

  /** So while a reachable page is free, palloc finds a frame, and one that bitmap_set can mark. */
  lemma FrameIsFree(pbits: seq<bool>, pte: map<nat, nat>, n: nat, v: nat)
    requires FramesOk(pbits, pte, n) && v < Reach(n) && v !in pte
    ensures LowestClear(pbits) < Reach(n)
  {
    var p := SpareValue(pte, Reach(n), v);
  }

  lemma MapStep(pbits: seq<bool>, pte: map<nat, nat>, n: nat, v: nat)
    requires FramesOk(pbits, pte, n) && v < Reach(n) && v !in pte
    ensures LowestClear(pbits) < n
    ensures SetBit(pbits, LowestClear(pbits), true) == pbits[LowestClear(pbits) := true]
    ensures FramesOk(SetBit(pbits, LowestClear(pbits), true), pte[v := LowestClear(pbits)], n)
  {
    FrameIsFree(pbits, pte, n, v);
    var p := LowestClear(pbits);
    var pbits', pte' := SetBit(pbits, p, true), pte[v := p];
    assert pbits' == pbits[p := true] && p !in pte.Values;
    forall q | 0 <= q < n && pbits'[q] ensures q in pte'.Values {
      if q == p {
        assert pte'[v] == q;
      } else {
        var w :| w in pte && pte[w] == q;
        assert pte'[w] == q;
      }
    }
  }

  lemma UnmapStep(pbits: seq<bool>, pte: map<nat, nat>, n: nat, v: nat)
    requires FramesOk(pbits, pte, n) && v in pte
    ensures pte[v] < n && FramesOk(SetBit(pbits, pte[v], false), pte - {v}, n)
  {
    var p := pte[v];
    var pbits', pte' := SetBit(pbits, p, false), pte - {v};
    assert pbits' == pbits[p := false];
    forall q | 0 <= q < n && pbits'[q] ensures q in pte'.Values {
      var w :| w in pte && pte[w] == q;
      assert pte'[w] == q;
    }
  }

  /** The map with bits start to start + cnt - 1 set to value. */
  function Marked(bits: seq<bool>, start: nat, cnt: nat, value: bool): (r: seq<bool>)
    ensures |r| == |bits| && forall i :: 0 <= i < |bits| ==> r[i] == if start <= i < start + cnt then value else bits[i]
  {
    seq(|bits|, i requires 0 <= i < |bits| => if start <= i < start + cnt then value else bits[i])
  }

  /** The loop of bitmap_set calls over a run. */
  function SetRun(bits: seq<bool>, start: nat, cnt: nat): (r: seq<bool>)
    requires start + cnt <= |bits|
    ensures |r| == |bits|
  {
    if cnt == 0 then bits else SetBit(SetRun(bits, start, cnt - 1), start + cnt - 1, true)
  }

  lemma {:induction false} SetRunBeyond(bits: seq<bool>, start: nat, cnt: nat, i: nat)
    requires start + cnt <= |bits| && 2048 <= i < |bits|
    ensures SetRun(bits, start, cnt)[i] == bits[i]
  {
    if cnt > 0 {
      SetRunBeyond(bits, start, cnt - 1, i);
      assert Target(start + cnt - 1) < 2048;
    }
  }

  lemma {:induction false} SetRunBelow(bits: seq<bool>, start: nat, cnt: nat)
    requires start + cnt <= |bits| && start + cnt <= 2048
    ensures SetRun(bits, start, cnt) == Marked(bits, start, cnt, true)
  {
    if cnt > 0 { SetRunBelow(bits, start, cnt - 1); }
  }

  /** A run of clear bits is marked, and nothing else is, exactly when it ends below 2048: the guard of the
      methods below. */
  lemma RunIsMarked(bits: seq<bool>, start: nat, cnt: nat)
    requires cnt >= 1 && ClearRun(bits, start, cnt)
    ensures SetRun(bits, start, cnt) == Marked(bits, start, cnt, true) <==> start + cnt <= 2048
  {
    if start + cnt <= 2048 {
      SetRunBelow(bits, start, cnt);
    } else {
      SetRunBeyond(bits, start, cnt, start + cnt - 1);
    }
  }

  /** The entries of all but cnt pages from start on are kept, and no other. */
  ghost predicate Kept(a: map<nat, nat>, b: map<nat, nat>, start: nat, cnt: nat) {
    && (forall v :: v in b <==> v in a && !(start <= v < start + cnt))
    && (forall v :: v in b ==> b[v] == a[v])
  }

  lemma KeptMore(a: map<nat, nat>, was: map<nat, nat>, b: map<nat, nat>, start: nat, i: nat)
    requires Kept(was, a, start, i) && start + i !in a && start + i in b && b == was[start + i := b[start + i]]
    requires forall v :: start <= v < start + i ==> v in was
    ensures Kept(b, a, start, i + 1) && forall v :: start <= v < start + i + 1 ==> v in b
  {
  }

  /** The page has a frame that was free, and no frame below it is free now. */
  ghost predicate TookLowest(a: seq<bool>, b: seq<bool>, pte: map<nat, nat>, v: nat)
    requires |b| == |a|
  {
    v in pte && pte[v] < |a| && !a[pte[v]] && b[pte[v]] && forall f :: 0 <= f < pte[v] ==> b[f]
  }

  /** The pages of the run have the lowest frames that were free, in order. */
  ghost predicate InOrder(a: seq<bool>, b: seq<bool>, pte: map<nat, nat>, start: nat, cnt: nat) {
    && |b| == |a| && (forall f :: 0 <= f < |a| && a[f] ==> b[f])
    && (forall v :: start <= v < start + cnt ==> v in pte && TookLowest(a, b, pte, v))
    && (forall v, w :: start <= v < w < start + cnt ==> pte[v] < pte[w])
  }

  lemma OrderMore(a: seq<bool>, b: seq<bool>, pte: map<nat, nat>, start: nat, i: nat)
    requires InOrder(a, b, pte, start, i) && LowestClear(b) < |b|
    ensures InOrder(a, b[LowestClear(b) := true], pte[start + i := LowestClear(b)], start, i + 1)
  {
    var p := LowestClear(b);
    var b', pte' := b[p := true], pte[start + i := p];
    forall v | start <= v < start + i + 1 ensures v in pte' && TookLowest(a, b', pte', v) && pte'[v] <= p {
      if v < start + i { LowerTook(a, b, pte, v, p); }
    }
    forall v, w | start <= v < w < start + i + 1 ensures pte'[v] < pte'[w] {
      LowerTook(a, b, pte, v, p);
    }
  }

  lemma LowerTook(a: seq<bool>, b: seq<bool>, pte: map<nat, nat>, v: nat, p: nat)
    requires |b| == |a| && TookLowest(a, b, pte, v) && p < |b| && !b[p]
    ensures pte[v] < p && TookLowest(a, b[p := true], pte, v)
  {
  }

  /** Kernel virtual pages, page frames and the page table entries of the kernel heap. */
  class PageMaps {
    var vbits: seq<bool>
    var pbits: seq<bool>
    var pte: map<nat, nat>
    const n: nat

    ghost predicate Valid()
      reads this
    {
      VirtualOk(vbits, pte, n) && FramesOk(pbits, pte, n)
    }

    /** mem_pool_init for kernelFreePages frames: whole bytes of bits, all clear. No entry is present. */
    constructor (kernelFreePages: nat)
      ensures Valid() && n == kernelFreePages / 8 * 8 && pte == map[]
      ensures forall i :: 0 <= i < n ==> !vbits[i] && !pbits[i]
    {
      n := kernelFreePages / 8 * 8;
      vbits := seq(kernelFreePages / 8 * 8, _ => false);
      pbits := seq(kernelFreePages / 8 * 8, _ => false);
      pte := map[];
    }

    /** vadder_get: a run of virtual pages; `past` is the bit in memory after the map. */
    method VadderGet(cnt: nat, past: bool) returns (found: Found)
      requires cnt >= 1 && |vbits| == n
      requires var f := ScanOf(vbits, past, cnt); f.At? ==> f.start + cnt <= Reach(n)
      modifies this`vbits
      ensures found == ScanOf(old(vbits), past, cnt)
      ensures vbits == if found.At? then Marked(old(vbits), found.start, cnt, true) else old(vbits)
    {
      found := ScanOf(vbits, past, cnt);
      if found.At? {
        var i := 0;
        while i < cnt
          invariant i <= cnt && vbits == Marked(old(vbits), found.start, i, true)
        {
          vbits := SetBit(vbits, found.start + i, true);
          i := i + 1;
        }
      }
    }

    /** palloc and page_table_add of one heap page whose page table exists. */
    method MapPage(v: nat) returns (p: nat)
      requires FramesOk(pbits, pte, n) && v < Reach(n) && v !in pte
      modifies this`pbits, this`pte
      ensures FramesOk(pbits, pte, n) && pte == old(pte)[v := p]
      ensures p == LowestClear(old(pbits)) < |old(pbits)| && pbits == old(pbits)[p := true]
    {
      MapStep(pbits, pte, n, v);
      p := LowestClear(pbits);
      pbits := SetBit(pbits, p, true);
      pte := pte[v := p];
    }

    /** One turn of malloc_page's loop. */
    method MapNext(start: nat, i: nat, ghost bits: seq<bool>, ghost was: map<nat, nat>)
      requires FramesOk(pbits, pte, n) && start + i < Reach(n) && start + i !in was
      requires Kept(pte, was, start, i) && InOrder(bits, pbits, pte, start, i)
      modifies this`pbits, this`pte
      ensures FramesOk(pbits, pte, n) && Kept(pte, was, start, i + 1) && InOrder(bits, pbits, pte, start, i + 1)
    {
      ghost var b, a := pbits, pte;
      var p := MapPage(start + i);
      OrderMore(bits, b, a, start, i);
      KeptMore(was, a, pte, start, i);
    }

    /** The loop of malloc_page. */
    method MapPages(start: nat, cnt: nat)
      requires FramesOk(pbits, pte, n) && start + cnt <= Reach(n) && forall v :: start <= v < start + cnt ==> v !in pte
      modifies this`pbits, this`pte
      ensures FramesOk(pbits, pte, n) && Kept(pte, old(pte), start, cnt)
      ensures InOrder(old(pbits), pbits, pte, start, cnt)
    {
      var i := 0;
      while i < cnt
        invariant i <= cnt && FramesOk(pbits, pte, n) && Kept(pte, old(pte), start, i)
        invariant InOrder(old(pbits), pbits, pte, start, i)
      {
        MapNext(start, i, old(pbits), old(pte));
        i := i + 1;
      }
    }

    /** malloc_page: once the virtual pages are found no frame is missing. */
    method MallocPage(cnt: nat, past: bool) returns (found: Found)
      requires Valid() && cnt >= 1
      requires var f := ScanOf(vbits, past, cnt); f.At? ==> f.start + cnt <= Reach(n)
      modifies this`vbits, this`pbits, this`pte
      ensures Valid() && found == ScanOf(old(vbits), past, cnt)
      ensures !found.At? ==> vbits == old(vbits) && pbits == old(pbits) && pte == old(pte)
      ensures found.At? ==> found.start + cnt <= Reach(n) && Kept(pte, old(pte), found.start, cnt)
      ensures found.At? ==> InOrder(old(pbits), pbits, pte, found.start, cnt)
      ensures found.At? ==> forall v :: found.start <= v < found.start + cnt ==> v in pte && v !in old(pte)
    {
      found := VadderGet(cnt, past);
      if found.At? {
        ScanInside(old(vbits), past, cnt);
        MapPages(found.start, cnt);
      }
    }

    /** pfree and page_table_pte_remove of one page. */
    method UnmapPage(v: nat)
      requires FramesOk(pbits, pte, n) && v in pte
      modifies this`pbits, this`pte
      ensures FramesOk(pbits, pte, n) && pte == old(pte) - {v} && pbits == old(pbits)[old(pte)[v] := false]
    {
      UnmapStep(pbits, pte, n, v);
      pbits := SetBit(pbits, pte[v], false);
      pte := pte - {v};
    }

    /** vaddr_remove. */
    method VaddrRemove(start: nat, cnt: nat)
      requires start + cnt <= Reach(n) && |vbits| == n
      modifies this`vbits
      ensures vbits == Marked(old(vbits), start, cnt, false)
    {
      var left: nat := cnt;
      while left > 0
        invariant left <= cnt && vbits == Marked(old(vbits), start + left, cnt - left, false)
      {
        left := left - 1;
        vbits := SetBit(vbits, left + start, false);
      }
    }

    /** The loop of mfree_page; addr may be inside its page. */
    method UnmapPages(addr: nat, cnt: nat, ghost page: nat)
      requires FramesOk(pbits, pte, n) && page == addr / 4096 && forall v :: page <= v < page + cnt ==> v in pte
      modifies this`pbits, this`pte
      ensures FramesOk(pbits, pte, n) && Kept(old(pte), pte, page, cnt)
    {
      var vaddr, i := addr, 0;
      while i < cnt
        invariant i <= cnt && vaddr == addr + 4096 * i && FramesOk(pbits, pte, n) && Kept(old(pte), pte, page, i)
      {
        assert vaddr / 4096 == page + i;
        UnmapPage(vaddr / 4096);
        vaddr := vaddr + 4096;
        i := i + 1;
      }
    }

    /** mfree_page of the cnt pages from the one that addr lies in. */
    method MfreePage(addr: nat, cnt: nat, ghost page: nat)
      requires Valid() && cnt >= 1 && page == addr / 4096 && forall v :: page <= v < page + cnt ==> v in pte
      modifies this`vbits, this`pbits, this`pte
      ensures Valid() && Kept(old(pte), pte, page, cnt)
    {
      assert page + cnt - 1 in pte;
      UnmapPages(addr, cnt, page);
      VaddrRemove(addr / 4096, cnt);
    }

    /** mfree_page of one page by its own address. */
    method MfreeOne(page: nat)
      requires Valid() && page in pte
      modifies this`vbits, this`pbits, this`pte
      ensures Valid() && Kept(old(pte), pte, page, 1)
    {
      MfreePage(4096 * page, 1, page);
    }
  }

  /** A run that bitmap_set can reach lies inside the map, whatever the bit after it is. */
  lemma ScanInside(bits: seq<bool>, past: bool, cnt: nat)
    requires cnt >= 1 && ScanOf(bits, past, cnt).At?
    ensures var s := ScanOf(bits, past, cnt).start; s + cnt <= |bits| ==> ClearRun(bits, s, cnt)
  {
    var s := ScanOf(bits, past, cnt).start;
    if cnt > 1 && s + cnt <= |bits| {
      assert ClearRun(bits + [past], s, cnt);
      forall i | s <= i < s + cnt ensures !bits[i] {
        assert (bits + [past])[i] == bits[i];
      }
    }
  }
}
