/** lib/kernel/memory.c: arenas, their blocks and the seven free lists, and what ties them to live memory. */
module Arenas {

  const PG := 4096

  /** sizeof(struct arena). */
  const HEADER := 12

  const CLASSES := 7

  // ---------------------------------------------------------------- block arithmetic

  function Size(k: nat): (s: nat)
    requires k < CLASSES
  {
    if k == 0 then 16 else if k == 1 then 32 else if k == 2 then 64 else if k == 3 then 128 else if k == 4 then 256
    else if k == 5 then 512 else 1024
  }

  function Per(k: nat): nat
    requires k < CLASSES
  {
    (PG - HEADER) / Size(k)
  }

  /** The descriptors that block_desc_init fills: each class twice the size of the one before, each as many
      blocks as fit behind the header. */
  method BlockDescInit() returns (descs: seq<(nat, nat)>)
    ensures |descs| == CLASSES && forall k :: 0 <= k < CLASSES ==> descs[k] == (Size(k), Per(k))
  {
    descs := [];
    var blockSize := 16;
    while |descs| < CLASSES
      invariant |descs| <= CLASSES && forall k :: 0 <= k < |descs| ==> descs[k] == (Size(k), Per(k))
      invariant |descs| < CLASSES ==> blockSize == Size(|descs|)
      decreases CLASSES - |descs|
    {
      descs := descs + [(blockSize, (PG - HEADER) / blockSize)];
      blockSize := blockSize * 2;
    }
  }

  /** arena2block, as an offset from the start of the heap. */
  function BlockAddr(page: nat, k: nat, idx: nat): nat
    requires k < CLASSES
  {
    PG * page + HEADER + idx * Size(k)
  }

  /** block2arena, as a page number. */
  function PageOf(addr: nat): nat {
    addr / PG
  }

  predicate IsBlock(addr: nat, k: nat)
    requires k < CLASSES
  {
    var off := addr % PG;
    off >= HEADER && (off - HEADER) % Size(k) == 0 && (off - HEADER) / Size(k) < Per(k)
  }

  function IndexOf(addr: nat, k: nat): nat
    requires k < CLASSES && IsBlock(addr, k)
  {
    (addr % PG - HEADER) / Size(k)
  }

  /** block2arena undoes arena2block, and the blocks of a page are those addresses and no others. */
  lemma BlockRoundTrip(page: nat, k: nat, idx: nat)
    requires k < CLASSES && idx < Per(k)
    ensures IsBlock(BlockAddr(page, k, idx), k) && PageOf(BlockAddr(page, k, idx)) == page
    ensures IndexOf(BlockAddr(page, k, idx), k) == idx
  {
    var off := HEADER + idx * Size(k);
    assert off < PG by { SizeBound(k, idx); }
    assert (PG * page + off) % PG == off;
    IndexFromOffset(k, idx);
  }

  lemma IndexFromOffset(k: nat, idx: nat)
    requires k < CLASSES
    ensures (idx * Size(k)) % Size(k) == 0 && (idx * Size(k)) / Size(k) == idx
  {
    match k {
      case 0 => Times16(idx);
      case 1 => Times32(idx);
      case 2 => Times64(idx);
      case _ => TimesMore(k, idx);
    }
  }

  lemma Times16(i: nat)
    ensures (i * 16) % 16 == 0 && (i * 16) / 16 == i
  {
  }

  lemma Times32(i: nat)
    ensures (i * 32) % 32 == 0 && (i * 32) / 32 == i
  {
  }

  lemma Times64(i: nat)
    ensures (i * 64) % 64 == 0 && (i * 64) / 64 == i
  {
  }

  lemma TimesMore(k: nat, i: nat)
    requires 3 <= k < CLASSES
    ensures (i * Size(k)) % Size(k) == 0 && (i * Size(k)) / Size(k) == i
  {
    assert (i * 128) % 128 == 0 && (i * 128) / 128 == i;
    assert (i * 256) % 256 == 0 && (i * 256) / 256 == i;
    assert (i * 512) % 512 == 0 && (i * 512) / 512 == i;
    assert (i * 1024) % 1024 == 0 && (i * 1024) / 1024 == i;
  }

  lemma SizeBound(k: nat, idx: nat)
    requires k < CLASSES && idx < Per(k)
    ensures HEADER + idx * Size(k) + Size(k) <= PG
  {
    if k == 0 {} else if k == 1 {} else if k == 2 {} else if k == 3 {} else if k == 4 {} else if k == 5 {} else {}
  }

  lemma BlockOfAddr(addr: nat, k: nat)
    requires k < CLASSES && IsBlock(addr, k)
    ensures addr == BlockAddr(PageOf(addr), k, IndexOf(addr, k)) && addr % PG + Size(k) <= PG
  {
    SizeBound(k, IndexOf(addr, k));
    if k == 0 {} else if k == 1 {} else if k == 2 {} else if k == 3 {} else if k == 4 {} else if k == 5 {} else {}
  }

  lemma Spread(k: nat, i: nat, j: nat)
    requires k < CLASSES && i < j
    ensures i * Size(k) + Size(k) <= j * Size(k)
  {
    if k == 0 {} else if k == 1 {} else if k == 2 {} else if k == 3 {} else if k == 4 {} else if k == 5 {} else {}
  }

  /** Two blocks of one page do not overlap. */
  lemma BlocksApart(a: nat, b: nat, k: nat)
    requires k < CLASSES && IsBlock(a, k) && IsBlock(b, k) && PageOf(a) == PageOf(b) && a != b
    ensures a + Size(k) <= b || b + Size(k) <= a
  {
    BlockOfAddr(a, k);
    BlockOfAddr(b, k);
    var i, j := IndexOf(a, k), IndexOf(b, k);
    if i < j { Spread(k, i, j); } else if j < i { Spread(k, j, i); }
  }

  lemma NextAddr(page: nat, k: nat, n: nat)
    requires k < CLASSES
    ensures BlockAddr(page, k, n + 1) == BlockAddr(page, k, n) + Size(k)
  {
  }

  /** The first `n` blocks of a page. */
  function FirstBlocks(page: nat, k: nat, n: nat): (s: set<nat>)
    requires k < CLASSES
    ensures |s| == n && forall a :: a in s ==> a < BlockAddr(page, k, n)
  {
    if n == 0 then {} else
      NextAddr(page, k, n - 1);
      FirstBlocks(page, k, n - 1) + {BlockAddr(page, k, n - 1)}
  }

  lemma {:induction false} FirstBlocksHas(page: nat, k: nat, n: nat, i: nat)
    requires k < CLASSES && i < n
    ensures BlockAddr(page, k, i) in FirstBlocks(page, k, n)
  {
    if i < n - 1 { FirstBlocksHas(page, k, n - 1, i); }
  }

  lemma {:induction false} FirstBlocksIndex(page: nat, k: nat, n: nat, a: nat) returns (i: nat)
    requires k < CLASSES && a in FirstBlocks(page, k, n)
    ensures i < n && a == BlockAddr(page, k, i)
  {
    if a == BlockAddr(page, k, n - 1) { i := n - 1; } else { i := FirstBlocksIndex(page, k, n - 1, a); }
  }

  /** All blocks of a page. */
  lemma AllBlocks(page: nat, k: nat)
    requires k < CLASSES
    ensures forall a :: a in FirstBlocks(page, k, Per(k)) <==> PageOf(a) == page && IsBlock(a, k)
  {
    forall a ensures a in FirstBlocks(page, k, Per(k)) <==> PageOf(a) == page && IsBlock(a, k) {
      if a in FirstBlocks(page, k, Per(k)) {
        var i := FirstBlocksIndex(page, k, Per(k), a);
        BlockRoundTrip(page, k, i);
      }
      if PageOf(a) == page && IsBlock(a, k) {
        BlockOfAddr(a, k);
        FirstBlocksHas(page, k, Per(k), IndexOf(a, k));
      }
    }
  }

  // ---------------------------------------------------------------- the allocator's data

  /** What the header of an allocated run of pages says. `Raw` pages come from get_kernel_page and have no
      header. */
  datatype Arena = Small(k: nat, cnt: nat) | Large(pages: nat) | Raw(pages: nat)

  function Span(a: Arena): nat {
    match a
    case Small(_, _) => 1
    case Large(pages) => pages
    case Raw(pages) => pages
  }

  /** Arenas by first page; the free lists by class; for every page in use the first page of its arena; and
      the live allocations, each with the size that was asked for. */
  datatype Store = Store(arenas: map<nat, Arena>, free: seq<seq<nat>>, cover: map<nat, nat>, live: map<nat, nat>)

  ghost predicate Covers(arenas: map<nat, Arena>, b: nat, v: nat) {
    b in arenas && b <= v < b + Span(arenas[b])
  }

  /** Every page in use lies in one arena. */
  ghost predicate CoverOk(arenas: map<nat, Arena>, cover: map<nat, nat>) {
    && (forall b :: b in arenas ==> Span(arenas[b]) >= 1 && (arenas[b].Small? ==> arenas[b].k < CLASSES))
    && (forall v :: v in cover ==> Covers(arenas, cover[v], v))
    && (forall b, v :: Covers(arenas, b, v) ==> v in cover && cover[v] == b)
  }

  ghost predicate NoRepeats(list: seq<nat>) {
    forall i, j :: 0 <= i < j < |list| ==> list[i] != list[j]
  }

  /** A free list holds blocks of its class, each once. */
  ghost predicate ListOk(arenas: map<nat, Arena>, list: seq<nat>, k: nat)
    requires k < CLASSES
  {
    && NoRepeats(list)
    && (forall a :: a in list ==>
          IsBlock(a, k) && PageOf(a) in arenas && arenas[PageOf(a)].Small? && arenas[PageOf(a)].k == k)
  }

  ghost function FreeIn(list: seq<nat>, page: nat): set<nat> {
    set a | a in list && PageOf(a) == page
  }

  /** An arena's count is the number of its blocks on the free list. */
  ghost predicate CntOk(arenas: map<nat, Arena>, free: seq<seq<nat>>)
    requires |free| == CLASSES
  {
    forall b :: b in arenas && arenas[b].Small? && arenas[b].k < CLASSES ==>
        arenas[b].cnt == |FreeIn(free[arenas[b].k], b)|
  }

  /** A pointer that malloc has given out: a block that is not free, or the memory behind a large header. */
  ghost predicate IsLive(arenas: map<nat, Arena>, free: seq<seq<nat>>, a: nat)
    requires |free| == CLASSES
  {
    PageOf(a) in arenas &&
      match arenas[PageOf(a)]
      case Small(k, _) => k < CLASSES && IsBlock(a, k) && a !in free[k]
      case Large(_) => a % PG == HEADER
      case Raw(_) => false
  }

  /** The bytes that belong to a pointer. */
  function Granted(arenas: map<nat, Arena>, a: nat): int
    requires PageOf(a) in arenas
  {
    match arenas[PageOf(a)]
    case Small(k, _) => if k < CLASSES then Size(k) else 0
    case Large(pages) => PG * pages - HEADER
    case Raw(_) => 0
  }

  ghost predicate LiveOk(arenas: map<nat, Arena>, free: seq<seq<nat>>, live: map<nat, nat>)
    requires |free| == CLASSES
  {
    && (forall a :: a in live ==> IsLive(arenas, free, a) && 0 < live[a] <= Granted(arenas, a))
    && (forall a :: IsLive(arenas, free, a) ==> a in live)
  }

  /** Every small arena but those in `page` has a block in use. */
  ghost predicate BusyBut(arenas: map<nat, Arena>, page: nat) {
    forall b :: b in arenas && arenas[b].Small? && arenas[b].k < CLASSES && b != page ==>
        arenas[b].cnt < Per(arenas[b].k)
  }

  ghost predicate Loose(s: Store) {
    && |s.free| == CLASSES && CoverOk(s.arenas, s.cover)
    && (forall k :: 0 <= k < CLASSES ==> ListOk(s.arenas, s.free[k], k))
    && CntOk(s.arenas, s.free) && LiveOk(s.arenas, s.free, s.live)
  }

  ghost predicate Inv(s: Store) {
    && Loose(s)
    && forall b :: b in s.arenas && s.arenas[b].Small? ==> s.arenas[b].cnt < Per(s.arenas[b].k)
  }

  // ---------------------------------------------------------------- what the invariant says

  /** Live regions lie in their arena's pages, behind its header. */
  lemma LiveInside(s: Store, a: nat)
    requires Inv(s) && a in s.live
    ensures var b := PageOf(a);
            && b in s.arenas && PG * b + HEADER <= a && a + Granted(s.arenas, a) <= PG * (b + Span(s.arenas[b]))
            && 0 < s.live[a] <= Granted(s.arenas, a)
  {
    assert IsLive(s.arenas, s.free, a);
    match s.arenas[PageOf(a)]
    case Small(k, _) => BlockOfAddr(a, k);
    case Large(_) =>
  }

  /** Different arenas have different pages. */
  lemma ArenasApart(s: Store, b: nat, c: nat)
    requires Loose(s) && b in s.arenas && c in s.arenas && b < c
    ensures b + Span(s.arenas[b]) <= c
  {
    assert Covers(s.arenas, c, c);
    assert !Covers(s.arenas, b, c);
  }

  /** Two live regions never overlap, whatever their kinds. */
  lemma LiveApart(s: Store, a: nat, c: nat)
    requires Inv(s) && a in s.live && c in s.live && a < c
    ensures a + Granted(s.arenas, a) <= c
  {
    LiveInside(s, a);
    LiveInside(s, c);
    var b, d := PageOf(a), PageOf(c);
    if b == d {
      match s.arenas[b]
      case Small(k, _) => BlocksApart(a, c, k);
      case Large(_) =>
    } else {
      ArenasApart(s, b, d);
    }
  }

  /** A live region is clear of every header, of every free block and of every page of get_kernel_page. */
  lemma LiveIsClear(s: Store, a: nat, b: nat)
    requires Inv(s) && a in s.live && b in s.arenas
    ensures s.arenas[b].Raw? ==> a + Granted(s.arenas, a) <= PG * b || PG * (b + Span(s.arenas[b])) <= a
    ensures !s.arenas[b].Raw? ==> a + Granted(s.arenas, a) <= PG * b || PG * b + HEADER <= a
    ensures forall k, f :: 0 <= k < CLASSES && f in s.free[k] ==> a + Granted(s.arenas, a) <= f || f + Size(k) <= a
  {
    LiveInside(s, a);
    var p := PageOf(a);
    if b < p { ArenasApart(s, b, p); } else if p < b { ArenasApart(s, p, b); }
    forall k, f | 0 <= k < CLASSES && f in s.free[k] ensures a + Granted(s.arenas, a) <= f || f + Size(k) <= a {
      FreeApart(s, a, k, f);
    }
  }

  lemma FreeApart(s: Store, a: nat, k: nat, f: nat)
    requires Inv(s) && a in s.live && k < CLASSES && f in s.free[k]
    ensures a + Granted(s.arenas, a) <= f || f + Size(k) <= a
  {
    LiveInside(s, a);
    var p, q := PageOf(a), PageOf(f);
    assert ListOk(s.arenas, s.free[k], k);
    BlockOfAddr(f, k);
    if p == q {
      BlocksApart(a, f, k);
    } else if p < q {
      ArenasApart(s, p, q);
    } else {
      ArenasApart(s, q, p);
    }
  }

  /** Every small arena has a live block. */
  lemma SmallHasLive(s: Store, b: nat) returns (a: nat)
    requires Inv(s) && b in s.arenas && s.arenas[b].Small?
    ensures a in s.live && PageOf(a) == b
  {
    var k := s.arenas[b].k;
    AllBlocks(b, k);
    var all, used := FirstBlocks(b, k, Per(k)), FreeIn(s.free[k], b);
    assert all <= used ==> used == all + (used - all);
    a :| a in all && a !in used;
    assert IsLive(s.arenas, s.free, a);
  }

  lemma ArenaHasLive(s: Store, b: nat) returns (a: nat)
    requires Inv(s) && b in s.arenas && !s.arenas[b].Raw?
    ensures a in s.live
  {
    if s.arenas[b].Small? {
      a := SmallHasLive(s, b);
    } else {
      a := PG * b + HEADER;
      assert IsLive(s.arenas, s.free, a);
    }
  }

  lemma ListHasArena(s: Store, k: nat) returns (b: nat)
    requires Inv(s) && k < CLASSES
    ensures s.free[k] != [] ==> b in s.arenas && s.arenas[b].Small?
  {
    assert ListOk(s.arenas, s.free[k], k);
    b := if s.free[k] == [] then 0 else PageOf(s.free[k][0]);
  }

  /** When nothing is live only the pages of get_kernel_page are in use and all free lists are empty. */
  lemma NothingLive(s: Store)
    requires Inv(s) && s.live == map[]
    ensures forall b :: b in s.arenas ==> s.arenas[b].Raw?
    ensures forall k :: 0 <= k < CLASSES ==> s.free[k] == []
  {
    forall b | b in s.arenas ensures s.arenas[b].Raw? {
      if !s.arenas[b].Raw? { var a := ArenaHasLive(s, b); }
    }
    forall k | 0 <= k < CLASSES ensures s.free[k] == [] {
      var b := ListHasArena(s, k);
    }
  }

  // ---------------------------------------------------------------- a page becomes an arena of blocks

  /** The blocks of a fresh arena in the order they are appended to the free list. */
  function Blocks(page: nat, k: nat): (list: seq<nat>)
    requires k < CLASSES
    ensures |list| == Per(k) && forall i :: 0 <= i < |list| ==> list[i] == BlockAddr(page, k, i)
  {
    seq(Per(k), i requires 0 <= i < Per(k) => BlockAddr(page, k, i))
  }

  lemma BlocksAreBlocks(page: nat, k: nat)
    requires k < CLASSES
    ensures NoRepeats(Blocks(page, k))
    ensures forall a :: a in Blocks(page, k) <==> IsBlock(a, k) && PageOf(a) == page
  {
    forall i | 0 <= i < Per(k)
      ensures IsBlock(BlockAddr(page, k, i), k) && PageOf(BlockAddr(page, k, i)) == page
      ensures IndexOf(BlockAddr(page, k, i), k) == i
    {
      BlockRoundTrip(page, k, i);
    }
    forall a | IsBlock(a, k) && PageOf(a) == page ensures a in Blocks(page, k) {
      BlockOfAddr(a, k);
      assert Blocks(page, k)[IndexOf(a, k)] == a;
    }
  }

  function NewSmall(s: Store, b: nat, k: nat): Store
    requires k < CLASSES == |s.free|
  {
    s.(arenas := s.arenas[b := Small(k, Per(k))], free := s.free[k := s.free[k] + Blocks(b, k)],
        cover := s.cover[b := b])
  }

  lemma CoverNew(arenas: map<nat, Arena>, cover: map<nat, nat>, b: nat, a: Arena, cover': map<nat, nat>)
    requires CoverOk(arenas, cover) && Span(a) >= 1 && (a.Small? ==> a.k < CLASSES)
    requires forall v :: b <= v < b + Span(a) ==> v !in cover
    requires forall v :: v in cover' <==> v in cover || b <= v < b + Span(a)
    requires forall v :: v in cover' ==> cover'[v] == if b <= v < b + Span(a) then b else cover[v]
    ensures b !in arenas && CoverOk(arenas[b := a], cover')
  {
    assert !Covers(arenas, b, b);
    var arenas' := arenas[b := a];
    forall c, v | Covers(arenas', c, v) ensures v in cover' && cover'[v] == c {
      assert c != b ==> Covers(arenas, c, v);
    }
    forall v | v in cover' ensures Covers(arenas', cover'[v], v) {
      assert v in cover ==> Covers(arenas, cover[v], v);
    }
  }

  lemma FreeInNone(s: Store, k: nat, b: nat)
    requires Loose(s) && k < CLASSES && b !in s.arenas
    ensures FreeIn(s.free[k], b) == {}
  {
    assert ListOk(s.arenas, s.free[k], k);
  }

  lemma FreeInConcat(x: seq<nat>, y: seq<nat>, b: nat)
    ensures FreeIn(x + y, b) == FreeIn(x, b) + FreeIn(y, b)
  {
  }

  lemma NewSmallLists(s: Store, b: nat, k: nat, j: nat)
    requires Loose(s) && b !in s.arenas && k < CLASSES && j < CLASSES
    ensures ListOk(NewSmall(s, b, k).arenas, NewSmall(s, b, k).free[j], j)
  {
    assert ListOk(s.arenas, s.free[j], j);
    if j == k {
      BlocksAreBlocks(b, k);
      var list := s.free[k] + Blocks(b, k);
      forall x, y | 0 <= x < y < |list| ensures list[x] != list[y] {
        if x < |s.free[k]| <= y { assert s.free[k][x] in s.free[k] && list[y] in Blocks(b, k); }
      }
    }
  }

  lemma FreshCount(b: nat, k: nat)
    requires k < CLASSES
    ensures |FreeIn(Blocks(b, k), b)| == Per(k) && forall c :: c != b ==> FreeIn(Blocks(b, k), c) == {}
  {
    BlocksAreBlocks(b, k);
    AllBlocks(b, k);
    assert FreeIn(Blocks(b, k), b) == FirstBlocks(b, k, Per(k));
  }

  lemma NewSmallCounts(s: Store, b: nat, k: nat)
    requires Loose(s) && b !in s.arenas && k < CLASSES
    ensures CntOk(NewSmall(s, b, k).arenas, NewSmall(s, b, k).free)
  {
    var t := NewSmall(s, b, k);
    FreshCount(b, k);
    FreeInNone(s, k, b);
    forall c | c in t.arenas && t.arenas[c].Small? && t.arenas[c].k < CLASSES
      ensures |FreeIn(t.free[t.arenas[c].k], c)| == t.arenas[c].cnt
    {
      if t.arenas[c].k == k {
        FreeInConcat(s.free[k], Blocks(b, k), c);
        assert c == b ==> FreeIn(t.free[k], c) == FreeIn(Blocks(b, k), c);
        assert c != b ==> FreeIn(t.free[k], c) == FreeIn(s.free[k], c);
      }
    }
  }

  lemma NewSmallLive(s: Store, b: nat, k: nat)
    requires Loose(s) && b !in s.arenas && k < CLASSES
    ensures LiveOk(NewSmall(s, b, k).arenas, NewSmall(s, b, k).free, s.live)
  {
    var t := NewSmall(s, b, k);
    BlocksAreBlocks(b, k);
    forall a ensures IsLive(t.arenas, t.free, a) <==> IsLive(s.arenas, s.free, a) {
    }
  }

  lemma NewSmallLoose(s: Store, b: nat, k: nat)
    requires Loose(s) && b !in s.cover && k < CLASSES
    ensures Loose(NewSmall(s, b, k)) && b !in s.arenas
  {
    var t := NewSmall(s, b, k);
    CoverNew(s.arenas, s.cover, b, Small(k, Per(k)), t.cover);
    forall j | 0 <= j < CLASSES ensures ListOk(t.arenas, t.free[j], j) { NewSmallLists(s, b, k, j); }
    NewSmallCounts(s, b, k);
    NewSmallLive(s, b, k);
  }

  // ---------------------------------------------------------------- a block is given out, a block comes back

  function Recounted(arenas: map<nat, Arena>, b: nat, cnt: nat): map<nat, Arena>
    requires b in arenas && arenas[b].Small?
  {
    arenas[b := Small(arenas[b].k, cnt)]
  }

  /** The head of the free list of class k is given out for `size` bytes. */
  function TakeBlock(s: Store, k: nat, size: nat): Store
    requires k < CLASSES == |s.free| && s.free[k] != []
    requires var b := PageOf(s.free[k][0]); b in s.arenas && s.arenas[b].Small? && s.arenas[b].cnt > 0
  {
    var a := s.free[k][0];
    var b := PageOf(a);
    s.(arenas := Recounted(s.arenas, b, s.arenas[b].cnt - 1), free := s.free[k := s.free[k][1..]],
        live := s.live[a := size])
  }

  lemma HeadCounts(s: Store, k: nat)
    requires Loose(s) && k < CLASSES && s.free[k] != []
    ensures var b := PageOf(s.free[k][0]);
            && b in s.arenas && s.arenas[b].Small? && s.arenas[b].k == k && s.arenas[b].cnt > 0
            && IsBlock(s.free[k][0], k)
            && |FreeIn(s.free[k][1..], b)| == s.arenas[b].cnt - 1
    ensures forall c :: c != PageOf(s.free[k][0]) ==> FreeIn(s.free[k][1..], c) == FreeIn(s.free[k], c)
    ensures s.free[k][0] !in s.free[k][1..]
  {
    assert ListOk(s.arenas, s.free[k], k);
    var a, rest := s.free[k][0], s.free[k][1..];
    var b := PageOf(a);
    assert s.free[k] == [a] + rest;
    assert a in s.free[k];
    assert FreeIn(s.free[k], b) == FreeIn(rest, b) + {a};
    assert a !in rest;
    forall c | c != b ensures FreeIn(rest, c) == FreeIn(s.free[k], c) {
    }
  }

  /** Recounting an arena keeps the cover and, with the list changed inside that class only, the others. */
  lemma RecountedCover(arenas: map<nat, Arena>, cover: map<nat, nat>, b: nat, cnt: nat)
    requires CoverOk(arenas, cover) && b in arenas && arenas[b].Small?
    ensures CoverOk(Recounted(arenas, b, cnt), cover)
  {
    var t := Recounted(arenas, b, cnt);
    forall c, v ensures Covers(t, c, v) <==> Covers(arenas, c, v) {
    }
  }

  lemma RecountedLists(s: Store, b: nat, cnt: nat, j: nat)
    requires Loose(s) && b in s.arenas && s.arenas[b].Small? && j < CLASSES
    ensures ListOk(Recounted(s.arenas, b, cnt), s.free[j], j)
  {
    assert ListOk(s.arenas, s.free[j], j);
  }

  lemma TakeBlockLive(s: Store, k: nat, size: nat)
    requires Loose(s) && k < CLASSES && s.free[k] != [] && 0 < size <= Size(k)
    ensures var b := PageOf(s.free[k][0]); b in s.arenas && s.arenas[b].Small? && s.arenas[b].cnt > 0
    ensures var t := TakeBlock(s, k, size); LiveOk(t.arenas, t.free, t.live)
  {
    HeadCounts(s, k);
    var t := TakeBlock(s, k, size);
    var a := s.free[k][0];
    forall x ensures IsLive(t.arenas, t.free, x) <==> x == a || IsLive(s.arenas, s.free, x) {
      assert s.free[k] == [a] + t.free[k];
    }
  }

  lemma TakeBlockLists(s: Store, k: nat, size: nat)
    requires Loose(s) && k < CLASSES && s.free[k] != []
    ensures var b := PageOf(s.free[k][0]); b in s.arenas && s.arenas[b].Small? && s.arenas[b].cnt > 0
    ensures var t := TakeBlock(s, k, size);
            CntOk(t.arenas, t.free) && forall j :: 0 <= j < CLASSES ==> ListOk(t.arenas, t.free[j], j)
  {
    HeadCounts(s, k);
    var t := TakeBlock(s, k, size);
    var b := PageOf(s.free[k][0]);
    forall j | 0 <= j < CLASSES ensures ListOk(t.arenas, t.free[j], j) {
      RecountedLists(s, b, s.arenas[b].cnt - 1, j);
      if j == k { assert s.free[k] == [s.free[k][0]] + t.free[k]; }
    }
  }

  lemma TakeBlockKeeps(s: Store, k: nat, size: nat)
    requires Loose(s) && k < CLASSES && s.free[k] != [] && 0 < size <= Size(k)
    requires BusyBut(s.arenas, PageOf(s.free[k][0]))
    ensures var b := PageOf(s.free[k][0]); b in s.arenas && s.arenas[b].Small? && s.arenas[b].cnt > 0
    ensures Inv(TakeBlock(s, k, size)) && s.free[k][0] !in s.live
  {
    HeadCounts(s, k);
    var b := PageOf(s.free[k][0]);
    RecountedCover(s.arenas, s.cover, b, s.arenas[b].cnt - 1);
    TakeBlockLists(s, k, size);
    CountAtMost(s, b);
    TakeBlockLive(s, k, size);
    assert s.free[k][0] in s.free[k] && !IsLive(s.arenas, s.free, s.free[k][0]);
  }

  lemma CountAtMost(s: Store, b: nat)
    requires Loose(s) && b in s.arenas && s.arenas[b].Small?
    ensures s.arenas[b].cnt <= Per(s.arenas[b].k)
    ensures s.arenas[b].cnt == Per(s.arenas[b].k) ==> forall a :: IsBlock(a, s.arenas[b].k) && PageOf(a) == b ==>
              a in s.free[s.arenas[b].k]
  {
    var k := s.arenas[b].k;
    AllBlocks(b, k);
    var all, used := FirstBlocks(b, k, Per(k)), FreeIn(s.free[k], b);
    assert ListOk(s.arenas, s.free[k], k);
    assert used <= all;
    assert all == used + (all - used);
    if s.arenas[b].cnt == Per(k) {
      assert all == used;
    }
  }

  /** A live block of a small arena goes to the tail of its free list. */
  function PutBlock(s: Store, a: nat): Store
    requires |s.free| == CLASSES && PageOf(a) in s.arenas && s.arenas[PageOf(a)].Small?
    requires s.arenas[PageOf(a)].k < CLASSES
  {
    var b := PageOf(a);
    var k := s.arenas[b].k;
    s.(arenas := Recounted(s.arenas, b, s.arenas[b].cnt + 1), free := s.free[k := s.free[k] + [a]],
        live := s.live - {a})
  }

  lemma PutBlockLists(s: Store, a: nat)
    requires Loose(s) && a in s.live && PageOf(a) in s.arenas && s.arenas[PageOf(a)].Small?
    ensures var t := PutBlock(s, a);
            CntOk(t.arenas, t.free) && forall j :: 0 <= j < CLASSES ==> ListOk(t.arenas, t.free[j], j)
  {
    assert IsLive(s.arenas, s.free, a);
    var t, b := PutBlock(s, a), PageOf(a);
    var k := s.arenas[b].k;
    forall c ensures FreeIn(t.free[k], c) == if c == b then FreeIn(s.free[k], c) + {a} else FreeIn(s.free[k], c) {
      FreeInConcat(s.free[k], [a], c);
      assert FreeIn([a], c) == if c == b then {a} else {};
    }
    assert a !in s.free[k];
    forall j | 0 <= j < CLASSES ensures ListOk(t.arenas, t.free[j], j) {
      RecountedLists(s, b, s.arenas[b].cnt + 1, j);
    }
  }

  lemma PutBlockLive(s: Store, a: nat)
    requires Loose(s) && a in s.live && PageOf(a) in s.arenas && s.arenas[PageOf(a)].Small?
    ensures var t := PutBlock(s, a); LiveOk(t.arenas, t.free, t.live)
  {
    assert IsLive(s.arenas, s.free, a);
    var t := PutBlock(s, a);
    forall x ensures IsLive(t.arenas, t.free, x) <==> x != a && IsLive(s.arenas, s.free, x) {
    }
  }

  lemma PutBlockKeeps(s: Store, a: nat)
    requires Loose(s) && a in s.live && PageOf(a) in s.arenas && s.arenas[PageOf(a)].Small?
    ensures Loose(PutBlock(s, a))
  {
    RecountedCover(s.arenas, s.cover, PageOf(a), s.arenas[PageOf(a)].cnt + 1);
    PutBlockLists(s, a);
    PutBlockLive(s, a);
  }

  // ---------------------------------------------------------------- an arena is given back

  /** A list without the blocks of one page. */
  function WithoutPage(list: seq<nat>, page: nat): (r: seq<nat>)
    ensures forall a :: a in r <==> a in list && PageOf(a) != page
  {
    if list == [] then [] else
      if PageOf(list[0]) == page then WithoutPage(list[1..], page) else [list[0]] + WithoutPage(list[1..], page)
  }

  lemma {:induction false} WithoutPageDistinct(list: seq<nat>, page: nat)
    requires NoRepeats(list)
    ensures NoRepeats(WithoutPage(list, page))
  {
    if list != [] {
      var tail := list[1..];
      assert forall i :: 0 <= i < |tail| ==> tail[i] == list[i + 1];
      WithoutPageDistinct(tail, page);
      assert list[0] !in tail;
      assert list[0] !in WithoutPage(tail, page);
    }
  }

  /** list_remove of one element. */
  function Remove(list: seq<nat>, x: nat): seq<nat> {
    if list == [] then [] else if list[0] == x then list[1..] else [list[0]] + Remove(list[1..], x)
  }

  /** The list after the first n blocks of the page have been removed. */
  function WithoutBlocks(list: seq<nat>, page: nat, k: nat, n: nat): (r: seq<nat>)
    requires k < CLASSES
    ensures forall a :: a in r ==> a in list
  {
    if list == [] then [] else
      var rest := WithoutBlocks(list[1..], page, k, n);
      if PageOf(list[0]) == page && IsBlock(list[0], k) && IndexOf(list[0], k) < n then rest else [list[0]] + rest
  }

  lemma {:induction false} WithoutNoBlocks(list: seq<nat>, page: nat, k: nat)
    requires k < CLASSES
    ensures WithoutBlocks(list, page, k, 0) == list
  {
    if list != [] { WithoutNoBlocks(list[1..], page, k); }
  }

  lemma {:induction false} RemoveAbsent(list: seq<nat>, x: nat)
    requires x !in list
    ensures Remove(list, x) == list
  {
    if list != [] { RemoveAbsent(list[1..], x); }
  }

  lemma {:induction false} RemoveNextBlock(list: seq<nat>, page: nat, k: nat, n: nat)
    requires k < CLASSES && n < Per(k) && NoRepeats(list)
    ensures Remove(WithoutBlocks(list, page, k, n), BlockAddr(page, k, n)) == WithoutBlocks(list, page, k, n + 1)
  {
    if list != [] {
      var x, head, tail := BlockAddr(page, k, n), list[0], list[1..];
      BlockRoundTrip(page, k, n);
      assert forall i :: 0 <= i < |tail| ==> tail[i] == list[i + 1];
      assert head !in tail;
      RemoveNextBlock(tail, page, k, n);
      if head == x {
        RemoveAbsent(WithoutBlocks(tail, page, k, n), x);
      } else if PageOf(head) == page && IsBlock(head, k) {
        BlockOfAddr(head, k);
      }
    }
  }

  /** Removing the blocks one after the other removes the page's elements. */
  lemma {:induction false} WithoutAllBlocks(list: seq<nat>, page: nat, k: nat)
    requires k < CLASSES && forall a :: a in list ==> IsBlock(a, k)
    ensures WithoutBlocks(list, page, k, Per(k)) == WithoutPage(list, page)
  {
    if list != [] { WithoutAllBlocks(list[1..], page, k); }
  }

  function DropSmall(s: Store, b: nat): Store
    requires |s.free| == CLASSES && b in s.arenas && s.arenas[b].Small? && s.arenas[b].k < CLASSES
  {
    var k := s.arenas[b].k;
    s.(arenas := s.arenas - {b}, free := s.free[k := WithoutPage(s.free[k], b)], cover := s.cover - {b})
  }

  lemma CoverDrop(arenas: map<nat, Arena>, cover: map<nat, nat>, b: nat, cover': map<nat, nat>)
    requires CoverOk(arenas, cover) && b in arenas
    requires forall v :: v in cover' <==> v in cover && !(b <= v < b + Span(arenas[b]))
    requires forall v :: v in cover' ==> cover'[v] == cover[v]
    ensures CoverOk(arenas - {b}, cover')
  {
    var arenas' := arenas - {b};
    forall c, v ensures Covers(arenas', c, v) <==> Covers(arenas, c, v) && c != b {
    }
    forall c, v | Covers(arenas', c, v) ensures v in cover' {
      assert Covers(arenas, c, v) && !Covers(arenas, b, v);
    }
  }

  lemma DropSmallLists(s: Store, b: nat)
    requires Loose(s) && b in s.arenas && s.arenas[b].Small?
    ensures var t := DropSmall(s, b);
            CntOk(t.arenas, t.free) && forall j :: 0 <= j < CLASSES ==> ListOk(t.arenas, t.free[j], j)
  {
    var t := DropSmall(s, b);
    var k := s.arenas[b].k;
    forall j | 0 <= j < CLASSES ensures ListOk(t.arenas, t.free[j], j) {
      assert ListOk(s.arenas, s.free[j], j);
      if j == k { WithoutPageDistinct(s.free[k], b); }
    }
    forall c | c != b ensures FreeIn(t.free[k], c) == FreeIn(s.free[k], c) {
    }
  }

  lemma DropSmallLive(s: Store, b: nat)
    requires Loose(s) && b in s.arenas && s.arenas[b].Small? && s.arenas[b].cnt == Per(s.arenas[b].k)
    ensures var t := DropSmall(s, b); LiveOk(t.arenas, t.free, t.live)
  {
    CountAtMost(s, b);
    var t := DropSmall(s, b);
    forall x ensures IsLive(t.arenas, t.free, x) <==> IsLive(s.arenas, s.free, x) {
    }
  }

  lemma DropSmallKeeps(s: Store, b: nat)
    requires Loose(s) && BusyBut(s.arenas, b) && b in s.arenas && s.arenas[b].Small?
    requires s.arenas[b].cnt == Per(s.arenas[b].k)
    ensures Inv(DropSmall(s, b))
  {
    CoverDrop(s.arenas, s.cover, b, s.cover - {b});
    DropSmallLists(s, b);
    DropSmallLive(s, b);
  }

  // ---------------------------------------------------------------- whole runs of pages

  function CoverRun(cover: map<nat, nat>, b: nat, pages: nat): (r: map<nat, nat>)
    ensures forall v :: v in r <==> v in cover || b <= v < b + pages
    ensures forall v :: v in r ==> r[v] == if b <= v < b + pages then b else cover[v]
  {
    if pages == 0 then cover else CoverRun(cover, b, pages - 1)[b + pages - 1 := b]
  }

  function UncoverRun(cover: map<nat, nat>, b: nat, pages: nat): (r: map<nat, nat>)
    ensures forall v :: v in r <==> v in cover && !(b <= v < b + pages)
    ensures forall v :: v in r ==> r[v] == cover[v]
  {
    if pages == 0 then cover else UncoverRun(cover, b, pages - 1) - {b + pages - 1}
  }

  function NewLarge(s: Store, b: nat, pages: nat, size: nat): Store {
    s.(arenas := s.arenas[b := Large(pages)], cover := CoverRun(s.cover, b, pages),
        live := s.live[PG * b + HEADER := size])
  }

  function NewRaw(s: Store, b: nat, pages: nat): Store {
    s.(arenas := s.arenas[b := Raw(pages)], cover := CoverRun(s.cover, b, pages))
  }

  function DropLarge(s: Store, b: nat): Store
    requires b in s.arenas
  {
    s.(arenas := s.arenas - {b}, cover := UncoverRun(s.cover, b, Span(s.arenas[b])), live := s.live - {PG * b + HEADER})
  }

  /** Adding or dropping an arena that is not small leaves lists and counts alone. */
  lemma ListsWithout(s: Store, arenas: map<nat, Arena>, b: nat)
    requires Loose(s) && (b in s.arenas ==> !s.arenas[b].Small?) && (b in arenas ==> !arenas[b].Small?)
    requires forall c :: c != b ==> (c in arenas <==> c in s.arenas) && (c in arenas ==> arenas[c] == s.arenas[c])
    ensures CntOk(arenas, s.free) && forall j :: 0 <= j < CLASSES ==> ListOk(arenas, s.free[j], j)
  {
    forall j | 0 <= j < CLASSES ensures ListOk(arenas, s.free[j], j) {
      assert ListOk(s.arenas, s.free[j], j);
    }
  }

  lemma NewLargeLive(s: Store, b: nat, pages: nat, size: nat)
    requires Inv(s) && pages >= 1 && b !in s.arenas && 0 < size <= PG * pages - HEADER
    ensures var t := NewLarge(s, b, pages, size); LiveOk(t.arenas, t.free, t.live)
    ensures PG * b + HEADER !in s.live
  {
    var t := NewLarge(s, b, pages, size);
    var a: nat := PG * b + HEADER;
    assert PageOf(a) == b && a % PG == HEADER;
    forall x: nat ensures IsLive(t.arenas, t.free, x) <==> x == a || IsLive(s.arenas, s.free, x) {
      if PageOf(x) == b && x % PG == HEADER { assert x == a; }
    }
  }

  lemma NewLargeKeeps(s: Store, b: nat, pages: nat, size: nat)
    requires Inv(s) && pages >= 1 && (forall v :: b <= v < b + pages ==> v !in s.cover)
    requires 0 < size <= PG * pages - HEADER
    ensures Inv(NewLarge(s, b, pages, size)) && b !in s.arenas && PG * b + HEADER !in s.live
  {
    var t := NewLarge(s, b, pages, size);
    CoverNew(s.arenas, s.cover, b, Large(pages), t.cover);
    ListsWithout(s, t.arenas, b);
    NewLargeLive(s, b, pages, size);
  }

  lemma NewRawKeeps(s: Store, b: nat, pages: nat)
    requires Inv(s) && pages >= 1 && forall v :: b <= v < b + pages ==> v !in s.cover
    ensures Inv(NewRaw(s, b, pages)) && b !in s.arenas
  {
    var t := NewRaw(s, b, pages);
    CoverNew(s.arenas, s.cover, b, Raw(pages), t.cover);
    ListsWithout(s, t.arenas, b);
    forall x ensures IsLive(t.arenas, t.free, x) <==> IsLive(s.arenas, s.free, x) {
    }
  }

  lemma DropLargeKeeps(s: Store, b: nat)
    requires Inv(s) && b in s.arenas && s.arenas[b].Large?
    ensures Inv(DropLarge(s, b))
  {
    var t := DropLarge(s, b);
    CoverDrop(s.arenas, s.cover, b, t.cover);
    ListsWithout(s, t.arenas, b);
    forall x ensures IsLive(t.arenas, t.free, x) <==> x != PG * b + HEADER && IsLive(s.arenas, s.free, x) {
    }
  }
}
