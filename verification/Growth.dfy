/** What file_write does to a volume between taking the first block and storing the inode, as lemmas. */
module Growth {
  import opened Disk
  import opened Volume
  import opened Inodes
  import opened Bitmap

  // ---------------------------------------------------------------- blocks being added to a file

  /** The blocks B and the table T (0 if there is none) are recorded as those of inode n. */
  ghost predicate Claims(owner: map<nat, Slot>, n: nat, B: seq<nat>, T: nat) {
    && (forall i :: 0 <= i < |B| ==> B[i] in owner && owner[B[i]] == Slot(n, i))
    && (T != 0 ==> T in owner && owner[T] == Slot(n, TABLE))
  }

  /** The inode in memory lists the direct ones among B and the table T. */
  ghost predicate Listed(inode: Inode, B: seq<nat>, T: nat) {
    && |inode.sectors| == 13 && inode.sectors[12] == T && |B| <= MAX_BLOCKS
    && forall i :: 0 <= i < DIRECT ==> inode.sectors[i] == if i < |B| then B[i] else 0
  }

  /** The indirect entries of B are in the table's sector. */
  ghost predicate Tabled(disk: seq<Sector>, B: seq<nat>, T: nat) {
    && |B| <= MAX_BLOCKS
    && (T != 0 <==> |B| > DIRECT) && (T != 0 ==> T < |disk|)
    && forall i :: DIRECT <= i < |B| ==> Word(disk[T], i - DIRECT) == B[i]
  }

  /** Everything but inode n is in order. */
  ghost predicate OthersOk(v: Vol, n: nat) {
    && GeoOk(v.geo, |v.disk|, |v.bits|) && v.bits[0] && OwnerOk(v.owner, v.bits, v.geo) && n in v.inodes
    && forall m :: m in v.inodes ==>
          m < MAX_FILES && v.inodes[m].no == m && (m != n ==> Owned(v.disk, v.owner, m, v.inodes[m]))
  }

  /** From a to b inode n has only been given blocks: no block changed hands, and on disk only the
      first bitmap sector and the inode's table may differ. */
  ghost predicate OnlyGrew(a: Vol, b: Vol, n: nat) {
    && a.geo == b.geo && |a.disk| == |b.disk| && |a.bits| == |b.bits| && n in a.inodes && n in b.inodes
    && b.inodes == a.inodes[n := b.inodes[n]] && b.inodes[n] == a.inodes[n].(sectors := b.inodes[n].sectors)
    && (forall l :: l in a.owner ==> l in b.owner && b.owner[l] == a.owner[l])
    && (forall l :: 0 <= l < |a.disk| && l != a.geo.bitmapLba && !(l in b.owner && b.owner[l] == Slot(n, TABLE)) ==>
          b.disk[l] == a.disk[l])
    && (forall l :: l in b.owner && l !in a.owner ==> b.owner[l].ino == n)
  }

  lemma OnlyGrewTrans(a: Vol, b: Vol, c: Vol, n: nat)
    requires OnlyGrew(a, b, n) && OnlyGrew(b, c, n)
    ensures OnlyGrew(a, c, n)
  {
  }

  /** Between two bitmap_syncs only the first sector of the bitmap on disk is behind. */
  ghost predicate SyncedBeyond(disk: seq<Sector>, bits: seq<bool>, geo: Geometry) {
    && |bits| == 4096 * geo.bitmapSects && geo.bitmapLba + geo.bitmapSects <= |disk|
    && forall s :: 1 <= s < geo.bitmapSects ==> disk[geo.bitmapLba + s] == BitmapSector(bits, s)
  }

  /** A change below bit 4096 shows in the first sector of the bitmap only. */
  lemma FirstSectorOnly(bits: seq<bool>, f: nat, s: nat)
    requires f < 4096 <= |bits| && 1 <= s && 4096 * (s + 1) <= |bits|
    ensures BitmapSector(bits[f := true], s) == BitmapSector(bits, s)
  {
    SectorFrame(bits, bits[f := true], s);
  }

  lemma SectorFrame(a: seq<bool>, b: seq<bool>, s: nat)
    requires 4096 * (s + 1) <= |a| == |b| && forall i :: 4096 * s <= i < 4096 * (s + 1) ==> a[i] == b[i]
    ensures BitmapSector(a, s) == BitmapSector(b, s)
  {
    var x, y := BitmapSector(a, s), BitmapSector(b, s);
    forall j | 0 <= j < 512 ensures x[j] == y[j] {
      ByteFrame(a, b, 4096 * s + 8 * j);
    }
  }

  lemma ByteFrame(a: seq<bool>, b: seq<bool>, k: nat)
    requires k + 8 <= |a| == |b| && forall i :: k <= i < k + 8 ==> a[i] == b[i]
    ensures PackByte(a, k) == PackByte(b, k)
  {
    PackFrame(a, b, k, 8);
  }

  lemma {:induction false} PackFrame(a: seq<bool>, b: seq<bool>, n: nat, m: nat)
    requires n + m <= |a| && n + m <= |b| && forall i :: n <= i < n + m ==> a[i] == b[i]
    ensures Pack(a, n, m) == Pack(b, n, m)
    decreases m
  {
    if m > 0 { PackFrame(a, b, n + 1, m - 1); }
  }

  /** Allocating a block as the index-th of inode n, with or without bitmap_sync. */
  ghost function Taken(v: Vol, n: nat, index: nat, sync: bool): Vol
    requires LowestClear(v.bits) < |v.bits| && |v.bits| >= 4096 && v.geo.bitmapLba < |v.disk|
  {
    var bits := AllocBits(v.bits);
    v.(bits := bits, owner := v.owner[v.geo.dataStart + AllocIndex(v.bits) := Slot(n, index)],
       disk := if sync then v.disk[v.geo.bitmapLba := BitmapSector(bits, 0)] else v.disk)
  }

  lemma TakenOthers(v: Vol, n: nat, index: nat, sync: bool, f: nat)
    requires OthersOk(v, n) && |v.bits| >= 4096 && v.geo.bitmapLba < |v.disk|
    requires f == LowestClear(v.bits) < Limit(v.geo) && AllocBits(v.bits) == v.bits[f := true]
    ensures v.geo.dataStart + f !in v.owner && 0 < v.geo.dataStart + f < |v.disk|
    ensures OthersOk(Taken(v, n, index, sync), n) && OnlyGrew(v, Taken(v, n, index, sync), n)
  {
    assert v.geo.dataStart + f !in v.owner;
    TakenOwned(v, n, index, sync, f);
  }

  lemma TakenOwned(v: Vol, n: nat, index: nat, sync: bool, f: nat)
    requires OthersOk(v, n) && |v.bits| >= 4096 && v.geo.bitmapLba < |v.disk|
    requires f == LowestClear(v.bits) < |v.bits| && v.geo.dataStart + f !in v.owner
    ensures var b := Taken(v, n, index, sync);
            forall m :: m in v.inodes && m != n ==> Owned(b.disk, b.owner, m, v.inodes[m])
  {
    var b := Taken(v, n, index, sync);
    forall m | m in v.inodes && m != n ensures Owned(b.disk, b.owner, m, v.inodes[m]) {
      OwnedFrame(v, b.disk, b.owner, m);
    }
  }

  lemma TakenSync(v: Vol, n: nat, index: nat, sync: bool, f: nat)
    requires SyncedBeyond(v.disk, v.bits, v.geo) && |v.bits| >= 4096
    requires f == LowestClear(v.bits) < 2048 && AllocBits(v.bits) == v.bits[f := true] && v.geo.bitmapLba < |v.disk|
    ensures var b := Taken(v, n, index, sync);
            SyncedBeyond(b.disk, b.bits, b.geo) && (sync ==> Synced(b.disk, b.bits, b.geo))
  {
    var b := Taken(v, n, index, sync);
    forall s | 1 <= s < v.geo.bitmapSects ensures b.disk[v.geo.bitmapLba + s] == BitmapSector(b.bits, s) {
      FirstSectorOnly(v.bits, f, s);
    }
  }

  /** The volume while the blocks B and the table T of inode n are being collected. */
  ghost predicate Growing(v: Vol, n: nat, B: seq<nat>, T: nat) {
    OthersOk(v, n) && SyncedBeyond(v.disk, v.bits, v.geo) && Listed(v.inodes[n], B, T) && Claims(v.owner, n, B, T)
  }

  /** The inode's block list with the new block entered, if it is a direct one or the table. */
  function Entered(sectors: seq<nat>, index: nat, lba: nat): (r: seq<nat>)
    requires |sectors| == 13
    ensures |r| == 13
  {
    if index < DIRECT then sectors[index := lba] else if index == TABLE then sectors[12 := lba] else sectors
  }

  /** The volume after a block was allocated for slot `index` of inode n and entered in the inode. */
  ghost function Extended(v: Vol, n: nat, index: nat, sync: bool): Vol
    requires LowestClear(v.bits) < |v.bits| && |v.bits| >= 4096 && v.geo.bitmapLba < |v.disk|
    requires n in v.inodes && |v.inodes[n].sectors| == 13
  {
    var inode := v.inodes[n];
    var lba := v.geo.dataStart + AllocIndex(v.bits);
    Taken(v, n, index, sync).(inodes := v.inodes[n := inode.(sectors := Entered(inode.sectors, index, lba))])
  }

  lemma ListedMore(inode: Inode, B: seq<nat>, T: nat, l: nat)
    requires Listed(inode, B, T) && |B| < MAX_BLOCKS
    ensures Listed(inode.(sectors := Entered(inode.sectors, |B|, l)), B + [l], T)
  {
  }

  lemma ClaimsMore(owner: map<nat, Slot>, n: nat, B: seq<nat>, T: nat, l: nat)
    requires Claims(owner, n, B, T) && l !in owner
    ensures Claims(owner[l := Slot(n, |B|)], n, B + [l], T)
  {
  }

  lemma GrowStep(v: Vol, n: nat, B: seq<nat>, T: nat, f: nat)
    requires Growing(v, n, B, T) && |B| < MAX_BLOCKS
    requires f == LowestClear(v.bits) < Limit(v.geo) && AllocBits(v.bits) == v.bits[f := true]
    ensures Growing(Extended(v, n, |B|, true), n, B + [v.geo.dataStart + f], T)
    ensures OnlyGrew(v, Extended(v, n, |B|, true), n)
  {
    var l: nat := v.geo.dataStart + f;
    var t, b := Taken(v, n, |B|, true), Extended(v, n, |B|, true);
    var B': seq<nat> := B + [l];
    TakenOthers(v, n, |B|, true, f);
    TakenSync(v, n, |B|, true, f);
    ListedMore(v.inodes[n], B, T, l);
    ClaimsMore(v.owner, n, B, T, l);
    SectorStep(v, t, b, n, B', T);
  }

  lemma GrownBy(v: Vol, b: Vol, n: nat, B: seq<nat>, T: nat, lba: nat)
    requires Growing(v, n, B, T) && |B| < MAX_BLOCKS && LowestClear(v.bits) < Limit(v.geo)
    requires AllocBits(v.bits) == v.bits[LowestClear(v.bits) := true]
    requires b == Extended(v, n, |B|, true) && lba == v.geo.dataStart + LowestClear(v.bits)
    ensures Growing(b, n, B + [lba], T) && Synced(b.disk, b.bits, b.geo) && OnlyGrew(v, b, n)
    ensures b.bits == AllocBits(v.bits)
  {
    GrowStep(v, n, B, T, LowestClear(v.bits));
    TakenSync(v, n, |B|, true, LowestClear(v.bits));
  }

  /** Entering a block in the inode touches nothing else. */
  lemma SectorStep(v: Vol, t: Vol, b: Vol, n: nat, B: seq<nat>, T: nat)
    requires OthersOk(t, n) && OnlyGrew(v, t, n) && SyncedBeyond(t.disk, t.bits, t.geo)
    requires n in b.inodes && b == t.(inodes := t.inodes[n := b.inodes[n]])
    requires b.inodes[n] == t.inodes[n].(sectors := b.inodes[n].sectors)
    requires Listed(b.inodes[n], B, T) && Claims(t.owner, n, B, T)
    ensures Growing(b, n, B, T) && OnlyGrew(v, b, n)
  {
    SectorKeepsOthers(t, b, n);
  }

  lemma SectorKeepsOthers(v: Vol, b: Vol, n: nat)
    requires OthersOk(v, n) && n in b.inodes && b.inodes[n].no == n && b == v.(inodes := v.inodes[n := b.inodes[n]])
    ensures OthersOk(b, n)
  {
  }

  lemma TableStep(v: Vol, b: Vol, n: nat, B: seq<nat>, lba: nat)
    requires Growing(v, n, B, 0) && LowestClear(v.bits) < Limit(v.geo)
    requires AllocBits(v.bits) == v.bits[LowestClear(v.bits) := true]
    requires b == Extended(v, n, TABLE, false) && lba == v.geo.dataStart + LowestClear(v.bits)
    ensures Growing(b, n, B, lba) && lba != 0 && OnlyGrew(v, b, n) && b.bits == AllocBits(v.bits)
  {
    var f, t := LowestClear(v.bits), Taken(v, n, TABLE, false);
    TakenOthers(v, n, TABLE, false, f);
    TakenSync(v, n, TABLE, false, f);
    SectorStep(v, t, b, n, B, lba);
  }

  /** Writing the table completes it. */
  lemma TableWritten(v: Vol, n: nat, B: seq<nat>, T: nat, all: seq<nat>, sector: Sector)
    requires Growing(v, n, B, T) && Synced(v.disk, v.bits, v.geo) && DIRECT < |B| && T != 0 && |all| == MAX_BLOCKS
    requires sector == Encode(all[DIRECT..]) && forall i :: DIRECT <= i < |B| ==> all[i] == B[i]
    ensures T < |v.disk|
    ensures var b := v.(disk := v.disk[T := sector]);
            Growing(b, n, B, T) && Synced(b.disk, b.bits, b.geo) && Tabled(b.disk, B, T) && OnlyGrew(v, b, n)
  {
    var b := v.(disk := v.disk[T := sector]);
    forall m | m in v.inodes && m != n ensures Owned(b.disk, b.owner, m, v.inodes[m]) {
      OwnedFrame(v, b.disk, b.owner, m);
    }
    forall i | DIRECT <= i < |B| ensures B[i] < MAX32 {
      assert B[i] in v.owner;
    }
    EncodedTable(B, all, sector);
  }

  lemma EncodedTable(B: seq<nat>, all: seq<nat>, sector: Sector)
    requires |all| == MAX_BLOCKS && |B| <= MAX_BLOCKS && sector == Encode(all[DIRECT..])
    requires forall i :: DIRECT <= i < |B| ==> all[i] == B[i] && B[i] < MAX32
    ensures forall i :: DIRECT <= i < |B| ==> Word(sector, i - DIRECT) == B[i]
  {
    forall i | DIRECT <= i < |B| ensures Word(sector, i - DIRECT) == B[i] {
      EncodedWord(all[DIRECT..], i - DIRECT);
    }
  }

  /** A regular file's blocks before anything is added. */
  lemma Begin(v: Vol, n: nat)
    requires Inv(v) && n in v.inodes && Regular(v.inodes[n])
    ensures var inode := v.inodes[n];
            && (inode.sectors[12] != 0 ==> inode.sectors[12] < |v.disk|)
            && Growing(v, n, BlocksOf(v.disk, inode), inode.sectors[12])
            && Tabled(v.disk, BlocksOf(v.disk, inode), inode.sectors[12])
            && OnlyGrew(v, v, n)
  {
    var inode := v.inodes[n];
    assert Owned(v.disk, v.owner, n, inode);
    var B := BlocksOf(v.disk, inode);
    forall i | 0 <= i < |B| ensures B[i] in v.owner && v.owner[B[i]] == Slot(n, i) {
      assert HasSlot(inode, i);
    }
    if inode.sectors[12] != 0 {
      assert HasSlot(inode, TABLE);
      assert LbaAt(v.disk, inode, TABLE) == inode.sectors[12];
    }
  }

  /** What file_write has when all blocks are collected: B extends B0 to `will` blocks, on disk and in
      memory, and all_blocks has those from `lo` on. */
  ghost predicate Gathered(a: Vol, b: Vol, n: nat, B0: seq<nat>, B: seq<nat>, T: nat, all: seq<nat>, lo: nat,
                           will: nat) {
    && Growing(b, n, B, T) && Synced(b.disk, b.bits, b.geo) && Tabled(b.disk, B, T) && OnlyGrew(a, b, n)
    && |B| == will && B0 <= B && |all| == MAX_BLOCKS && forall i :: lo <= i < will ==> all[i] == B[i]
  }

  /** The blocks that writing count bytes takes from the bitmap. */
  function Needed(inode: Inode, count: nat): nat
    requires |inode.sectors| == 13
  {
    var has, will := inode.size / 512 + 1, (inode.size + count) / 512 + 1;
    (if inode.sectors[0] == 0 then 1 else 0) + (will - has) + (if has <= 12 < will then 1 else 0)
  }

  /** An inode keeps its blocks when its table, if any, is not written and the record only grows. */
  lemma OwnedFrame(v: Vol, disk': seq<Sector>, owner': map<nat, Slot>, m: nat)
    requires GeoOk(v.geo, |v.disk|, |v.bits|) && OwnerOk(v.owner, v.bits, v.geo)
    requires m in v.inodes && Owned(v.disk, v.owner, m, v.inodes[m]) && |disk'| == |v.disk|
    requires forall l :: l in v.owner ==> l in owner' && owner'[l] == v.owner[l]
    requires forall l :: l in v.owner && v.owner[l] == Slot(m, TABLE) ==> disk'[l] == v.disk[l]
    ensures Owned(disk', owner', m, v.inodes[m])
  {
    var inode := v.inodes[m];
    if inode.sectors[12] != 0 {
      assert HasSlot(inode, TABLE);
      assert v.owner[LbaAt(v.disk, inode, TABLE)] == Slot(m, TABLE);
    }
  }

  /** Other inodes keep their blocks and what is in them. */
  ghost predicate OthersKept(a: Vol, b: Vol, n: nat) {
    && b.geo == a.geo && |b.disk| == |a.disk| && n in a.inodes && n in b.inodes
    && b.inodes == a.inodes[n := b.inodes[n]]
    && (forall l :: l in a.owner ==> l in b.owner && b.owner[l] == a.owner[l])
    && (forall l :: l in b.owner && l !in a.owner ==> b.owner[l].ino == n)
    && (forall l :: l in a.owner && a.owner[l].ino != n && l < |a.disk| ==> b.disk[l] == a.disk[l])
  }

  lemma OtherFilesKept(a: Vol, b: Vol, n: nat, m: nat, data: seq<Byte>)
    requires Inv(a) && OthersKept(a, b, n) && m in a.inodes && m != n && FileIs(a.disk, a.inodes[m], data)
    ensures m in b.inodes && FileIs(b.disk, b.inodes[m], data)
  {
    FileFrame(a, b.disk, m, data);
  }

  /** Collecting blocks leaves the file's bytes where they were. */
  lemma HoldsGrown(a: Vol, b: Vol, n: nat, B: seq<nat>, T: nat, was: seq<Byte>)
    requires Inv(a) && OnlyGrew(a, b, n) && Growing(b, n, B, T) && FileIs(a.disk, a.inodes[n], was)
    requires BlocksOf(a.disk, a.inodes[n]) <= B
    ensures Holds(b.disk, B, was)
  {
    var B0 := BlocksOf(a.disk, a.inodes[n]);
    forall i | 0 <= i < |B| ensures B[i] < |b.disk| && B[i] != b.geo.bitmapLba && b.owner[B[i]] != Slot(n, TABLE) {
      assert B[i] in b.owner;
    }
    forall j | 0 <= j < |was| ensures b.disk[B[j / 512]][j % 512] == was[j] {
      assert B[j / 512] == B0[j / 512];
    }
  }

  lemma BlocksDiffer(owner: map<nat, Slot>, n: nat, B: seq<nat>, T: nat)
    requires Claims(owner, n, B, T) && |B| <= MAX_BLOCKS
    ensures (forall a, b :: 0 <= a < b < |B| ==> B[a] != B[b]) && (T != 0 ==> T !in B)
  {
  }

  /** A file grown to B, its blocks filled and its inode stored, is a regular file again. */
  lemma FinishFile(v: Vol, n: nat, B: seq<nat>, T: nat, disk': seq<Sector>, inode: Inode, data: seq<Byte>)
    requires Growing(v, n, B, T) && Tabled(v.disk, B, T) && |disk'| == |v.disk|
    requires inode == v.inodes[n].(size := |data|) && |data| < MAX_BYTES && |B| == |data| / 512 + 1
    requires T != 0 ==> disk'[T] == v.disk[T]
    requires Holds(disk', B, data)
    ensures FileIs(disk', inode, data) && Owned(disk', v.owner, n, inode)
  {
    forall i | 0 <= i < |B| ensures B[i] != 0 {
      assert B[i] in v.owner;
    }
    assert Used(inode) == |B|;
    forall i | 0 <= i <= TABLE && HasSlot(inode, i)
      ensures LbaAt(disk', inode, i) in v.owner && v.owner[LbaAt(disk', inode, i)] == Slot(n, i)
    {
      assert i == TABLE || LbaAt(disk', inode, i) == B[i];
    }
    assert BlocksOf(disk', inode) == B;
  }

  /** A block of inode n, or a sector of the inode table. */
  ghost predicate OwnOrTable(v: Vol, n: nat, l: nat) {
    (l in v.owner && v.owner[l].ino == n) || v.geo.tableLba <= l < v.geo.tableLba + TABLE_SECTS
  }

  lemma FinishOthers(v: Vol, n: nat, disk': seq<Sector>, inode: Inode)
    requires OthersOk(v, n) && Synced(v.disk, v.bits, v.geo) && |disk'| == |v.disk|
    requires inode.no == n && Owned(disk', v.owner, n, inode)
    requires forall l :: 0 <= l < |v.disk| && !OwnOrTable(v, n, l) ==> disk'[l] == v.disk[l]
    ensures Inv(v.(disk := disk', inodes := v.inodes[n := inode]))
  {
    var b := v.(disk := disk', inodes := v.inodes[n := inode]);
    forall m | m in b.inodes ensures m < MAX_FILES && b.inodes[m].no == m && Owned(b.disk, b.owner, m, b.inodes[m]) {
      if m != n { OwnedFrame(v, disk', v.owner, m); }
    }
    forall s | 0 <= s < b.geo.bitmapSects ensures b.disk[b.geo.bitmapLba + s] == BitmapSector(b.bits, s) {
      assert b.disk[b.geo.bitmapLba + s] == v.disk[b.geo.bitmapLba + s];
    }
  }

  /** What a successful file_write of buf at the end of file n makes of the volume: the file is longer by
      buf, every other file and every other slot of the inode table is as before, the new inode is in its
      slot, and exactly the needed blocks have left the bitmap. */
  ghost predicate Written(a: Vol, b: Vol, n: nat, was: seq<Byte>, buf: seq<Byte>)
    requires Inv(a)
  {
    && Inv(b) && OthersKept(a, b, n)
    && b.inodes[n] == a.inodes[n].(size := |was| + |buf|, sectors := b.inodes[n].sectors)
    && FileIs(b.disk, b.inodes[n], was + buf)
    && (forall l :: 0 <= l < a.geo.bitmapLba || a.geo.inodeBitmapLba <= l < a.geo.tableLba ==> b.disk[l] == a.disk[l])
    && (forall m :: 0 <= m < MAX_FILES ==>
          SlotBytes(b.disk, a.geo.tableLba, m) == if m == n then Bytes(b.inodes[n])
              else SlotBytes(a.disk, a.geo.tableLba, m))
  }

  lemma SlotsKept(a: Vol, b: Vol, n: nat, disk2: seq<Sector>, inode: Inode)
    requires Inv(a) && n < MAX_FILES && |inode.sectors| == 13 && |disk2| == |a.disk|
    requires forall l :: a.geo.tableLba <= l < a.geo.tableLba + TABLE_SECTS ==> disk2[l] == a.disk[l]
    requires SlotWritten(disk2, b.disk, a.geo.tableLba, n, Bytes(inode))
    ensures |b.disk| == |a.disk|
    ensures forall m :: 0 <= m < MAX_FILES ==>
              SlotBytes(b.disk, a.geo.tableLba, m) == if m == n then Bytes(inode)
                  else SlotBytes(a.disk, a.geo.tableLba, m)
  {
    forall m | 0 <= m < MAX_FILES
      ensures SlotBytes(b.disk, a.geo.tableLba, m) == if m == n then Bytes(inode)
                else SlotBytes(a.disk, a.geo.tableLba, m)
    {
      SlotsDoNotInterfere(disk2, b.disk, a.geo.tableLba, n, Bytes(inode), m);
      SlotBytesSame(a.disk, disk2, a.geo.tableLba, m);
    }
  }

  /** The volume was a and is v: file n, which holds was, has the blocks B and the table T for was + buf. */
  ghost predicate Filling(a: Vol, v: Vol, n: nat, B: seq<nat>, T: nat, was: seq<Byte>, buf: seq<Byte>) {
    && Inv(a) && n in a.inodes && OnlyGrew(a, v, n) && a.inodes[n].size == |was| && |was| + |buf| < MAX_BYTES
    && Growing(v, n, B, T) && Synced(v.disk, v.bits, v.geo) && Tabled(v.disk, B, T)
    && |B| == (|was| + |buf|) / 512 + 1
  }

  /** The volume was v and is b: the data has gone into B, which made the disk disk2, and the inode into its slot. */
  ghost predicate Filled(v: Vol, b: Vol, n: nat, B: seq<nat>, disk2: seq<Sector>, data: seq<Byte>)
    requires OthersOk(v, n) && |v.inodes[n].sectors| == 13
  {
    && |disk2| == |v.disk| && (forall l :: 0 <= l < |disk2| && l !in B ==> disk2[l] == v.disk[l])
    && Holds(disk2, B, data) && n in b.inodes && b.inodes[n] == v.inodes[n].(size := |data|)
    && b == v.(disk := b.disk, inodes := v.inodes[n := b.inodes[n]])
    && SlotWritten(disk2, b.disk, v.geo.tableLba, n, Bytes(b.inodes[n]))
  }

  /** The steps after the blocks are collected: data into B, inode into its slot. */
  lemma FinishWrite(a: Vol, v: Vol, b: Vol, n: nat, B: seq<nat>, T: nat, disk2: seq<Sector>, was: seq<Byte>,
                    buf: seq<Byte>)
    requires Filling(a, v, n, B, T, was, buf) && Filled(v, b, n, B, disk2, was + buf)
    ensures Written(a, b, n, was, buf)
  {
    FinishVolume(a, v, b, n, B, T, disk2, was, buf);
    FinishRest(a, v, b, n, B, T, disk2, was, buf);
  }

  lemma FinishVolume(a: Vol, v: Vol, b: Vol, n: nat, B: seq<nat>, T: nat, disk2: seq<Sector>, was: seq<Byte>,
                     buf: seq<Byte>)
    requires Filling(a, v, n, B, T, was, buf) && Filled(v, b, n, B, disk2, was + buf)
    ensures Inv(b) && FileIs(b.disk, b.inodes[n], was + buf)
  {
    FinishSectors(a, v, b, n, B, T, disk2);
    FinishContents(v, n, B, T, disk2, b.disk, b.inodes[n], was + buf);
    FinishOthers(v, n, b.disk, b.inodes[n]);
  }

  lemma FinishRest(a: Vol, v: Vol, b: Vol, n: nat, B: seq<nat>, T: nat, disk2: seq<Sector>, was: seq<Byte>,
                   buf: seq<Byte>)
    requires Filling(a, v, n, B, T, was, buf) && Filled(v, b, n, B, disk2, was + buf)
    ensures OthersKept(a, b, n)
    ensures forall l :: 0 <= l < a.geo.bitmapLba || a.geo.inodeBitmapLba <= l < a.geo.tableLba ==>
              b.disk[l] == a.disk[l]
    ensures forall m :: 0 <= m < MAX_FILES ==>
              SlotBytes(b.disk, a.geo.tableLba, m) == if m == n then Bytes(b.inodes[n])
                  else SlotBytes(a.disk, a.geo.tableLba, m)
  {
    FinishSectors(a, v, b, n, B, T, disk2);
    SlotsKept(a, b, n, disk2, b.inodes[n]);
  }

  lemma FinishContents(v: Vol, n: nat, B: seq<nat>, T: nat, disk2: seq<Sector>, disk3: seq<Sector>, inode: Inode,
                       data: seq<Byte>)
    requires Growing(v, n, B, T) && Tabled(v.disk, B, T) && |disk2| == |disk3| == |v.disk|
    requires inode == v.inodes[n].(size := |data|) && |data| < MAX_BYTES && |B| == |data| / 512 + 1
    requires T != 0 ==> disk3[T] == v.disk[T]
    requires Holds(disk2, B, data) && forall i :: 0 <= i < |B| && B[i] < |disk2| ==> disk3[B[i]] == disk2[B[i]]
    ensures FileIs(disk3, inode, data) && Owned(disk3, v.owner, n, inode)
  {
    HoldsFrame(disk2, disk3, B, data);
    FinishFile(v, n, B, T, disk3, inode, data);
  }

  lemma FinishSectors(a: Vol, v: Vol, b: Vol, n: nat, B: seq<nat>, T: nat, disk2: seq<Sector>)
    requires Inv(a) && n in a.inodes && OnlyGrew(a, v, n) && Growing(v, n, B, T)
    requires |disk2| == |v.disk| && (forall l :: 0 <= l < |disk2| && l !in B ==> disk2[l] == v.disk[l])
    requires n in b.inodes && |b.inodes[n].sectors| == 13
    requires SlotWritten(disk2, b.disk, a.geo.tableLba, n, Bytes(b.inodes[n]))
    ensures |b.disk| == |a.disk| && forall i :: 0 <= i < |B| ==> b.disk[B[i]] == disk2[B[i]]
    ensures T != 0 ==> T < |v.disk| && b.disk[T] == v.disk[T]
    ensures forall l :: a.geo.tableLba <= l < a.geo.tableLba + TABLE_SECTS ==> disk2[l] == a.disk[l]
    ensures forall l :: 0 <= l < |v.disk| && !OwnOrTable(v, n, l) ==> b.disk[l] == v.disk[l]
    ensures forall l :: l in a.owner && a.owner[l].ino != n && l < |a.disk| ==> b.disk[l] == a.disk[l]
  {
    BlocksDiffer(v.owner, n, B, T);
    forall i | 0 <= i < |B|
      ensures B[i] in v.owner && v.owner[B[i]].ino == n && B[i] >= v.geo.dataStart && b.disk[B[i]] == disk2[B[i]]
    {
    }
  }
}
