/** A mounted partition: its sectors, its block bitmap, its inodes, and who owns which block. */
module Volume {
  import opened Disk
  import opened Bitmap

  const DIRECT := 12
  const MAX_BLOCKS := 140
  const MAX_BYTES := 71680
  const INODE_BYTES := 76
  const MAX_FILES := 4096
  const TABLE_SECTS := 608

  /** struct inode without its list links; `sectors` are the 12 direct blocks and the indirect table. */
  datatype Inode = Inode(no: nat, size: nat, openCount: nat, writeDeny: bool, sectors: seq<nat>)

  /** The partition's layout as the super block gives it; `blocks` is the number of data blocks. */
  datatype Geometry = Geometry(bitmapLba: nat, bitmapSects: nat, inodeBitmapLba: nat, tableLba: nat, dataStart: nat,
      blocks: nat)

  /** Index 0..139 is a logical block of the file, 140 its indirect table. */
  datatype Slot = Slot(ino: nat, index: nat)

  const TABLE := 140

  datatype Vol = Vol(disk: seq<Sector>, bits: seq<bool>, inodes: map<nat, Inode>, owner: map<nat, Slot>, geo: Geometry)

  // ---------------------------------------------------------------- the block bitmap

  function FreeBelow(bits: seq<bool>, n: nat): nat
    requires n <= |bits|
  {
    if n == 0 then 0 else FreeBelow(bits, n - 1) + (if bits[n - 1] then 0 else 1)
  }

  lemma {:induction false} FreeBelowZero(bits: seq<bool>, n: nat)
    requires n <= |bits|
    ensures FreeBelow(bits, n) == 0 <==> n <= LowestClear(bits)
    ensures FreeBelow(bits, n) <= n
  {
    if n > 0 { FreeBelowZero(bits, n - 1); }
  }

  lemma {:induction false} FreeBelowSet(bits: seq<bool>, n: nat, i: nat)
    requires n <= |bits| && i < |bits| && !bits[i]
    ensures FreeBelow(bits[i := true], n) == FreeBelow(bits, n) - if i < n then 1 else 0
  {
    if n > 0 { FreeBelowSet(bits, n - 1, i); }
  }

  /** The blocks that bitmap_set can mark and that lie in the partition. */
  function Limit(geo: Geometry): nat {
    if geo.blocks < 2048 then geo.blocks else 2048
  }

  /** The next k allocations stay below the limit, or run into a full map. */
  ghost predicate AllocSafe(bits: seq<bool>, limit: nat, k: nat)
    requires limit <= |bits|
  {
    FreeBelow(bits, limit) >= k || forall i :: limit <= i < |bits| ==> bits[i]
  }

  /** block_bitmap_alloc on the map: the index it returns and the map it leaves. */
  function AllocIndex(bits: seq<bool>): nat {
    LowestClear(bits)
  }

  function AllocBits(bits: seq<bool>): seq<bool>
    requires LowestClear(bits) < |bits|
  {
    Bitmap.SetBit(bits, LowestClear(bits), true)
  }

  /** Two allocations in a row return different blocks exactly when the first one lies below 2048:
      beyond that the 8-bit byte index marks a bit that is set already. */
  lemma AllocIsFresh(bits: seq<bool>)
    requires LowestClear(bits) < |bits|
    ensures AllocIndex(AllocBits(bits)) != AllocIndex(bits) <==> AllocIndex(bits) < 2048
    ensures AllocIndex(bits) >= 2048 ==> AllocBits(bits) == bits
  {
    var f := LowestClear(bits);
    var j := Bitmap.Target(f);
    assert AllocBits(bits) == bits[j := true];
    if f >= 2048 {
      assert j < f && bits[j];
      assert bits[j := true] == bits;
    } else {
      assert bits[j := true][f];
    }
  }

  lemma AllocStep(bits: seq<bool>, limit: nat, k: nat)
    requires limit <= |bits| && limit <= 2048 && AllocSafe(bits, limit, k) && k > 0
    ensures FreeBelow(bits, limit) == 0 <==> LowestClear(bits) == |bits|
    ensures FreeBelow(bits, limit) > 0 ==>
              && LowestClear(bits) < limit && AllocBits(bits) == bits[LowestClear(bits) := true]
              && FreeBelow(AllocBits(bits), limit) == FreeBelow(bits, limit) - 1
              && AllocSafe(AllocBits(bits), limit, k - 1)
  {
    FreeBelowZero(bits, limit);
    if FreeBelow(bits, limit) > 0 { FreeBelowSet(bits, limit, LowestClear(bits)); }
  }

  /** The next k allocations, as far as the map does not stop them, return blocks below the limit. */
  ghost predicate AllocsInside(bits: seq<bool>, limit: nat, k: nat)
    decreases k
  {
    k == 0 || LowestClear(bits) == |bits| || (LowestClear(bits) < limit && AllocsInside(AllocBits(bits), limit, k - 1))
  }

  /** AllocSafe, which looks at the map once, says exactly that. */
  lemma {:induction false} AllocSafeIsExact(bits: seq<bool>, limit: nat, k: nat)
    requires limit <= |bits| && limit <= 2048
    ensures AllocsInside(bits, limit, k) <==> AllocSafe(bits, limit, k)
    decreases k
  {
    var f := LowestClear(bits);
    FreeBelowZero(bits, limit);
    if k > 0 && f < limit {
      FreeBelowSet(bits, limit, f);
      assert AllocBits(bits) == bits[f := true];
      assert forall i :: limit <= i < |bits| ==> AllocBits(bits)[i] == bits[i];
      AllocSafeIsExact(AllocBits(bits), limit, k - 1);
    }
  }

  // ---------------------------------------------------------------- bits on disk

  function BitValue(b: bool): nat {
    if b then 1 else 0
  }

  /** m bits from n on, the lowest first. */
  function Pack(bits: seq<bool>, n: nat, m: nat): nat
    requires n + m <= |bits|
    decreases m
  {
    if m == 0 then 0 else BitValue(bits[n]) + 2 * Pack(bits, n + 1, m - 1)
  }

  lemma {:induction false} PackBound(bits: seq<bool>, n: nat, m: nat, bound: nat)
    requires n + m <= |bits| && Doublings(m) <= bound
    ensures Pack(bits, n, m) < bound
    decreases m
  {
    if m > 0 { PackBound(bits, n + 1, m - 1, Doublings(m - 1)); }
  }

  function Doublings(m: nat): (r: nat)
    ensures r > 0
  {
    if m == 0 then 1 else 2 * Doublings(m - 1)
  }

  function PackByte(bits: seq<bool>, k: nat): Byte
    requires k + 8 <= |bits|
  {
    assert Doublings(2) == 4 && Doublings(4) == 16 && Doublings(6) == 64 && Doublings(8) == 256;
    PackBound(bits, k, 8, 256);
    Pack(bits, k, 8)
  }

  lemma HalfOfByte(b: bv8)
    ensures b as int == BitValue(b & 1 != 0) + 2 * ((b >> 1) as int)
  {
  }

  lemma BitOfHalf(b: bv8, k: nat)
    requires k < 7
    ensures Bit(b >> 1, k) == Bit(b, k + 1)
  {
  }

  lemma {:induction false} PackOfByte(bits: seq<bool>, n: nat, m: nat, b: bv8)
    requires n + m <= |bits| && m <= 8 && b as int < Doublings(m)
    requires forall k :: 0 <= k < m ==> bits[n + k] == Bit(b, k)
    ensures Pack(bits, n, m) == b as int
    decreases m
  {
    if m > 0 {
      var half := b >> 1;
      HalfOfByte(b);
      assert bits[n] == Bit(b, 0);
      forall k | 0 <= k < m - 1 ensures bits[n + 1 + k] == Bit(half, k) {
        assert bits[n + (k + 1)] == Bit(b, k + 1);
        BitOfHalf(b, k);
      }
      PackOfByte(bits, n + 1, m - 1, half);
    }
  }

  /** The bitmap goes to the disk as the bytes that it is in memory. */
  lemma PackedIsMemory(bytes: seq<bv8>, j: nat)
    requires j < |bytes|
    ensures PackByte(Bits(bytes), 8 * j) == bytes[j] as int
  {
    assert Doublings(2) == 4 && Doublings(4) == 16 && Doublings(6) == 64 && Doublings(8) == 256;
    forall k | 0 <= k < 8 ensures Bits(bytes)[8 * j + k] == Bit(bytes[j], k) {
      assert (8 * j + k) / 8 == j && (8 * j + k) % 8 == k;
    }
    PackOfByte(Bits(bytes), 8 * j, 8, bytes[j]);
  }

  /** The 512 bytes that hold bits 4096 * s and up. */
  function BitmapSector(bits: seq<bool>, s: nat): (sector: Sector)
    requires 4096 * (s + 1) <= |bits|
    ensures forall j :: 0 <= j < 512 ==> sector[j] == PackByte(bits, 4096 * s + 8 * j)
  {
    seq(512, j requires 0 <= j < 512 => PackByte(bits, 4096 * s + 8 * j))
  }

  /** The bitmap on disk is the bitmap in memory. */
  ghost predicate Synced(disk: seq<Sector>, bits: seq<bool>, geo: Geometry) {
    && |bits| == 4096 * geo.bitmapSects && geo.bitmapLba + geo.bitmapSects <= |disk|
    && forall s :: 0 <= s < geo.bitmapSects ==> disk[geo.bitmapLba + s] == BitmapSector(bits, s)
  }

  /** A remounted bitmap is the one that was synced: its bytes determine its bits. */
  lemma SyncedIsFaithful(disk: seq<Sector>, a: seq<bool>, b: seq<bool>, geo: Geometry)
    requires Synced(disk, a, geo) && Synced(disk, b, geo)
    ensures a == b
  {
    forall i | 0 <= i < |a| ensures a[i] == b[i] {
      var s := i / 4096;
      assert disk[geo.bitmapLba + s] == BitmapSector(a, s) && disk[geo.bitmapLba + s] == BitmapSector(b, s);
      SectorInjective(a, b, s, i % 4096);
    }
  }

  lemma SectorInjective(a: seq<bool>, b: seq<bool>, s: nat, i: nat)
    requires 4096 * (s + 1) <= |a| && 4096 * (s + 1) <= |b| && i < 4096 && BitmapSector(a, s) == BitmapSector(b, s)
    ensures a[4096 * s + i] == b[4096 * s + i]
  {
    var j, n := i / 8, 4096 * s + 8 * (i / 8);
    assert BitmapSector(a, s)[j] == PackByte(a, n) && BitmapSector(b, s)[j] == PackByte(b, n);
    PackInjective(a, b, n, 8, i % 8);
    assert n + i % 8 == 4096 * s + i;
  }

  lemma {:induction false} PackInjective(a: seq<bool>, b: seq<bool>, n: nat, m: nat, k: nat)
    requires n + m <= |a| && n + m <= |b| && k < m && Pack(a, n, m) == Pack(b, n, m)
    ensures a[n + k] == b[n + k]
    decreases m
  {
    if k > 0 { PackInjective(a, b, n + 1, m - 1, k - 1); }
  }

  // ---------------------------------------------------------------- files on blocks

  function Used(inode: Inode): nat
    requires |inode.sectors| == 13
  {
    if inode.sectors[0] == 0 then 0 else inode.size / 512 + 1
  }

  ghost predicate HasSlot(inode: Inode, i: nat)
    requires |inode.sectors| == 13
  {
    if i < DIRECT then inode.sectors[i] != 0
    else if i < MAX_BLOCKS then inode.sectors[12] != 0 && i < inode.size / 512 + 1
    else i == TABLE && inode.sectors[12] != 0
  }

  /** The sector of logical block i, or of the indirect table. */
  function LbaAt(disk: seq<Sector>, inode: Inode, i: nat): nat
    requires |inode.sectors| == 13 && i <= TABLE
    requires DIRECT <= i < MAX_BLOCKS ==> inode.sectors[12] < |disk|
  {
    if i < DIRECT then inode.sectors[i] else if i < MAX_BLOCKS then Word(disk[inode.sectors[12]], i - DIRECT)
    else inode.sectors[12]
  }

  /** Every block of the inode is recorded as its own. */
  ghost predicate Owned(disk: seq<Sector>, owner: map<nat, Slot>, n: nat, inode: Inode) {
    && |inode.sectors| == 13
    && (inode.sectors[12] != 0 ==> inode.sectors[12] < |disk|)
    && forall i :: 0 <= i <= TABLE && HasSlot(inode, i) ==>
         LbaAt(disk, inode, i) in owner && owner[LbaAt(disk, inode, i)] == Slot(n, i)
  }

  /** A regular file between operations: blocks 0 to size / 512 exist once something was written,
      and the table exists exactly when they are more than 12. */
  ghost predicate Regular(inode: Inode) {
    && |inode.sectors| == 13 && inode.size < MAX_BYTES
    && (inode.sectors[0] == 0 ==> inode.size == 0)
    && (forall i :: 0 <= i < DIRECT ==> (inode.sectors[i] != 0 <==> i < Used(inode)))
    && (inode.sectors[12] != 0 <==> Used(inode) > DIRECT)
  }

  function BlocksOf(disk: seq<Sector>, inode: Inode): (blocks: seq<nat>)
    requires |inode.sectors| == 13 && Used(inode) <= MAX_BLOCKS
    requires Used(inode) > DIRECT ==> inode.sectors[12] < |disk|
    ensures |blocks| == Used(inode)
  {
    seq(Used(inode), i requires 0 <= i < Used(inode) => LbaAt(disk, inode, i))
  }

  /** The blocks, read in order, begin with data. */
  ghost predicate Holds(disk: seq<Sector>, blocks: seq<nat>, data: seq<Byte>) {
    && |data| <= 512 * |blocks|
    && (forall i :: 0 <= i < |blocks| ==> blocks[i] < |disk|)
    && (forall j :: 0 <= j < |data| ==> disk[blocks[j / 512]][j % 512] == data[j])
  }

  /** The file's bytes are data. */
  ghost predicate FileIs(disk: seq<Sector>, inode: Inode, data: seq<Byte>) {
    && Regular(inode) && (inode.sectors[12] != 0 ==> inode.sectors[12] < |disk|)
    && |data| == inode.size && Holds(disk, BlocksOf(disk, inode), data)
  }

  ghost predicate GeoOk(geo: Geometry, sectors: nat, nbits: nat) {
    && 0 < geo.bitmapLba && 1 <= geo.bitmapSects && geo.bitmapLba + geo.bitmapSects <= geo.inodeBitmapLba
    && geo.inodeBitmapLba < geo.tableLba && geo.tableLba + TABLE_SECTS <= geo.dataStart
    && 0 < geo.blocks <= nbits && geo.dataStart + geo.blocks <= sectors && sectors < MAX32
  }

  /** Owned blocks are marked, in the partition and below the limit. */
  ghost predicate OwnerOk(owner: map<nat, Slot>, bits: seq<bool>, geo: Geometry)
    requires geo.blocks <= |bits|
  {
    forall l :: l in owner ==> geo.dataStart <= l < geo.dataStart + Limit(geo) && bits[l - geo.dataStart]
  }

  ghost predicate Inv(v: Vol) {
    && GeoOk(v.geo, |v.disk|, |v.bits|) && v.bits[0] && Synced(v.disk, v.bits, v.geo) && OwnerOk(v.owner, v.bits, v.geo)
    && forall n :: n in v.inodes ==> n < MAX_FILES && v.inodes[n].no == n && Owned(v.disk, v.owner, n, v.inodes[n])
  }

  /** No block serves two purposes: two slots with the same sector are the same slot. */
  lemma BlocksAreDistinct(v: Vol, m: nat, i: nat, n: nat, j: nat)
    requires Inv(v) && m in v.inodes && n in v.inodes && i <= TABLE && j <= TABLE
    requires HasSlot(v.inodes[m], i) && HasSlot(v.inodes[n], j)
    requires LbaAt(v.disk, v.inodes[m], i) == LbaAt(v.disk, v.inodes[n], j)
    ensures m == n && i == j
  {
    assert Owned(v.disk, v.owner, m, v.inodes[m]) && Owned(v.disk, v.owner, n, v.inodes[n]);
  }

  /** Every block in use lies in the data region and is marked in memory and on disk. */
  lemma BlocksAreMarked(v: Vol, n: nat, i: nat)
    requires Inv(v) && n in v.inodes && i <= TABLE && HasSlot(v.inodes[n], i)
    ensures var l := LbaAt(v.disk, v.inodes[n], i);
            v.geo.dataStart <= l < v.geo.dataStart + v.geo.blocks && v.bits[l - v.geo.dataStart]
  {
    assert Owned(v.disk, v.owner, n, v.inodes[n]);
  }

  /** A file's contents are determined by the disk. */
  lemma ContentsUnique(disk: seq<Sector>, inode: Inode, a: seq<Byte>, b: seq<Byte>)
    requires FileIs(disk, inode, a) && FileIs(disk, inode, b)
    ensures a == b
  {
  }

  // ---------------------------------------------------------------- steps of the proofs

  /** Appending inside block i, whose bytes before `off` are kept. */
  lemma HoldsMore(disk: seq<Sector>, blocks: seq<nat>, data: seq<Byte>, i: nat, off: nat, chunk: seq<Byte>,
                  sector: Sector)
    requires Holds(disk, blocks, data) && |data| == 512 * i + off && off < 512 && i < |blocks| && off + |chunk| <= 512
    requires forall a, b :: 0 <= a < b < |blocks| ==> blocks[a] != blocks[b]
    requires forall k :: 0 <= k < off ==> sector[k] == disk[blocks[i]][k]
    requires forall k :: 0 <= k < |chunk| ==> sector[off + k] == chunk[k]
    ensures Holds(disk[blocks[i] := sector], blocks, data + chunk)
  {
    var disk', data' := disk[blocks[i] := sector], data + chunk;
    forall j | 0 <= j < |data'| ensures disk'[blocks[j / 512]][j % 512] == data'[j] {
      if j / 512 == i {
        assert j % 512 == j - 512 * i;
      } else {
        assert j < |data|;
      }
    }
  }

  /** Blocks that other sectors' writes leave alone hold what they held. */
  lemma HoldsFrame(disk: seq<Sector>, disk': seq<Sector>, blocks: seq<nat>, data: seq<Byte>)
    requires Holds(disk, blocks, data) && |disk| <= |disk'|
    requires forall i :: 0 <= i < |blocks| ==> disk'[blocks[i]] == disk[blocks[i]]
    ensures Holds(disk', blocks, data)
  {
  }

  lemma FileFrame(v: Vol, disk': seq<Sector>, n: nat, data: seq<Byte>)
    requires Inv(v) && n in v.inodes && FileIs(v.disk, v.inodes[n], data) && |disk'| == |v.disk|
    requires forall l :: l in v.owner && v.owner[l].ino == n ==> disk'[l] == v.disk[l]
    ensures FileIs(disk', v.inodes[n], data)
  {
    var inode := v.inodes[n];
    assert Owned(v.disk, v.owner, n, inode);
    if inode.sectors[12] != 0 {
      assert HasSlot(inode, TABLE);
      assert LbaAt(v.disk, inode, TABLE) in v.owner;
    }
    var blocks := BlocksOf(v.disk, inode);
    forall i | 0 <= i < |blocks| ensures disk'[blocks[i]] == v.disk[blocks[i]] {
      assert HasSlot(inode, i);
    }
    HoldsFrame(v.disk, disk', blocks, data);
    assert BlocksOf(disk', inode) == blocks;
  }
}
