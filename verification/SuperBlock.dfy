/** fs/super_block.h and fs/fs.c: the super block, and the volume that mount_partition makes of a disk. */
module SuperBlock {
  import opened Disk
  import opened Volume
  import opened Inodes

  const MAGIC := 0x19980320
  const ROOT := 0
  const ENTRY_BYTES := 24
  const SUPER_FIELDS := 13

  /** The root directory's inode as partition_format stores it. */
  function RootInode(geo: Geometry): Inode {
    Inode(ROOT, 2 * ENTRY_BYTES, 0, false, [geo.dataStart] + seq(12, _ => 0))
  }

  lemma RootDecodes(slot: seq<Byte>, geo: Geometry)
    requires |slot| == INODE_BYTES && slot == Bytes(RootInode(geo)) && geo.dataStart < MAX32
    ensures FromBytes(slot) == RootInode(geo)
  {
    var root := RootInode(geo);
    assert Fits(root);
    BytesRoundTrip(root);
  }

  // ---------------------------------------------------------------- the super block

  /** The fields of struct super_block, in order. */
  function SuperField(geo: Geometry, start: nat, secCnt: nat, k: nat): nat {
    match k
    case 0 => MAGIC
    case 1 => secCnt
    case 2 => MAX_FILES
    case 3 => start
    case 4 => geo.bitmapLba
    case 5 => geo.bitmapSects
    case 6 => geo.inodeBitmapLba
    case 7 => 1
    case 8 => geo.tableLba
    case 9 => TABLE_SECTS
    case 10 => geo.dataStart
    case 11 => ROOT
    case _ => ENTRY_BYTES
  }

  function SuperWords(geo: Geometry, start: nat, secCnt: nat): (w: seq<nat>)
    ensures |w| == SUPER_FIELDS
  {
    seq(SUPER_FIELDS, k requires 0 <= k < SUPER_FIELDS => SuperField(geo, start, secCnt, k))
  }

  /** The sector of the super block; the padding is what the stack held. */
  function SuperSector(geo: Geometry, start: nat, secCnt: nat, pad: seq<Byte>): Sector
    requires |pad| == 460
  {
    Encode(SuperWords(geo, start, secCnt)) + pad
  }

  /** The layout that the operations take from the super block. The data region goes on to the partition's end. */
  function SuperGeometry(sector: Sector): Geometry {
    var end := Word(sector, 3) + Word(sector, 1);
    Geometry(Word(sector, 4), Word(sector, 5), Word(sector, 6), Word(sector, 8), Word(sector, 10),
             if end >= Word(sector, 10) then end - Word(sector, 10) else 0)
  }

  /** A super block of this file system with this layout. */
  ghost predicate Describes(s: Sector, geo: Geometry) {
    SuperGeometry(s) == geo && Word(s, 0) == MAGIC && Word(s, 7) == 1 && Word(s, 11) == ROOT
        && Word(s, 12) == ENTRY_BYTES
  }

  /** Where the fields of struct super_block lie, word by word. */
  ghost predicate SuperLayout(s: Sector, geo: Geometry, start: nat, secCnt: nat) {
    && Word(s, 0) == 0x1998_0320 && Word(s, 1) == secCnt && Word(s, 2) == 4096 && Word(s, 3) == start
    && Word(s, 4) == geo.bitmapLba && Word(s, 5) == geo.bitmapSects
    && Word(s, 6) == geo.inodeBitmapLba && Word(s, 7) == 1
    && Word(s, 8) == geo.tableLba && Word(s, 9) == 608
    && Word(s, 10) == geo.dataStart && Word(s, 11) == 0 && Word(s, 12) == 24
  }

  lemma SuperWord(geo: Geometry, start: nat, secCnt: nat, pad: seq<Byte>, k: nat)
    requires |pad| == 460 && k < SUPER_FIELDS && SuperField(geo, start, secCnt, k) < MAX32
    ensures Word(SuperSector(geo, start, secCnt, pad), k) == SuperField(geo, start, secCnt, k)
  {
    var w := SuperWords(geo, start, secCnt);
    EncodedWord(w, k);
    WordInFront(Encode(w), pad, k);
  }

  lemma WordInFront(b: seq<Byte>, rest: seq<Byte>, k: nat)
    requires 4 * k + 4 <= |b|
    ensures Word(b + rest, k) == Word(b, k)
  {
  }

  /** What partition_format stores in the super block is what a mount reads, and what filesys_init knows a
      formatted partition by. */
  lemma SuperRoundTrip(geo: Geometry, start: nat, secCnt: nat, pad: seq<Byte>)
    requires |pad| == 460 && start + secCnt < MAX32 && geo.dataStart + geo.blocks == start + secCnt
    requires geo.bitmapLba <= geo.dataStart && geo.bitmapSects <= geo.dataStart && geo.inodeBitmapLba <= geo.dataStart
    requires geo.tableLba <= geo.dataStart
    ensures Describes(SuperSector(geo, start, secCnt, pad), geo)
    ensures SuperLayout(SuperSector(geo, start, secCnt, pad), geo, start, secCnt)
  {
    var s := SuperSector(geo, start, secCnt, pad);
    forall k | 0 <= k < SUPER_FIELDS && SuperField(geo, start, secCnt, k) < MAX32
      ensures FieldRead(s, geo, start, secCnt, k)
    {
      SuperWord(geo, start, secCnt, pad, k);
    }
    FieldsRead(s, geo, start, secCnt);
  }

  ghost predicate FieldRead(s: Sector, geo: Geometry, start: nat, secCnt: nat, k: nat)
    requires k < SUPER_FIELDS
  {
    Word(s, k) == SuperField(geo, start, secCnt, k)
  }

  lemma FieldsRead(s: Sector, geo: Geometry, start: nat, secCnt: nat)
    requires forall k :: 0 <= k < SUPER_FIELDS && SuperField(geo, start, secCnt, k) < MAX32 ==>
              FieldRead(s, geo, start, secCnt, k)
    requires start + secCnt < MAX32 && geo.dataStart + geo.blocks == start + secCnt
    requires geo.bitmapLba <= geo.dataStart && geo.bitmapSects <= geo.dataStart && geo.inodeBitmapLba <= geo.dataStart
    requires geo.tableLba <= geo.dataStart
    ensures Describes(s, geo) && SuperLayout(s, geo, start, secCnt)
  {
    assert FieldRead(s, geo, start, secCnt, 0) && FieldRead(s, geo, start, secCnt, 1)
        && FieldRead(s, geo, start, secCnt, 2) && FieldRead(s, geo, start, secCnt, 3);
    assert FieldRead(s, geo, start, secCnt, 4) && FieldRead(s, geo, start, secCnt, 5)
        && FieldRead(s, geo, start, secCnt, 6);
    assert FieldRead(s, geo, start, secCnt, 7) && FieldRead(s, geo, start, secCnt, 8)
        && FieldRead(s, geo, start, secCnt, 9) && FieldRead(s, geo, start, secCnt, 10);
    assert FieldRead(s, geo, start, secCnt, 11) && FieldRead(s, geo, start, secCnt, 12);
  }

  // ---------------------------------------------------------------- bitmaps read back

  function BitOf(b: nat, k: nat): bool {
    if k == 0 then b % 2 == 1 else BitOf(b / 2, k - 1)
  }

  /** A bitmap of `sects` sectors as it is read from the disk. */
  function ReadBits(disk: seq<Sector>, lba: nat, sects: nat): (bits: seq<bool>)
    requires lba + sects <= |disk|
    ensures |bits| == 4096 * sects
  {
    seq(4096 * sects, i requires 0 <= i < 4096 * sects => BitOf(disk[lba + i / 4096][i % 4096 / 8], i % 8))
  }

  lemma {:induction false} BitOfPack(bits: seq<bool>, n: nat, m: nat, k: nat)
    requires n + m <= |bits| && k < m
    ensures BitOf(Pack(bits, n, m), k) == bits[n + k]
    decreases m
  {
    if k > 0 { BitOfPack(bits, n + 1, m - 1, k - 1); }
  }

  lemma {:induction false} PackBitOf(bits: seq<bool>, n: nat, m: nat, b: nat)
    requires n + m <= |bits| && b < Doublings(m) && forall k :: 0 <= k < m ==> bits[n + k] == BitOf(b, k)
    ensures Pack(bits, n, m) == b
    decreases m
  {
    if m > 0 {
      forall k | 0 <= k < m - 1 ensures bits[n + 1 + k] == BitOf(b / 2, k) {
        assert bits[n + (k + 1)] == BitOf(b, k + 1);
      }
      PackBitOf(bits, n + 1, m - 1, b / 2);
      assert bits[n + 0] == BitOf(b, 0);
    }
  }

  lemma BitPlace(i: nat)
    ensures i == 4096 * (i / 4096) + 8 * (i % 4096 / 8) + i % 8 && i % 4096 / 8 < 512
  {
    assert i % 4096 % 8 == i % 8;
  }

  /** A mount reads exactly the bitmap that was synced. */
  lemma ReadBitsIsSynced(disk: seq<Sector>, bits: seq<bool>, geo: Geometry)
    requires geo.bitmapLba + geo.bitmapSects <= |disk|
    ensures Synced(disk, bits, geo) <==> bits == ReadBits(disk, geo.bitmapLba, geo.bitmapSects)
  {
    if Synced(disk, bits, geo) { SyncedIsRead(disk, bits, geo); }
    ReadIsSynced(disk, geo);
  }

  lemma SyncedIsRead(disk: seq<Sector>, bits: seq<bool>, geo: Geometry)
    requires geo.bitmapLba + geo.bitmapSects <= |disk| && Synced(disk, bits, geo)
    ensures bits == ReadBits(disk, geo.bitmapLba, geo.bitmapSects)
  {
    forall i | 0 <= i < |bits| ensures bits[i] == ReadBits(disk, geo.bitmapLba, geo.bitmapSects)[i] {
      BitPlace(i);
      assert disk[geo.bitmapLba + i / 4096] == BitmapSector(bits, i / 4096);
      SectorBit(bits, i / 4096, i % 4096 / 8, i % 8);
    }
  }

  lemma ReadIsSynced(disk: seq<Sector>, geo: Geometry)
    requires geo.bitmapLba + geo.bitmapSects <= |disk|
    ensures Synced(disk, ReadBits(disk, geo.bitmapLba, geo.bitmapSects), geo)
  {
    var found := ReadBits(disk, geo.bitmapLba, geo.bitmapSects);
    forall s | 0 <= s < geo.bitmapSects ensures disk[geo.bitmapLba + s] == BitmapSector(found, s) {
      forall j | 0 <= j < 512 ensures disk[geo.bitmapLba + s][j] == BitmapSector(found, s)[j] {
        ReadByte(disk, geo, s, j);
      }
    }
  }

  lemma SectorBit(bits: seq<bool>, s: nat, j: nat, k: nat)
    requires 4096 * (s + 1) <= |bits| && j < 512 && k < 8
    ensures BitOf(BitmapSector(bits, s)[j], k) == bits[4096 * s + 8 * j + k]
  {
    BitOfPack(bits, 4096 * s + 8 * j, 8, k);
    assert BitmapSector(bits, s)[j] == PackByte(bits, 4096 * s + 8 * j);
  }

  lemma PlaceOfBit(s: nat, j: nat, k: nat)
    requires j < 512 && k < 8
    ensures (4096 * s + 8 * j + k) / 4096 == s
    ensures (4096 * s + 8 * j + k) % 4096 / 8 == j && (4096 * s + 8 * j + k) % 8 == k
  {
    assert (4096 * s + 8 * j + k) % 4096 == 8 * j + k;
  }

  lemma ReadByte(disk: seq<Sector>, geo: Geometry, s: nat, j: nat)
    requires geo.bitmapLba + geo.bitmapSects <= |disk| && s < geo.bitmapSects && j < 512
    ensures BitmapSector(ReadBits(disk, geo.bitmapLba, geo.bitmapSects), s)[j] == disk[geo.bitmapLba + s][j]
  {
    var bits, n, b: nat := ReadBits(disk, geo.bitmapLba, geo.bitmapSects), 4096 * s + 8 * j, disk[geo.bitmapLba + s][j];
    forall k | 0 <= k < 8 ensures bits[n + k] == BitOf(b, k) {
      PlaceOfBit(s, j, k);
    }
    PackedByte(bits, n, b);
  }

  lemma PackedByte(bits: seq<bool>, n: nat, b: Byte)
    requires n + 8 <= |bits| && forall k :: 0 <= k < 8 ==> bits[n + k] == BitOf(b, k)
    ensures PackByte(bits, n) == b
  {
    assert Doublings(2) == 4 && Doublings(4) == 16 && Doublings(6) == 64 && Doublings(8) == 256;
    PackBitOf(bits, n, 8, b);
  }

  lemma InodeBit(disk: seq<Sector>, lba: nat, bits: seq<bool>, j: nat, k: nat)
    requires lba < |disk| && |bits| == MAX_FILES && disk[lba] == BitmapSector(bits, 0) && j < 512 && k < 8
    ensures ReadBits(disk, lba, 1)[8 * j + k] == bits[8 * j + k]
  {
    PlaceOfBit(0, j, k);
    SectorBit(bits, 0, j, k);
  }

  /** One sector of inode bitmap. */
  lemma InodeBits(disk: seq<Sector>, lba: nat, bits: seq<bool>)
    requires lba < |disk| && |bits| == MAX_FILES && disk[lba] == BitmapSector(bits, 0)
    ensures ReadBits(disk, lba, 1) == bits
  {
    forall i | 0 <= i < 4096 ensures ReadBits(disk, lba, 1)[i] == bits[i] {
      InodeBit(disk, lba, bits, i / 8, i % 8);
    }
  }

  // ---------------------------------------------------------------- mount_partition and open_root_dir

  /** An inode as inode_open reads it; the root is opened at once. */
  function InodeRead(disk: seq<Sector>, geo: Geometry, root: nat, n: nat): Inode
    requires geo.tableLba + TABLE_SECTS <= |disk| && n < MAX_FILES
  {
    FromBytes(SlotBytes(disk, geo.tableLba, n)).(openCount := if n == root then 1 else 0)
  }

  function InodesRead(disk: seq<Sector>, geo: Geometry, root: nat, numbers: set<nat>): map<nat, Inode>
    requires geo.tableLba + TABLE_SECTS <= |disk|
  {
    map n | n in numbers && n < MAX_FILES :: InodeRead(disk, geo, root, n)
  }

  /** What a mount asks of the disk: a super block whose regions are on it. */
  ghost predicate Mountable(disk: seq<Sector>, start: nat) {
    && start + 1 < |disk|
    && var s, geo := disk[start + 1], SuperGeometry(disk[start + 1]);
       && geo.bitmapLba + geo.bitmapSects <= |disk| && geo.inodeBitmapLba + Word(s, 7) <= |disk|
       && geo.tableLba + TABLE_SECTS <= |disk|
  }

  /** The volume after a mount of the partition that starts at `start`, with the inodes `numbers` and the
      root. Who owns which block is not on the disk. */
  function Mounted(disk: seq<Sector>, start: nat, numbers: set<nat>, owner: map<nat, Slot>): Vol
    requires Mountable(disk, start)
  {
    var s, geo := disk[start + 1], SuperGeometry(disk[start + 1]);
    Vol(disk, ReadBits(disk, geo.bitmapLba, geo.bitmapSects),
        InodesRead(disk, geo, Word(s, 11), numbers + {Word(s, 11)}), owner, geo)
  }
}
