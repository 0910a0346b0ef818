/** fs/fs.c: partition_format, from the layout arithmetic to a volume that can be mounted. */
module Format {
  import opened Bitmap
  import opened Disk
  import opened Volume
  import opened Inodes
  import opened Partitions
  import opened SuperBlock
  import opened Files
  import opened Directory
  import opened Creation
  import opened Runs

  const FT_DIRECTORY := 2

  function DivRoundUp(x: nat, step: nat): nat
    requires step > 0
  {
    (x + step - 1) / step
  }

  /** The sectors of a partition that are not blocks or their bitmap: boot sector, super block, inode bitmap
      and inode table. */
  const USED := 2 + DivRoundUp(MAX_FILES, 4096) + DivRoundUp(INODE_BYTES * MAX_FILES, 512)

  /** The layout that partition_format computes; the sectors left over are a 32-bit difference. */
  function LayoutOf(start: nat, secCnt: nat): Geometry
    requires secCnt < MAX32
  {
    var free := (secCnt - USED) % MAX32;
    var sects := DivRoundUp(free, 4096 + 1);
    var inodeBitmap := start + 2 + sects;
    var table := inodeBitmap + DivRoundUp(MAX_FILES, 4096);
    Geometry(start + 2, sects, inodeBitmap, table, table + DivRoundUp(INODE_BYTES * MAX_FILES, 512), free - sects)
  }

  /** Boot sector, super block, block bitmap, inode bitmap, inode table and blocks follow each other without
      gap or overlap; they fill the partition exactly when it is not too small for the fixed parts. The bitmap
      has a bit for every block, and all of its sectors but the last are needed. */
  lemma LayoutTiles(start: nat, secCnt: nat)
    requires secCnt < MAX32
    ensures var g := LayoutOf(start, secCnt);
            && g.bitmapLba == start + 2 && g.inodeBitmapLba == g.bitmapLba + g.bitmapSects
            && g.tableLba == g.inodeBitmapLba + 1
            && g.dataStart == g.tableLba + TABLE_SECTS
            && (g.dataStart + g.blocks == start + secCnt <==> secCnt >= 611)
            && 4096 * (g.bitmapSects - 1) <= g.blocks <= 4096 * g.bitmapSects
  {
    var free := (secCnt - USED) % MAX32;
    assert USED == 611;
    var x := DivRoundUp(free, 4097);
    assert 4097 * (x - 1) < free <= 4097 * x || (free == 0 && x == 0);
  }

  /** The map that partition_format writes for `len` blocks. */
  function FormatBit(len: nat, i: nat): bool {
    (i == 0 && len >= 8) || i > len
  }

  lemma TailEnds(len: nat, sects: nat, size: nat, lastByte: nat, remain: nat)
    requires 4096 * (sects - 1) <= len <= 4096 * sects && 1 <= sects <= size / 512
    requires len == 4096 * sects ==> sects < size / 512
    requires lastByte == len / 8 && remain == 512 - lastByte % 512
    ensures 4096 * sects <= 8 * (lastByte + remain) <= 8 * size && 8 * lastByte + len % 8 == len && len % 8 < 8
    ensures remain >= 1
  {
    var q := lastByte / 512;
    assert lastByte + remain == 512 * (q + 1);
    assert q == len / 4096;
  }

  /** The block bitmap, bit by bit in a buffer of `size` bytes: the first bit, then ones from the byte of bit
      `len` to the end of that byte's sector, then zeros again up to bit len % 8 of that byte. */
  method FormatBitmap(len: nat, sects: nat, size: nat) returns (bits: seq<bool>)
    requires 4096 * (sects - 1) <= len <= 4096 * sects && 1 <= sects <= size / 512
    requires len == 4096 * sects ==> sects < size / 512
    ensures |bits| == 4096 * sects && forall i :: 0 <= i < |bits| ==> bits[i] == FormatBit(len, i)
  {
    var buf := new bool[8 * size](_ => false);
    buf[0] := true;
    var lastByte, lastBit := len / 8, len % 8;
    var remain := 512 - lastByte % 512;
    TailEnds(len, sects, size, lastByte, remain);
    var i := 8 * lastByte;
    while i < 8 * (lastByte + remain)
      invariant 8 * lastByte <= i <= 8 * (lastByte + remain)
      invariant forall j :: 0 <= j < 8 * size ==>
                buf[j] == ((j == 0 && 8 * lastByte > 0) || (j == 0 && i == 0) || 8 * lastByte <= j < i)
    {
      buf[i] := true;
      i := i + 1;
    }
    var k := 0;
    while k <= lastBit
      invariant k <= lastBit + 1
      invariant forall j :: 0 <= j < 8 * size ==>
                buf[j] == ((j == 0 && 8 * lastByte > 0) || 8 * lastByte + k <= j < 8 * (lastByte + remain))
    {
      buf[8 * lastByte + k] := false;
      k := k + 1;
    }
    bits := buf[..4096 * sects];
  }

  /** The design is that the blocks 1 to len - 1 are free and nothing else. The map has it exactly when there
      are at least 8 blocks and they fill the bitmap's sectors; otherwise bit len, which is no block, is free. */
  lemma FormatMeetsIntent(len: nat, sects: nat)
    requires 4096 * (sects - 1) <= len <= 4096 * sects && 1 <= sects
    ensures (forall i :: 0 <= i < 4096 * sects ==> (FormatBit(len, i) <==> i == 0 || i >= len)) <==>
              len >= 8 && len == 4096 * sects
    ensures len < 4096 * sects ==> !FormatBit(len, len)
  {
    assert FormatBit(len, 0) <==> len >= 8;
    if len < 4096 * sects {
      assert !FormatBit(len, len);
    }
  }

  function DotEntries(): seq<Entry> {
    [Entry(NameField([46]), ROOT, FT_DIRECTORY), Entry(NameField([46, 46]), ROOT, FT_DIRECTORY)]
  }

  /** The first bytes of a buffer of zeros, cut to a sector. */
  function ZeroPadded(b: seq<Byte>): (s: seq<Byte>)
    requires |b| <= 512
    ensures |s| == 512
  {
    b + seq(512 - |b|, _ => 0)
  }

  ghost predicate MapsWritten(disk: seq<Sector>, geo: Geometry, bits: seq<bool>) {
    && |bits| == 4096 * geo.bitmapSects && (forall i :: 0 <= i < |bits| ==> bits[i] == FormatBit(geo.blocks, i))
    && Synced(disk, bits, geo)
    && geo.inodeBitmapLba < |disk| && disk[geo.inodeBitmapLba] == BitmapSector([true] + seq(4095, _ => false), 0)
  }

  ghost predicate TreeWritten(disk: seq<Sector>, geo: Geometry) {
    && geo.tableLba + TABLE_SECTS <= |disk| && geo.dataStart < |disk|
    && disk[geo.tableLba] == ZeroPadded(Bytes(RootInode(geo)))
    && (forall l :: geo.tableLba < l < geo.tableLba + TABLE_SECTS ==> disk[l] == ZeroPadded([]))
    && disk[geo.dataStart] == ZeroPadded(EntryBytes(DotEntries()[0]) + EntryBytes(DotEntries()[1]))
  }

  /** What partition_format leaves on the disk. */
  ghost predicate Formatted(disk: seq<Sector>, start: nat, secCnt: nat, bits: seq<bool>)
    requires secCnt < MAX32
  {
    && start + 1 < |disk| && Describes(disk[start + 1], LayoutOf(start, secCnt))
    && SuperLayout(disk[start + 1], LayoutOf(start, secCnt), start, secCnt)
    && MapsWritten(disk, LayoutOf(start, secCnt), bits) && TreeWritten(disk, LayoutOf(start, secCnt))
  }

  /** Step 1: the super block. */
  method WriteSuper(disk: seq<Sector>, geo: Geometry, start: nat, secCnt: nat, pad: seq<Byte>) returns (r: seq<Sector>)
    requires 611 <= secCnt < MAX32 && start + secCnt <= |disk| < MAX32 && |pad| == 460 && geo == LayoutOf(start, secCnt)
    ensures |r| == |disk| && Describes(r[start + 1], geo) && SuperLayout(r[start + 1], geo, start, secCnt)
    ensures forall l :: 0 <= l < |disk| && l != start + 1 ==> r[l] == disk[l]
  {
    LayoutTiles(start, secCnt);
    SuperRoundTrip(geo, start, secCnt, pad);
    r := disk[start + 1 := SuperSector(geo, start, secCnt, pad)];
  }

  /** Step 2: the block bitmap. */
  method WriteBlockMap(disk: seq<Sector>, geo: Geometry, size: nat) returns (r: seq<Sector>, ghost bits: seq<bool>)
    requires 1 <= geo.bitmapSects <= size / 512 && 4096 * (geo.bitmapSects - 1) <= geo.blocks <= 4096 * geo.bitmapSects
    requires geo.blocks == 4096 * geo.bitmapSects ==> geo.bitmapSects < size / 512
    requires geo.bitmapLba + geo.bitmapSects <= |disk|
    ensures |r| == |disk| && Synced(r, bits, geo)
    ensures |bits| == 4096 * geo.bitmapSects && forall i :: 0 <= i < |bits| ==> bits[i] == FormatBit(geo.blocks, i)
    ensures forall l :: 0 <= l < |disk| && !(geo.bitmapLba <= l < geo.bitmapLba + geo.bitmapSects) ==> r[l] == disk[l]
  {
    var map0 := FormatBitmap(geo.blocks, geo.bitmapSects, size);
    bits := map0;
    var sectors := seq(geo.bitmapSects, s requires 0 <= s < geo.bitmapSects => BitmapSector(map0, s));
    r := Replace(disk, geo.bitmapLba, sectors);
  }

  /** Steps 2 and 3: the two bitmaps. */
  method WriteMaps(disk: seq<Sector>, geo: Geometry, size: nat) returns (r: seq<Sector>, ghost bits: seq<bool>)
    requires 1 <= geo.bitmapSects <= size / 512 && 4096 * (geo.bitmapSects - 1) <= geo.blocks <= 4096 * geo.bitmapSects
    requires geo.blocks == 4096 * geo.bitmapSects ==> geo.bitmapSects < size / 512
    requires geo.bitmapLba + geo.bitmapSects == geo.inodeBitmapLba < |disk|
    ensures |r| == |disk| && MapsWritten(r, geo, bits)
    ensures forall l :: 0 <= l < |disk| && !(geo.bitmapLba <= l <= geo.inodeBitmapLba) ==> r[l] == disk[l]
  {
    var r1;
    r1, bits := WriteBlockMap(disk, geo, size);
    r := r1[geo.inodeBitmapLba := BitmapSector([true] + seq(4095, _ => false), 0)];
    forall s | 0 <= s < geo.bitmapSects ensures r[geo.bitmapLba + s] == BitmapSector(bits, s) {
      assert r1[geo.bitmapLba + s] == BitmapSector(bits, s);
    }
  }

  /** Steps 4 and 5: the inode table with the root inode, and the root directory. */
  method WriteTree(disk: seq<Sector>, geo: Geometry) returns (r: seq<Sector>)
    requires geo.tableLba + TABLE_SECTS == geo.dataStart < |disk|
    ensures |r| == |disk| && TreeWritten(r, geo)
    ensures forall l :: 0 <= l < |disk| && !(geo.tableLba <= l <= geo.dataStart) ==> r[l] == disk[l]
  {
    var first: Sector, zero: Sector := ZeroPadded(Bytes(RootInode(geo))), ZeroPadded([]);
    r := Replace(disk, geo.tableLba, [first] + seq(TABLE_SECTS - 1, _ => zero));
    var dots: Sector := ZeroPadded(EntryBytes(DotEntries()[0]) + EntryBytes(DotEntries()[1]));
    r := Replace(r, geo.dataStart, [dots]);
  }

  /** partition_format, with ide_write as replacement of sectors. The partition has room for a block, and the
      buffer for the sector after a bitmap that is full to its end. The super block's padding is not set. */
  method PartitionFormat(disk: seq<Sector>, start: nat, secCnt: nat, pad: seq<Byte>)
    returns (r: seq<Sector>, ghost bits: seq<bool>)
    requires 612 < secCnt < MAX32 && start + secCnt <= |disk| < MAX32 && |pad| == 460
    requires var geo := LayoutOf(start, secCnt); geo.blocks < 4096 * geo.bitmapSects || geo.bitmapSects < TABLE_SECTS
    ensures |r| == |disk| && Formatted(r, start, secCnt, bits)
    ensures forall l :: 0 <= l < |disk| && !(start < l <= LayoutOf(start, secCnt).dataStart) ==> r[l] == disk[l]
  {
    LayoutTiles(start, secCnt);
    var geo := LayoutOf(start, secCnt);
    var r1 := WriteSuper(disk, geo, start, secCnt, pad);
    var larger := if geo.bitmapSects >= TABLE_SECTS then geo.bitmapSects else TABLE_SECTS;
    var r2;
    r2, bits := WriteMaps(r1, geo, 512 * larger);
    r := WriteTree(r2, geo);
    FormatDone(r2, r, start, secCnt, bits);
  }

  lemma FormatDone(r2: seq<Sector>, r: seq<Sector>, start: nat, secCnt: nat, bits: seq<bool>)
    requires 612 < secCnt < MAX32 && start + secCnt <= |r2| == |r|
    requires var geo := LayoutOf(start, secCnt);
             Describes(r2[start + 1], geo) && SuperLayout(r2[start + 1], geo, start, secCnt)
                 && MapsWritten(r2, geo, bits) && TreeWritten(r, geo)
    requires forall l :: 0 <= l < LayoutOf(start, secCnt).tableLba && l < |r| ==> r[l] == r2[l]
    ensures Formatted(r, start, secCnt, bits)
  {
    LayoutTiles(start, secCnt);
    MapsFrame(r2, r, LayoutOf(start, secCnt), bits);
  }

  lemma MapsFrame(r2: seq<Sector>, r: seq<Sector>, geo: Geometry, bits: seq<bool>)
    requires |r2| == |r| && MapsWritten(r2, geo, bits) && geo.bitmapLba + geo.bitmapSects <= geo.tableLba
    requires geo.inodeBitmapLba < geo.tableLba
    requires forall l :: 0 <= l < geo.tableLba && l < |r| ==> r[l] == r2[l]
    ensures MapsWritten(r, geo, bits)
  {
    forall s | 0 <= s < geo.bitmapSects ensures r[geo.bitmapLba + s] == BitmapSector(bits, s) {
      assert r2[geo.bitmapLba + s] == BitmapSector(bits, s);
    }
  }

  /** A partition that partition_format can work on. */
  predicate Formattable(part: Partition, sectors: nat) {
    && 612 < part.secCnt < MAX32 && part.start + part.secCnt <= sectors < MAX32
    && var geo := LayoutOf(part.start, part.secCnt);
       geo.blocks < 4096 * geo.bitmapSects || geo.bitmapSects < TABLE_SECTS
  }

  /** The partition is left as it is: it has the magic number, or no sectors. */
  predicate KeepsFormat(disk: seq<Sector>, part: Partition)
    requires part.start + 1 < |disk|
  {
    part.secCnt == 0 || Word(disk[part.start + 1], 0) == MAGIC
  }

  ghost predicate Usable(disk: seq<Sector>, part: Partition) {
    && part.start + 1 < |disk|
    && if KeepsFormat(disk, part) then Mountable(disk, part.start) else Formattable(part, |disk|)
  }

  /** The partition after filesys_init's check. */
  ghost predicate Prepared(disk: seq<Sector>, part: Partition, r: seq<Sector>, bits: seq<bool>)
    requires part.start + 1 < |disk|
  {
    if KeepsFormat(disk, part) then r == disk
    else part.secCnt < MAX32 && |r| == |disk| && r[0] == disk[0] && Formatted(r, part.start, part.secCnt, bits)
  }

  /** filesys_init's check of one partition, which is formatted unless its super block has the magic number. */
  method FormatIfNew(disk: seq<Sector>, part: Partition, pad: seq<Byte>) returns (r: seq<Sector>, ghost bits: seq<bool>)
    requires Usable(disk, part) && |pad| == 460
    ensures Prepared(disk, part, r, bits) && Mountable(r, part.start)
  {
    r, bits := disk, [];
    if part.secCnt != 0 {
      var sbBuf := disk[part.start + 1];
      if Word(sbBuf, 0) != MAGIC {
        r, bits := PartitionFormat(disk, part.start, part.secCnt, pad);
        FormattedMounts(r, part.start, part.secCnt, bits);
      }
    }
  }

  /** ide_init and filesys_init, as far as hdb1 is concerned: it is looked up in the disk's partition table,
      formatted if it is new, and mounted. Without an hdb1 nothing is mounted. */
  method FilesysInit(disk: seq<Sector>, pad: seq<Byte>, numbers: set<nat>, ghost owner: map<nat, Slot>)
    returns (fs: FileSystem?, ghost bits: seq<bool>)
    requires |disk| > 0 && |pad| == 460 && (Lists(disk[0]) ==> Usable(disk, Hdb1(disk[0])))
    ensures fs == null <==> !Lists(disk[0])
    ensures fs != null ==>
              var part := Hdb1(disk[0]);
              && fresh(fs) && Prepared(disk, part, fs.disk, bits) && Mountable(fs.disk, part.start)
              && fs.State() == Mounted(fs.disk, part.start, numbers, owner)
              && fs.inodeBits == ReadBits(fs.disk, fs.geo.inodeBitmapLba, Word(fs.disk[part.start + 1], 7))
  {
    fs, bits := null, [];
    var parts := PartitionScan(disk[0]);
    if parts != [] {
      var part := parts[0];
      var r;
      r, bits := FormatIfNew(disk, part, pad);
      fs := new FileSystem.Mount(r, part.start, numbers, owner);
    }
  }

  /** The boot after a volume has been in use is the one that the runs are about. */
  method BootAgain(fs: FileSystem, pad: seq<Byte>, ghost view: View) returns (again: FileSystem?)
    requires Implements(fs.State(), view) && |pad| == 460
    ensures again == null <==> !view.listed
    ensures again == null ==> NextBoot(fs.State()) == NoPartition
    ensures again != null ==> fresh(again) && NextBoot(fs.State()) == Up(again.State())
    ensures again != null ==> InodesMarked(again.inodeBits, again.inodes)
  {
    ghost var v := fs.State();
    ghost var bits;
    HasMagic(v);
    again, bits := FilesysInit(fs.disk, pad, fs.inodes.Keys, fs.owner);
    if again != null { SameBootAgain(v, again.State(), again.inodeBits, Hdb1(v.disk[0]), bits); }
  }

  lemma HasMagic(v: Vol)
    requires Inv(v) && Remountable(v)
    ensures Lists(v.disk[0]) ==> Usable(v.disk, Hdb1(v.disk[0])) && KeepsFormat(v.disk, Hdb1(v.disk[0]))
  {
    CanMount(v);
    if Lists(v.disk[0]) { HasMagicAt(v.disk, v.geo, Hdb1(v.disk[0])); }
  }

  lemma HasMagicAt(disk: seq<Sector>, geo: Geometry, part: Partition)
    requires SuperIs(disk, geo) && part.start + 2 == geo.bitmapLba && Mountable(disk, part.start)
    ensures Usable(disk, part) && KeepsFormat(disk, part)
  {
    assert Describes(disk[part.start + 1], geo);
  }

  lemma SameBootAgain(v: Vol, w: Vol, inodeBits: seq<bool>, part: Partition, bits: seq<bool>)
    requires Inv(v) && Remountable(v) && Lists(v.disk[0]) && part == Hdb1(v.disk[0]) && part.start + 1 < |v.disk|
    requires KeepsFormat(v.disk, part) && Prepared(v.disk, part, w.disk, bits)
    requires Mountable(w.disk, part.start) && w == Mounted(w.disk, part.start, v.inodes.Keys, v.owner)
    requires inodeBits == ReadBits(w.disk, w.geo.inodeBitmapLba, Word(w.disk[part.start + 1], 7))
    ensures NextBoot(v) == Up(w) && InodesMarked(inodeBits, w.inodes)
  {
    SameBoot(v, w, inodeBits, part.start);
  }

  lemma SameBoot(v: Vol, w: Vol, inodeBits: seq<bool>, start: nat)
    requires Inv(v) && Remountable(v) && Lists(v.disk[0]) && start == Hdb1(v.disk[0]).start
    requires Mountable(v.disk, start) && w == Mounted(v.disk, start, v.inodes.Keys, v.owner)
    requires inodeBits == ReadBits(w.disk, w.geo.inodeBitmapLba, Word(w.disk[start + 1], 7))
    ensures NextBoot(v) == Up(w) && InodesMarked(inodeBits, w.inodes)
  {
    MarkedAgain(v, w, start, inodeBits);
  }

  lemma MarkedAgain(v: Vol, w: Vol, start: nat, inodeBits: seq<bool>)
    requires Inv(v) && Remountable(v) && start + 2 == v.geo.bitmapLba
    requires Mountable(v.disk, start) && w == Mounted(v.disk, start, v.inodes.Keys, v.owner)
    requires inodeBits == ReadBits(w.disk, w.geo.inodeBitmapLba, Word(w.disk[start + 1], 7))
    ensures InodesMarked(inodeBits, w.inodes)
  {
    MountIsReopened(v, w, start);
    MarkedSame(v, w, start, inodeBits);
  }

  lemma MarkedSame(v: Vol, w: Vol, start: nat, inodeBits: seq<bool>)
    requires SuperIs(v.disk, v.geo) && start + 2 == v.geo.bitmapLba && DiskMarked(v)
    requires w == v.(inodes := w.inodes) && SameKeys(v, w)
    requires v.geo.inodeBitmapLba + Word(v.disk[start + 1], 7) <= |v.disk|
    requires inodeBits == ReadBits(v.disk, v.geo.inodeBitmapLba, Word(v.disk[start + 1], 7))
    ensures InodesMarked(inodeBits, w.inodes)
  {
    assert Describes(v.disk[start + 1], v.geo);
  }

  // ---------------------------------------------------------------- the first mount

  lemma FormattedMounts(disk: seq<Sector>, start: nat, secCnt: nat, bits: seq<bool>)
    requires 611 <= secCnt < MAX32 && Formatted(disk, start, secCnt, bits)
    ensures Mountable(disk, start) && SuperGeometry(disk[start + 1]) == LayoutOf(start, secCnt)
  {
  }

  lemma FirstSlot(disk: seq<Sector>, lba: nat, bytes: seq<Byte>)
    requires lba + TABLE_SECTS <= |disk| && |bytes| == INODE_BYTES && disk[lba] == ZeroPadded(bytes)
    ensures SlotBytes(disk, lba, ROOT) == bytes
  {
    var first: seq<Byte> := disk[lba];
    assert SlotBytes(disk, lba, ROOT) == first[..INODE_BYTES];
  }

  lemma FirstRoot(disk: seq<Sector>, geo: Geometry)
    requires geo.tableLba + TABLE_SECTS <= |disk| && disk[geo.tableLba] == ZeroPadded(Bytes(RootInode(geo)))
    requires geo.dataStart < MAX32
    ensures SlotBytes(disk, geo.tableLba, ROOT) == Bytes(RootInode(geo))
    ensures InodeRead(disk, geo, ROOT, ROOT) == RootInode(geo).(openCount := 1)
  {
    FirstSlot(disk, geo.tableLba, Bytes(RootInode(geo)));
    RootDecodes(SlotBytes(disk, geo.tableLba, ROOT), geo);
  }

  lemma FirstSector(x: Entry, y: Entry, k: nat)
    requires |x.field| == 16 && x.ino < MAX32 && x.ftype < MAX32 && |y.field| == 16 && y.ino < MAX32 && y.ftype < MAX32
    requires k < PER_SECTOR
    ensures var e := EntryAt(ZeroPadded(EntryBytes(x) + EntryBytes(y)), k);
            if k == 0 then e == x else if k == 1 then e == y else Free(e)
  {
    var both, zeros := EntryBytes(x) + EntryBytes(y), seq(512, _ => 0 as Byte);
    var sector := ZeroPadded(both);
    var cut := sector[ENTRY_BYTES * k..ENTRY_BYTES * (k + 1)];
    if k == 0 {
      assert cut == EntryBytes(x);
      EntryRoundTrip(x);
    } else if k == 1 {
      assert cut == EntryBytes(y);
      EntryRoundTrip(y);
    } else {
      assert forall i :: 2 * ENTRY_BYTES <= i < 512 ==> sector[i] == 0;
      assert cut == zeros[ENTRY_BYTES * k..ENTRY_BYTES * (k + 1)];
      ZeroEntry(k);
    }
  }

  lemma FirstEntries(disk: seq<Sector>, geo: Geometry, opens: nat)
    requires TreeWritten(disk, geo) && 0 < geo.dataStart
    ensures DirIs(disk, RootInode(geo).(openCount := opens), DotEntries())
  {
    var inode := RootInode(geo).(openCount := opens);
    var es := DotEntries();
    forall j | 0 <= j < ROOM && inode.sectors[j / 21] != 0 ensures EntryIs(disk, inode.sectors, j, es) {
      assert j / 21 == 0 && EntryOf(disk, inode.sectors, j) == EntryAt(disk[geo.dataStart], j);
      FirstSector(es[0], es[1], j);
    }
    DirIsEntries(disk, inode, es);
  }

  lemma FirstInv(v: Vol, start: nat, secCnt: nat)
    requires 611 <= secCnt < MAX32 && v.geo == LayoutOf(start, secCnt) && v.geo.blocks >= 8
    requires start + secCnt <= |v.disk| < MAX32 && Synced(v.disk, v.bits, v.geo)
    requires forall i :: 0 <= i < |v.bits| ==> v.bits[i] == FormatBit(v.geo.blocks, i)
    requires v.inodes == map[ROOT := RootInode(v.geo).(openCount := 1)]
    requires v.owner == map[v.geo.dataStart := Slot(ROOT, 0)]
    ensures Inv(v) && LowestClear(v.bits) == 1
  {
    LayoutTiles(start, secCnt);
    LowestClearUnique(v.bits, 1);
    var inode := v.inodes[ROOT];
    forall i | 0 <= i <= TABLE && HasSlot(inode, i) ensures i == 0 && LbaAt(v.disk, inode, i) == v.geo.dataStart {
    }
  }

  lemma {:induction false} FormatFree(bits: seq<bool>, len: nat, n: nat)
    requires 1 <= n <= len && n <= |bits| && len >= 8 && forall i :: 0 <= i < |bits| ==> bits[i] == FormatBit(len, i)
    ensures FreeBelow(bits, n) == n - 1
  {
    if n > 1 { FormatFree(bits, len, n - 1); }
  }

  /** The volume that the first mount of a formatted partition makes, with the root directory's block its own. */
  ghost function FirstMount(disk: seq<Sector>, start: nat): Vol
    requires Mountable(disk, start)
  {
    Mounted(disk, start, {}, map[SuperGeometry(disk[start + 1]).dataStart := Slot(ROOT, 0)])
  }

  const FIRST_VIEW := View(DotEntries(), 2 * ENTRY_BYTES, map[], true)

  /** The disk's partition table lists a partition that starts there as hdb1. */
  predicate ListsAt(disk: seq<Sector>, start: nat) {
    |disk| > 0 && Lists(disk[0]) && Hdb1(disk[0]).start == start
  }

  /** An empty file system: the directory holds "." and "..", there is no file, all blocks but the directory's
      and all inodes but its own are free, and everything the operations rely on is in place. */
  ghost predicate IsEmpty(v: Vol, inodeBits: seq<bool>) {
    && Implements(v, FIRST_VIEW) && InodesMarked(inodeBits, v.inodes) && LowestClear(inodeBits) == 1
    && (forall i :: 1 <= i < MAX_FILES ==> !inodeBits[i])
    && LowestClear(v.bits) == 1 && FreeBelow(v.bits, Limit(v.geo)) == Limit(v.geo) - 1
  }

  /** A formatted hdb1 of at least 8 blocks mounts as an empty file system, with the layout that its super block
      gives. */
  lemma FormattedIsEmpty(v: Vol, inodeBits: seq<bool>, disk: seq<Sector>, start: nat, secCnt: nat, bits: seq<bool>)
    requires 611 <= secCnt < MAX32 && LayoutOf(start, secCnt).blocks >= 8 && start + secCnt <= |disk| < MAX32
    requires Formatted(disk, start, secCnt, bits) && Mountable(disk, start) && v == FirstMount(disk, start)
    requires ListsAt(disk, start) && inodeBits == ReadBits(disk, v.geo.inodeBitmapLba, Word(disk[start + 1], 7))
    ensures v.disk == disk && v.geo == LayoutOf(start, secCnt) && IsEmpty(v, inodeBits)
  {
    LayoutTiles(start, secCnt);
    FirstVol(v, disk, start, secCnt, bits);
    FirstInodeBits(disk, v.geo);
    EmptyVol(v, start, secCnt, inodeBits);
  }

  lemma EmptyVol(v: Vol, start: nat, secCnt: nat, inodeBits: seq<bool>)
    requires 611 <= secCnt < MAX32 && LayoutOf(start, secCnt).blocks >= 8 && start + secCnt <= |v.disk| < MAX32
    requires v.geo == LayoutOf(start, secCnt) && Formatted(v.disk, start, secCnt, v.bits) && ListsAt(v.disk, start)
    requires v.inodes == map[ROOT := RootInode(v.geo).(openCount := 1)]
    requires v.owner == map[v.geo.dataStart := Slot(ROOT, 0)]
    requires SlotBytes(v.disk, v.geo.tableLba, ROOT) == Bytes(RootInode(v.geo))
    requires inodeBits == ReadBits(v.disk, v.geo.inodeBitmapLba, 1) && inodeBits == [true] + seq(4095, _ => false)
    requires LowestClear(inodeBits) == 1
    ensures IsEmpty(v, inodeBits)
  {
    LayoutTiles(start, secCnt);
    FirstEntries(v.disk, v.geo, 1);
    FirstInv(v, start, secCnt);
    FormatFree(v.bits, v.geo.blocks, Limit(v.geo));
    FirstSuper(v, start, secCnt);
    assert TableNames(v.disk[0], v.geo);
    FirstRemounts(v, inodeBits);
    FirstImplements(v);
  }

  lemma FirstImplements(v: Vol)
    requires Inv(v) && Remountable(v) && Lists(v.disk[0]) && v.inodes == map[ROOT := RootInode(v.geo).(openCount := 1)]
    requires DirIs(v.disk, RootInode(v.geo).(openCount := 1), DotEntries())
    ensures Implements(v, FIRST_VIEW)
  {
  }

  lemma FirstSuper(v: Vol, start: nat, secCnt: nat)
    requires 611 <= secCnt < MAX32 && v.geo == LayoutOf(start, secCnt) && Formatted(v.disk, start, secCnt, v.bits)
    ensures SuperIs(v.disk, v.geo)
  {
    LayoutTiles(start, secCnt);
    assert v.geo.bitmapLba - 1 == start + 1;
  }

  lemma FirstRemounts(v: Vol, inodeBits: seq<bool>)
    requires Inv(v) && SuperIs(v.disk, v.geo) && TableNames(v.disk[0], v.geo)
    requires v.inodes == map[ROOT := RootInode(v.geo).(openCount := 1)]
    requires SlotBytes(v.disk, v.geo.tableLba, ROOT) == Bytes(RootInode(v.geo))
    requires inodeBits == ReadBits(v.disk, v.geo.inodeBitmapLba, 1) && inodeBits[0]
    ensures Remountable(v)
  {
  }

  lemma FirstVol(v: Vol, disk: seq<Sector>, start: nat, secCnt: nat, bits: seq<bool>)
    requires 611 <= secCnt < MAX32 && start + secCnt <= |disk| < MAX32
    requires Formatted(disk, start, secCnt, bits) && Mountable(disk, start) && v == FirstMount(disk, start)
    ensures v.disk == disk && v.bits == bits && v.geo == LayoutOf(start, secCnt)
    ensures v.owner == map[v.geo.dataStart := Slot(ROOT, 0)]
    ensures v.inodes == map[ROOT := RootInode(v.geo).(openCount := 1)]
    ensures SlotBytes(disk, v.geo.tableLba, ROOT) == Bytes(RootInode(v.geo))
  {
    LayoutTiles(start, secCnt);
    ReadBitsIsSynced(disk, bits, LayoutOf(start, secCnt));
    FirstInodes(disk, LayoutOf(start, secCnt), v.inodes);
  }

  lemma FirstInodes(disk: seq<Sector>, geo: Geometry, inodes: map<nat, Inode>)
    requires geo.tableLba + TABLE_SECTS <= |disk| && disk[geo.tableLba] == ZeroPadded(Bytes(RootInode(geo)))
    requires geo.dataStart < MAX32
    requires inodes == InodesRead(disk, geo, ROOT, {} + {ROOT})
    ensures inodes == map[ROOT := RootInode(geo).(openCount := 1)]
    ensures SlotBytes(disk, geo.tableLba, ROOT) == Bytes(RootInode(geo))
  {
    FirstRoot(disk, geo);
    OnlyOne(disk, geo, inodes);
  }

  lemma OnlyOne(disk: seq<Sector>, geo: Geometry, inodes: map<nat, Inode>)
    requires geo.tableLba + TABLE_SECTS <= |disk| && inodes == InodesRead(disk, geo, ROOT, {} + {ROOT})
    ensures inodes.Keys == {ROOT} && inodes[ROOT] == InodeRead(disk, geo, ROOT, ROOT)
  {
    assert {} + {ROOT} == {ROOT};
  }

  lemma FirstNames()
    ensures NamesOk(FIRST_VIEW)
  {
    TextOfName([46], seq(15, _ => 0));
    TextOfName([46, 46], seq(14, _ => 0));
  }

  /** A formatted partition has `.` and `..`, which both lead to the root, and a root of 48 bytes. */
  lemma FirstNamesLead(v: Vol)
    requires Implements(v, FIRST_VIEW)
    ensures LeadsTo(v, [46], Known(0)) && LeadsTo(v, [46, 46], Known(0)) && v.inodes[ROOT].size == 48
    ensures exists f, g :: DirIs(v.disk, v.inodes[ROOT], [Entry(f, 0, 2), Entry(g, 0, 2)])
  {
    DotsFound();
    assert DotEntries() == [Entry(NameField([46]), 0, 2), Entry(NameField([46, 46]), 0, 2)];
    DotsLead(v);
  }

  lemma DotsFound()
    ensures Find(DotEntries(), [46]) == Known(0) && Find(DotEntries(), [46, 46]) == Known(0)
  {
    TextOfName([46], seq(15, _ => 0));
    TextOfName([46, 46], seq(14, _ => 0));
    FindAt(DotEntries(), [46], 0);
    FindAt(DotEntries(), [46, 46], 1);
  }

  lemma DotsLead(v: Vol)
    requires ROOT in v.inodes && DirIs(v.disk, v.inodes[ROOT], DotEntries())
    requires Find(DotEntries(), [46]) == Known(0) && Find(DotEntries(), [46, 46]) == Known(0)
    ensures LeadsTo(v, [46], Known(0)) && LeadsTo(v, [46, 46], Known(0))
  {
    SearchIsFind(v.disk, v.inodes[ROOT], DotEntries(), [46]);
    SearchIsFind(v.disk, v.inodes[ROOT], DotEntries(), [46, 46]);
  }

  lemma FirstInodeBits(disk: seq<Sector>, geo: Geometry)
    requires geo.inodeBitmapLba < |disk| && disk[geo.inodeBitmapLba] == BitmapSector([true] + seq(4095, _ => false), 0)
    ensures ReadBits(disk, geo.inodeBitmapLba, 1) == [true] + seq(4095, _ => false)
    ensures LowestClear(ReadBits(disk, geo.inodeBitmapLba, 1)) == 1
  {
    InodeBits(disk, geo.inodeBitmapLba, [true] + seq(4095, _ => false));
    LowestClearUnique(ReadBits(disk, geo.inodeBitmapLba, 1), 1);
  }

  // ---------------------------------------------------------------- names from the format to the second boot

  lemma {:induction false} EntriesAfter(view: View, ops: seq<Op>)
    requires |view.es| <= ROOM && Fresh(view, ops) && NoRemount(ops)
    ensures |ApplyAll(view, ops).es| == if |view.es| + Creates(ops) <= ROOM then |view.es| + Creates(ops) else ROOM
    decreases |ops|
  {
    if ops != [] {
      assert forall i :: 0 <= i < |ops[1..]| ==> ops[1..][i] == ops[i + 1];
      EntriesAfter(Apply(view, ops[0]), ops[1..]);
    }
  }

  /** Since a partition was formatted: the second boot finds the partition exactly after at most 250 creates, and
      all files by their names exactly after at most 19. */
  lemma SecondBootFindsAll(disk: seq<Sector>, start: nat, secCnt: nat, bits: seq<bool>, run: seq<Vol>, ops: seq<Op>)
    requires 611 <= secCnt < MAX32 && LayoutOf(start, secCnt).blocks >= 8 && start + secCnt <= |disk| < MAX32
    requires Formatted(disk, start, secCnt, bits) && Mountable(disk, start) && ListsAt(disk, start)
    requires IsRun(run, ops, FIRST_VIEW) && run[0] == FirstMount(disk, start) && Fresh(FIRST_VIEW, ops)
    requires NoRemount(ops)
    ensures Inv(run[|ops|]) && Remountable(run[|ops|]) && (NextBoot(run[|ops|]).Up? <==> Creates(ops) <= 250)
    ensures Creates(ops) <= 250 ==>
              && FoundLater(NextBoot(run[|ops|]).v, ApplyAll(FIRST_VIEW, ops))
              && (AllFound(NextBoot(run[|ops|]).v, ApplyAll(FIRST_VIEW, ops)) <==> Creates(ops) <= 19)
  {
    FormattedIsEmpty(run[0], ReadBits(disk, run[0].geo.inodeBitmapLba, Word(disk[start + 1], 7)), disk, start, secCnt,
        bits);
    FirstNames();
    NamesAfterRemount(run, ops, FIRST_VIEW);
    EntriesAfter(FIRST_VIEW, ops);
    OverflowsIff(2, ops);
  }
}
