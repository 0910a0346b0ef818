/** fs/file.c: block allocation, file_write and file_read on a mounted partition. */
module Files {
  import opened Disk
  import opened Volume
  import opened Inodes
  import opened Growth
  import opened Bitmap
  import opened SuperBlock

  /** memcpy of the chunk into a sector buffer. */
  function Patched(buffer: seq<Byte>, off: nat, chunk: seq<Byte>): (r: seq<Byte>)
    requires off + |chunk| <= |buffer|
    ensures |r| == |buffer|
    ensures forall k :: 0 <= k < |buffer| ==> r[k] == if off <= k < off + |chunk| then chunk[k - off] else buffer[k]
  {
    buffer[..off] + chunk + buffer[off + |chunk|..]
  }

  /** fd_pos, a 32-bit word, stays one behind the size. */
  function OneBehind(size: nat): (pos: nat)
    ensures size < MAX32 ==> pos == if size == 0 then MAX32 - 1 else size - 1
  {
    (size + MAX32 - 1) % MAX32
  }

  lemma PosStep(size: nat, count: nat)
    requires size + count < MAX32
    ensures (OneBehind(size) + count) % MAX32 == OneBehind(size + count)
  {
  }

  lemma SectorEnd(size: nat, chunk: nat)
    requires chunk == 512 - size % 512
    ensures (size + chunk) % 512 == 0
  {
  }

  /** What file_write and file_read come to: a count, -1, a failed assertion, or a data loop that leaves the
      file, which the model does not follow. */
  datatype Outcome = Count(n: nat) | Failed | Halted | Overrun

  /** struct file: the inode it is open on and its position. */
  class OpenFile {
    var ino: nat
    var pos: nat

    /** A file that is opened starts at position 0. */
    constructor (ino: nat)
      ensures this.ino == ino && pos == 0
    {
      this.ino, pos := ino, 0;
    }
  }

  class FileSystem {
    var disk: seq<Sector>
    var bits: seq<bool>
    var inodeBits: seq<bool>
    var inodes: map<nat, Inode>
    ghost var owner: map<nat, Slot>
    const geo: Geometry

    /** mount_partition and open_root_dir, with the disk as its sectors. The inodes in use are read here and not
        at their first inode_open: until then nothing writes their slots. */
    constructor Mount(part: seq<Sector>, start: nat, numbers: set<nat>, ghost blocks: map<nat, Slot>)
      requires Mountable(part, start)
      ensures State() == Mounted(part, start, numbers, blocks)
      ensures inodeBits == ReadBits(part, geo.inodeBitmapLba, Word(part[start + 1], 7))
    {
      var sbBuf := part[start + 1];
      var sb := SuperGeometry(sbBuf);
      var root := Word(sbBuf, 11);
      disk, geo, owner := part, sb, blocks;
      bits := ReadBits(part, sb.bitmapLba, sb.bitmapSects);
      inodeBits := ReadBits(part, sb.inodeBitmapLba, Word(sbBuf, 7));
      inodes := InodesRead(part, sb, root, numbers + {root});
    }

    ghost function State(): Vol
      reads this
    {
      Vol(disk, bits, inodes, owner, geo)
    }

    /** block_bitmap_alloc: a sector address, or the failed assertion on a full map. */
    method BlockBitmapAlloc() returns (lba: nat, full: bool)
      modifies this`bits
      ensures full <==> LowestClear(old(bits)) == |old(bits)|
      ensures full ==> bits == old(bits)
      ensures !full ==> lba == geo.dataStart + AllocIndex(old(bits)) && bits == AllocBits(old(bits))
    {
      var idx := LowestClear(bits);
      if idx == |bits| { return 0, true; }
      bits := Bitmap.SetBit(bits, idx, true);
      return geo.dataStart + idx, false;
    }

    /** bitmap_sync of the block bitmap. */
    method BitmapSync(idx: nat)
      requires idx < |bits| == 4096 * geo.bitmapSects && geo.bitmapLba + geo.bitmapSects <= |disk|
      modifies this`disk
      ensures disk == old(disk)[geo.bitmapLba + idx / 4096 := BitmapSector(bits, idx / 4096)]
    {
      var off := idx / 4096;
      disk := disk[geo.bitmapLba + off := BitmapSector(bits, off)];
    }

    /** bitmap_sync of the inode bitmap, which is one sector. */
    method InodeBitmapSync(idx: nat)
      requires idx < |inodeBits| == MAX_FILES && geo.inodeBitmapLba < |disk|
      modifies this`disk
      ensures disk == old(disk)[geo.inodeBitmapLba := BitmapSector(inodeBits, 0)]
    {
      var off := idx / 4096;
      disk := disk[geo.inodeBitmapLba + off := BitmapSector(inodeBits, off)];
    }

    /** Allocate a block for slot `index` of inode n, and sync the bitmap if asked. */
    method Take(n: nat, index: nat, sync: bool, ghost k: nat) returns (lba: nat, full: bool)
      requires GeoOk(geo, |disk|, |bits|) && |bits| == 4096 * geo.bitmapSects && k > 0 && AllocSafe(bits, Limit(geo), k)
      modifies this`bits, this`disk, this`owner
      ensures full <==> FreeBelow(old(bits), Limit(geo)) == 0
      ensures !full ==> LowestClear(old(bits)) < |old(bits)| && lba == geo.dataStart + AllocIndex(old(bits))
      ensures !full ==> State() == Taken(old(State()), n, index, sync)
    {
      AllocStep(bits, Limit(geo), k);
      lba, full := BlockBitmapAlloc();
      if full { return; }
      if sync {
        BitmapSync(lba - geo.dataStart);
      }
      owner := owner[lba := Slot(n, index)];
    }

    /** Allocate the next block of inode n; a direct one is entered in the inode. */
    method AddBlock(n: nat, idx: nat, ghost B: seq<nat>, ghost T: nat, ghost k: nat) returns (lba: nat, full: bool)
      requires Growing(State(), n, B, T) && idx == |B| < MAX_BLOCKS && k > 0 && AllocSafe(bits, Limit(geo), k)
      modifies this`disk, this`bits, this`inodes, this`owner
      ensures full <==> FreeBelow(old(bits), Limit(geo)) == 0
      ensures !full ==> LowestClear(old(bits)) < |old(bits)| && lba == geo.dataStart + AllocIndex(old(bits))
      ensures !full ==> State() == Extended(old(State()), n, idx, true)
    {
      lba, full := Take(n, idx, true, k);
      assert inodes == inodes[n := inodes[n]];
      if !full && idx < DIRECT {
        assert inodes[n].sectors[idx] == 0;
        inodes := inodes[n := inodes[n].(sectors := inodes[n].sectors[idx := lba])];
      }
    }

    /** The same, with what it keeps. */
    method GrowBlock(n: nat, idx: nat, ghost B: seq<nat>, ghost T: nat, ghost k: nat) returns (lba: nat, full: bool)
      requires Growing(State(), n, B, T) && idx == |B| < MAX_BLOCKS && k > 0 && AllocSafe(bits, Limit(geo), k)
      modifies this`disk, this`bits, this`inodes, this`owner
      ensures full <==> FreeBelow(old(bits), Limit(geo)) == 0
      ensures !full ==> Growing(State(), n, B + [lba], T) && Synced(disk, bits, geo)
      ensures !full ==> OnlyGrew(old(State()), State(), n)
      ensures !full ==> FreeBelow(bits, Limit(geo)) == FreeBelow(old(bits), Limit(geo)) - 1
      ensures !full ==> AllocSafe(bits, Limit(geo), k - 1)
    {
      AllocStep(bits, Limit(geo), k);
      ghost var v := State();
      lba, full := AddBlock(n, idx, B, T, k);
      if full { return; }
      GrownBy(v, State(), n, B, T, lba);
    }

    /** Allocate the indirect table of inode n; the bitmap is not synced here. */
    method AddTable(n: nat, ghost B: seq<nat>, ghost k: nat, ghost start: Vol) returns (lba: nat, full: bool)
      requires OnlyGrew(start, State(), n)
      requires Growing(State(), n, B, 0) && k > 0 && AllocSafe(bits, Limit(geo), k)
      modifies this`disk, this`bits, this`inodes, this`owner
      ensures full <==> FreeBelow(old(bits), Limit(geo)) == 0
      ensures !full ==> Growing(State(), n, B, lba) && lba != 0 && OnlyGrew(start, State(), n)
      ensures !full ==> FreeBelow(bits, Limit(geo)) == FreeBelow(old(bits), Limit(geo)) - 1
      ensures !full ==> AllocSafe(bits, Limit(geo), k - 1)
    {
      AllocStep(bits, Limit(geo), k);
      ghost var v := State();
      lba, full := Take(n, TABLE, false, k);
      if full { return; }
      assert inodes[n].sectors[12] == 0;
      inodes := inodes[n := inodes[n].(sectors := inodes[n].sectors[12 := lba])];
      TableStep(v, State(), n, B, lba);
      OnlyGrewTrans(start, v, State(), n);
    }

    /** Allocate blocks |B| to to - 1, recording them in all_blocks. */
    method AddBlocks(n: nat, all0: seq<nat>, from: nat, to: nat, ghost lo: nat, ghost B0: seq<nat>, ghost T: nat,
                     ghost k: nat, ghost start: Vol)
      returns (all: seq<nat>, full: bool, ghost B: seq<nat>)
      requires OnlyGrew(start, State(), n)
      requires Growing(State(), n, B0, T) && from == |B0| < to <= MAX_BLOCKS && to - from <= k
      requires AllocSafe(bits, Limit(geo), k)
      requires |all0| == MAX_BLOCKS && lo <= from && forall i :: lo <= i < from ==> all0[i] == B0[i]
      modifies this`disk, this`bits, this`inodes, this`owner
      ensures full <==> FreeBelow(old(bits), Limit(geo)) < to - from
      ensures !full ==> Growing(State(), n, B, T) && Synced(disk, bits, geo) && OnlyGrew(start, State(), n)
      ensures !full ==> FreeBelow(bits, Limit(geo)) == FreeBelow(old(bits), Limit(geo)) - (to - from)
      ensures !full ==> |all| == MAX_BLOCKS && |B| == to && B0 <= B && forall i :: lo <= i < to ==> all[i] == B[i]
    {
      all, B, full := all0, B0, false;
      var idx := from;
      while idx < to
        invariant from <= idx <= to && |B| == idx && B0 <= B
        invariant Growing(State(), n, B, T) && OnlyGrew(start, State(), n) && (idx > from ==> Synced(disk, bits, geo))
        invariant FreeBelow(bits, Limit(geo)) == FreeBelow(old(bits), Limit(geo)) - (idx - from)
        invariant AllocSafe(bits, Limit(geo), k - (idx - from))
        invariant |all| == MAX_BLOCKS && forall i :: lo <= i < idx ==> all[i] == B[i]
      {
        ghost var v := State();
        var lba;
        lba, full := GrowBlock(n, idx, B, T, k - (idx - from));
        if full { return; }
        OnlyGrewTrans(start, v, State(), n);
        B := B + [lba];
        all := all[idx := lba];
        idx := idx + 1;
      }
    }

    /** Cases 2 and 3 from the allocation loop on: the new entries go to disk with the whole table. */
    method AddIndirect(n: nat, table: nat, all0: seq<nat>, from: nat, to: nat, ghost lo: nat, ghost B0: seq<nat>,
                       ghost k: nat, ghost start: Vol)
      returns (all: seq<nat>, full: bool, ghost B: seq<nat>)
      requires OnlyGrew(start, State(), n) && Growing(State(), n, B0, table) && table != 0
      requires from == |B0| < to <= MAX_BLOCKS && 12 < to && to - from <= k && AllocSafe(bits, Limit(geo), k)
      requires |all0| == MAX_BLOCKS && lo <= 12 && lo <= from && forall i :: lo <= i < from ==> all0[i] == B0[i]
      modifies this`disk, this`bits, this`inodes, this`owner
      ensures full <==> FreeBelow(old(bits), Limit(geo)) < to - from
      ensures !full ==> Gathered(start, State(), n, B0, B, table, all, lo, to)
      ensures !full ==> FreeBelow(bits, Limit(geo)) == FreeBelow(old(bits), Limit(geo)) - (to - from)
    {
      all, full, B := AddBlocks(n, all0, from, to, lo, B0, table, k, start);
      if !full {
        WriteTable(n, table, all, B, start);
      }
    }

    /** file_write when no block is added. */
    method GatherNone(n: nat, has: nat, ghost B0: seq<nat>, ghost T: nat, ghost start: Vol) returns (all: seq<nat>)
      requires OnlyGrew(start, State(), n)
      requires Growing(State(), n, B0, T) && Synced(disk, bits, geo) && Tabled(disk, B0, T) && 1 <= has == |B0|
      ensures Gathered(start, State(), n, B0, B0, T, all, has - 1, has)
    {
      all := seq(MAX_BLOCKS, _ => 0);
      if has <= 12 {
        all := all[has - 1 := inodes[n].sectors[has - 1]];
      } else {
        assert inodes[n].sectors[12] != 0;
        all := all[..12] + Words(disk[inodes[n].sectors[12]]);
      }
    }

    /** Case 1: the direct blocks suffice. */
    method GatherDirect(n: nat, has: nat, will: nat, ghost B0: seq<nat>, ghost T: nat, ghost k: nat, ghost start: Vol)
      returns (all: seq<nat>, full: bool, ghost B: seq<nat>)
      requires OnlyGrew(start, State(), n)
      requires Growing(State(), n, B0, T) && Tabled(disk, B0, T) && 1 <= has == |B0| < will <= 12
      requires will - has <= k && AllocSafe(bits, Limit(geo), k)
      modifies this`disk, this`bits, this`inodes, this`owner
      ensures full <==> FreeBelow(old(bits), Limit(geo)) < will - has
      ensures !full ==> Gathered(start, State(), n, B0, B, T, all, has - 1, will)
      ensures !full ==> FreeBelow(bits, Limit(geo)) == FreeBelow(old(bits), Limit(geo)) - (will - has)
    {
      all := seq(MAX_BLOCKS, _ => 0);
      assert inodes[n].sectors[has - 1] != 0;
      all := all[has - 1 := inodes[n].sectors[has - 1]];
      all, full, B := AddBlocks(n, all, has, will, has - 1, B0, T, k, start);
    }

    /** Case 2: the file crosses into the indirect table. */
    method GatherCrossing(n: nat, has: nat, will: nat, ghost B0: seq<nat>, ghost k: nat, ghost start: Vol)
      returns (all: seq<nat>, full: bool, ghost B: seq<nat>, table: nat)
      requires OnlyGrew(start, State(), n)
      requires Growing(State(), n, B0, 0) && 1 <= has == |B0| <= 12 < will <= MAX_BLOCKS
      requires will - has + 1 <= k && AllocSafe(bits, Limit(geo), k)
      modifies this`disk, this`bits, this`inodes, this`owner
      ensures full <==> FreeBelow(old(bits), Limit(geo)) < will - has + 1
      ensures !full ==> Gathered(start, State(), n, B0, B, table, all, has - 1, will)
      ensures !full ==> FreeBelow(bits, Limit(geo)) == FreeBelow(old(bits), Limit(geo)) - (will - has + 1)
    {
      all := seq(MAX_BLOCKS, _ => 0);
      all, B := all[has - 1 := inodes[n].sectors[has - 1]], B0;
      table, full := AddTable(n, B0, k, start);
      if !full {
        all, full, B := AddIndirect(n, table, all, has, will, has - 1, B0, k - 1, start);
      }
    }

    /** Case 3: the file is in the indirect table already. */
    method GatherIndirect(n: nat, has: nat, will: nat, ghost B0: seq<nat>, ghost T: nat, ghost k: nat, ghost start: Vol)
      returns (all: seq<nat>, full: bool, ghost B: seq<nat>)
      requires OnlyGrew(start, State(), n)
      requires Growing(State(), n, B0, T) && Tabled(disk, B0, T) && 12 < has == |B0| < will <= MAX_BLOCKS
      requires will - has <= k && AllocSafe(bits, Limit(geo), k)
      modifies this`disk, this`bits, this`inodes, this`owner
      ensures full <==> FreeBelow(old(bits), Limit(geo)) < will - has
      ensures !full ==> Gathered(start, State(), n, B0, B, T, all, has - 1, will)
      ensures !full ==> FreeBelow(bits, Limit(geo)) == FreeBelow(old(bits), Limit(geo)) - (will - has)
    {
      all := seq(MAX_BLOCKS, _ => 0);
      assert inodes[n].sectors[12] != 0;
      var table := inodes[n].sectors[12];
      all := all[..12] + Words(disk[table]);
      all, full, B := AddIndirect(n, table, all, has, will, 12, B0, k, start);
    }

    /** ide_write of all_blocks + 12 to the indirect table. */
    method WriteTable(n: nat, table: nat, all: seq<nat>, ghost B: seq<nat>, ghost start: Vol)
      requires Growing(State(), n, B, table) && Synced(disk, bits, geo) && DIRECT < |B| && table != 0
      requires |all| == MAX_BLOCKS && forall i :: DIRECT <= i < |B| ==> all[i] == B[i]
      requires OnlyGrew(start, State(), n)
      modifies this`disk
      ensures Growing(State(), n, B, table) && Synced(disk, bits, geo) && Tabled(disk, B, table)
      ensures OnlyGrew(start, State(), n)
    {
      var sector: Sector := Encode(all[DIRECT..]);
      ghost var v := State();
      TableWritten(v, n, B, table, all, sector);
      disk := disk[table := sector];
      OnlyGrewTrans(start, v, State(), n);
    }

    /** One round of the data loop: a zeroed buffer, or the sector read back for the first one. */
    method WriteChunk(lba: nat, off: nat, chunk: seq<Byte>, first: bool, ghost B: seq<nat>, ghost i: nat,
                      ghost data: seq<Byte>)
      requires Holds(disk, B, data) && |data| == 512 * i + off && off < 512 && i < |B| && off + |chunk| <= 512
      requires lba == B[i]
      requires forall a, b :: 0 <= a < b < |B| ==> B[a] != B[b]
      requires first || off == 0
      modifies this`disk
      ensures Holds(disk, B, data + chunk)
      ensures |disk| == |old(disk)| && forall l :: 0 <= l < |disk| && l != lba ==> disk[l] == old(disk)[l]
    {
      var ioBuf: seq<Byte> := seq(512, _ => 0);
      if first {
        ioBuf := disk[lba];
      }
      var sector: Sector := Patched(ioBuf, off, chunk);
      HoldsMore(disk, B, data, i, off, chunk, sector);
      disk := disk[lba := sector];
    }

    /** One pass of the data loop: as much of buf as the sector at the end of the file takes. */
    method WriteRound(file: OpenFile, buf: seq<Byte>, bytesWritten: nat, first: bool, all: seq<nat>, ghost B: seq<nat>,
                      ghost was: seq<Byte>)
      returns (chunkSize: nat)
      requires file.ino in inodes && bytesWritten < |buf| && |was| + |buf| < MAX_BYTES
      requires inodes[file.ino].size == |was| + bytesWritten && file.pos == OneBehind(|was| + bytesWritten)
      requires Holds(disk, B, was + buf[..bytesWritten]) && |B| == (|was| + |buf|) / 512 + 1
      requires forall a, b :: 0 <= a < b < |B| ==> B[a] != B[b]
      requires |all| == MAX_BLOCKS && forall i :: |was| / 512 <= i < |B| ==> all[i] == B[i]
      requires first || (|was| + bytesWritten) % 512 == 0
      modifies this`disk, this`inodes, file`pos
      ensures 0 < chunkSize && bytesWritten + chunkSize <= |buf|
      ensures bytesWritten + chunkSize == |buf| || (|was| + bytesWritten + chunkSize) % 512 == 0
      ensures Holds(disk, B, was + buf[..bytesWritten + chunkSize])
      ensures inodes == old(inodes)[file.ino := old(inodes[file.ino]).(size := |was| + bytesWritten + chunkSize)]
      ensures |disk| == |old(disk)| && forall l :: 0 <= l < |disk| && l !in B ==> disk[l] == old(disk)[l]
      ensures file.pos == OneBehind(|was| + bytesWritten + chunkSize)
    {
      var n, sizeLeft := file.ino, |buf| - bytesWritten;
      var size := inodes[n].size;
      var secIdx, secOff := size / 512, size % 512;
      var secLeft := 512 - secOff;
      chunkSize := if sizeLeft < secLeft then sizeLeft else secLeft;
      var chunk := buf[bytesWritten..bytesWritten + chunkSize];
      WriteChunk(all[secIdx], secOff, chunk, first, B, secIdx, was + buf[..bytesWritten]);
      assert was + buf[..bytesWritten] + chunk == was + buf[..bytesWritten + chunkSize];
      inodes := inodes[n := inodes[n].(size := size + chunkSize)];
      PosStep(size, chunkSize);
      if chunkSize == secLeft { SectorEnd(size, chunkSize); }
      file.pos := (file.pos + chunkSize) % MAX32;
    }

    /** The data loop of file_write. */
    method WriteData(file: OpenFile, buf: seq<Byte>, all: seq<nat>, ghost B: seq<nat>, ghost was: seq<Byte>)
      requires file.ino in inodes && inodes[file.ino].size == |was| && |was| + |buf| < MAX_BYTES
      requires Holds(disk, B, was) && |B| == (|was| + |buf|) / 512 + 1
      requires forall a, b :: 0 <= a < b < |B| ==> B[a] != B[b]
      requires |all| == MAX_BLOCKS && forall i :: |was| / 512 <= i < |B| ==> all[i] == B[i]
      modifies this`disk, this`inodes, file`pos
      ensures Holds(disk, B, was + buf)
      ensures inodes == old(inodes)[file.ino := old(inodes[file.ino]).(size := |was| + |buf|)]
      ensures |disk| == |old(disk)| && forall l :: 0 <= l < |disk| && l !in B ==> disk[l] == old(disk)[l]
      ensures file.pos == if |was| + |buf| == 0 then MAX32 - 1 else |was| + |buf| - 1
    {
      var n := file.ino;
      var bytesWritten, first := 0, true;
      file.pos := OneBehind(inodes[n].size);
      assert inodes == inodes[n := inodes[n]] && inodes[n] == inodes[n].(size := |was|);
      assert was + buf[..0] == was;
      while bytesWritten < |buf|
        invariant bytesWritten <= |buf|
        invariant Holds(disk, B, was + buf[..bytesWritten])
        invariant n in inodes && inodes == old(inodes)[n := old(inodes[n]).(size := |was| + bytesWritten)]
        invariant |disk| == |old(disk)| && forall l :: 0 <= l < |disk| && l !in B ==> disk[l] == old(disk)[l]
        invariant file.pos == OneBehind(|was| + bytesWritten)
        invariant first || bytesWritten == |buf| || (|was| + bytesWritten) % 512 == 0
      {
        var chunkSize := WriteRound(file, buf, bytesWritten, first, all, B, was);
        first := false;
        bytesWritten := bytesWritten + chunkSize;
      }
      assert buf[..bytesWritten] == buf;
    }

    /** inode_sync: read the sectors of the inode, put its bytes in, write them back. */
    method InodeSync(n: nat)
      requires n in inodes && inodes[n].no < MAX_FILES && |inodes[n].sectors| == 13
      requires geo.tableLba + TABLE_SECTS <= |disk|
      modifies this`disk
      ensures SlotWritten(old(disk), disk, geo.tableLba, inodes[n].no, Bytes(inodes[n]))
    {
      var pos := Locate(inodes[n].no);
      if pos.twoSec {
        SyncTwoSectors(inodes[n].no, pos, Bytes(inodes[n]));
      } else {
        SyncOneSector(inodes[n].no, pos, Bytes(inodes[n]));
      }
    }

    /** inode_delete: the same with zeros. */
    method InodeDelete(no: nat)
      requires no < MAX_FILES && geo.tableLba + TABLE_SECTS <= |disk|
      modifies this`disk
      ensures SlotWritten(old(disk), disk, geo.tableLba, no, seq(INODE_BYTES, _ => 0))
    {
      var pos := Locate(no);
      if pos.twoSec {
        SyncTwoSectors(no, pos, seq(INODE_BYTES, _ => 0));
      } else {
        SyncOneSector(no, pos, seq(INODE_BYTES, _ => 0));
      }
    }

    method SyncOneSector(no: nat, pos: Position, pure: seq<Byte>)
      requires no < MAX_FILES && pos == Locate(no) && !pos.twoSec && |pure| == INODE_BYTES
      requires geo.tableLba + TABLE_SECTS <= |disk|
      modifies this`disk
      ensures SlotWritten(old(disk), disk, geo.tableLba, no, pure)
    {
      LocateInTable(no);
      var lba := geo.tableLba + pos.sec;
      var inodeBuf: seq<Byte> := disk[lba];
      var s0: Sector := Patched(inodeBuf, pos.off, pure);
      PatchIsSlotWritten(disk, disk[lba := s0], geo.tableLba, no, pure, s0, s0);
      disk := disk[lba := s0];
    }

    method SyncTwoSectors(no: nat, pos: Position, pure: seq<Byte>)
      requires no < MAX_FILES && pos == Locate(no) && pos.twoSec && |pure| == INODE_BYTES
      requires geo.tableLba + TABLE_SECTS <= |disk|
      modifies this`disk
      ensures SlotWritten(old(disk), disk, geo.tableLba, no, pure)
    {
      LocateInTable(no);
      var lba := geo.tableLba + pos.sec;
      var first: seq<Byte>, second: seq<Byte> := disk[lba], disk[lba + 1];
      var inodeBuf := Patched(first + second, pos.off, pure);
      var s0: Sector, s1: Sector := inodeBuf[..512], inodeBuf[512..];
      PatchIsSlotWritten(disk, disk[lba := s0][lba + 1 := s1], geo.tableLba, no, pure, s0, s1);
      disk := disk[lba := s0][lba + 1 := s1];
    }

    /** The first write of a file gives it its first block. */
    method FirstBlock(n: nat, ghost k: nat) returns (full: bool, ghost B: seq<nat>)
      requires Inv(State()) && n in inodes && Regular(inodes[n]) && AllocSafe(bits, Limit(geo), k)
      requires inodes[n].sectors[0] == 0 ==> k > 0
      modifies this`disk, this`bits, this`inodes, this`owner
      ensures full <==> old(inodes[n]).sectors[0] == 0 && FreeBelow(old(bits), Limit(geo)) == 0
      ensures !full ==> Growing(State(), n, B, old(inodes[n]).sectors[12])
      ensures !full ==> Synced(disk, bits, geo) && Tabled(disk, B, old(inodes[n]).sectors[12])
      ensures !full ==> OnlyGrew(old(State()), State(), n) && |B| == inodes[n].size / 512 + 1
      ensures !full ==> old(BlocksOf(disk, inodes[n])) <= B
      ensures !full ==> var first := if old(inodes[n]).sectors[0] == 0 then 1 else 0;
                FreeBelow(bits, Limit(geo)) == FreeBelow(old(bits), Limit(geo)) - first
                    && AllocSafe(bits, Limit(geo), k - first)
    {
      Begin(State(), n);
      B, full := BlocksOf(disk, inodes[n]), false;
      if inodes[n].sectors[0] == 0 {
        var lba;
        lba, full := GrowBlock(n, 0, B, inodes[n].sectors[12], k);
        if !full { B := B + [lba]; }
      }
    }

    /** The three cases of file_write's allocation, and none. */
    method Gather(n: nat, has: nat, will: nat, ghost B0: seq<nat>, ghost T0: nat, ghost k: nat, ghost start: Vol)
      returns (all: seq<nat>, full: bool, ghost B: seq<nat>, ghost T: nat)
      requires Growing(State(), n, B0, T0) && Synced(disk, bits, geo) && Tabled(disk, B0, T0)
      requires OnlyGrew(start, State(), n)
      requires 1 <= has == |B0| <= will <= MAX_BLOCKS
      requires k == will - has + (if has <= 12 < will then 1 else 0) && AllocSafe(bits, Limit(geo), k)
      modifies this`disk, this`bits, this`inodes, this`owner
      ensures full <==> FreeBelow(old(bits), Limit(geo)) < k
      ensures !full ==> Gathered(start, State(), n, B0, B, T, all, has - 1, will)
      ensures !full ==> FreeBelow(bits, Limit(geo)) == FreeBelow(old(bits), Limit(geo)) - k
    {
      T, full := T0, false;
      if will == has {
        B := B0;
        all := GatherNone(n, has, B0, T, start);
      } else if will <= 12 {
        all, full, B := GatherDirect(n, has, will, B0, T, k, start);
      } else if has <= 12 {
        all, full, B, T := GatherCrossing(n, has, will, B0, k, start);
      } else {
        all, full, B := GatherIndirect(n, has, will, B0, T, k, start);
      }
    }

    /** file_write up to the data loop: all blocks of the file at its new size. */
    method Collect(n: nat, count: nat, ghost k: nat)
      returns (all: seq<nat>, stopped: bool, ghost B: seq<nat>, ghost T: nat)
      requires Inv(State()) && n in inodes && Regular(inodes[n]) && inodes[n].size + count <= MAX_BYTES
      requires k == Needed(inodes[n], count) && AllocSafe(bits, Limit(geo), k)
      modifies this`disk, this`bits, this`inodes, this`owner
      ensures stopped <==> old(inodes[n]).size + count == MAX_BYTES || FreeBelow(old(bits), Limit(geo)) < k
      ensures !stopped ==>
                var size := old(inodes[n]).size;
                Gathered(old(State()), State(), n, old(BlocksOf(disk, inodes[n])), B, T, all, size / 512,
                    (size + count) / 512 + 1)
      ensures !stopped ==> FreeBelow(bits, Limit(geo)) == FreeBelow(old(bits), Limit(geo)) - k
    {
      all := [];
      ghost var start := State();
      T := inodes[n].sectors[12];
      ghost var left := if inodes[n].sectors[0] == 0 then k - 1 else k;
      stopped, B := FirstBlock(n, k);
      if !stopped {
        var has, will := inodes[n].size / 512 + 1, (inodes[n].size + count) / 512 + 1;
        if will > MAX_BLOCKS {
          stopped := true;
        } else {
          all, stopped, B, T := Gather(n, has, will, B, T, left, start);
        }
      }
    }

    /** file_write from the data loop on. */
    method Fill(file: OpenFile, buf: seq<Byte>, all: seq<nat>, ghost B: seq<nat>, ghost T: nat, ghost was: seq<Byte>,
                ghost a: Vol)
      requires Inv(a) && file.ino in a.inodes && FileIs(a.disk, a.inodes[file.ino], was) && |was| + |buf| < MAX_BYTES
      requires Gathered(a, State(), file.ino, BlocksOf(a.disk, a.inodes[file.ino]), B, T, all, |was| / 512,
                (|was| + |buf|) / 512 + 1)
      modifies this`disk, this`inodes, file`pos
      ensures Written(a, State(), file.ino, was, buf)
      ensures file.pos == if |was| + |buf| == 0 then MAX32 - 1 else |was| + |buf| - 1
    {
      ghost var v := State();
      HoldsGrown(a, v, file.ino, B, T, was);
      BlocksDiffer(owner, file.ino, B, T);
      WriteData(file, buf, all, B, was);
      ghost var disk2 := disk;
      InodeSync(file.ino);
      FinishWrite(a, v, State(), file.ino, B, T, disk2, was, buf);
    }

    /** file_write once its buffers are allocated. */
    method Append(file: OpenFile, buf: seq<Byte>, ghost was: seq<Byte>) returns (stopped: bool)
      requires Inv(State()) && file.ino in inodes && FileIs(disk, inodes[file.ino], was) && |was| + |buf| <= MAX_BYTES
      requires AllocSafe(bits, Limit(geo), Needed(inodes[file.ino], |buf|))
      modifies this`disk, this`bits, this`inodes, this`owner, file`pos
      ensures stopped <==>
                |was| + |buf| == MAX_BYTES || FreeBelow(old(bits), Limit(geo)) < Needed(old(inodes)[file.ino], |buf|)
      ensures !stopped ==> Written(old(State()), State(), file.ino, was, buf)
      ensures !stopped ==> file.pos == if |was| + |buf| == 0 then MAX32 - 1 else |was| + |buf| - 1
      ensures !stopped ==>
                FreeBelow(bits, Limit(geo)) == FreeBelow(old(bits), Limit(geo)) - Needed(old(inodes)[file.ino], |buf|)
    {
      var n := file.ino;
      ghost var a := State();
      ghost var k := Needed(inodes[n], |buf|);
      var all;
      ghost var B, T;
      all, stopped, B, T := Collect(n, |buf|, k);
      if !stopped { Fill(file, buf, all, B, T, was, a); }
    }

    /** file_write: append buf to the file. `noMemory` is a sys_malloc that fails. The size check is in 32 bits. */
    method FileWrite(file: OpenFile, buf: seq<Byte>, noMemory: bool, ghost was: seq<Byte>) returns (r: Outcome)
      requires Inv(State()) && file.ino in inodes && FileIs(disk, inodes[file.ino], was) && |buf| < MAX32
      requires |was| + |buf| <= MAX_BYTES ==> AllocSafe(bits, Limit(geo), Needed(inodes[file.ino], |buf|))
      modifies this`disk, this`bits, this`inodes, this`owner, file`pos
      ensures r == Failed <==> MAX_BYTES < |was| + |buf| < MAX32 || noMemory
      ensures r == Failed ==> State() == old(State()) && file.pos == old(file.pos)
      ensures r != Failed ==> (r == Overrun <==> |was| + |buf| >= MAX32)
      ensures r != Failed && r != Overrun ==>
                (r == Halted <==>
                   |was| + |buf| == MAX_BYTES
                   || FreeBelow(old(bits), Limit(geo)) < Needed(old(inodes)[file.ino], |buf|))
      ensures r.Count? ==> r.n == |buf| && Written(old(State()), State(), file.ino, was, buf)
      ensures r.Count? ==> file.pos == if |was| + |buf| == 0 then MAX32 - 1 else |was| + |buf| - 1
      ensures r.Count? ==>
                FreeBelow(bits, Limit(geo)) == FreeBelow(old(bits), Limit(geo)) - Needed(old(inodes)[file.ino], |buf|)
    {
      WriteSizeIs(inodes[file.ino].size, |buf|);
      if (inodes[file.ino].size + |buf|) % MAX32 > 71680 || noMemory { return Failed; }
      if inodes[file.ino].size + |buf| > 71680 { return Overrun; }
      var stopped := Append(file, buf, was);
      return if stopped then Halted else Count(|buf|);
    }

    /** The block addresses file_read collects, for blocks start to end. */
    method GatherForRead(n: nat, start: nat, end: nat, ghost data: seq<Byte>) returns (all: seq<nat>)
      requires n in inodes && FileIs(disk, inodes[n], data) && start <= end < MAX_BLOCKS && end <= |data| / 512
      ensures |all| == MAX_BLOCKS
      ensures forall i :: start <= i <= end && i < Used(inodes[n]) ==> all[i] == BlocksOf(disk, inodes[n])[i]
    {
      all := seq(MAX_BLOCKS, _ => 0);
      if start == end {
        if end < 12 {
          all := all[end := inodes[n].sectors[end]];
        } else {
          all := all[..12] + Words(disk[inodes[n].sectors[12]]);
        }
      } else if end < 12 {
        all := CopyDirect(n, all, start, end + 1);
      } else if start < 12 {
        all := CopyDirect(n, all, start, 12);
        assert inodes[n].sectors[12] != 0;
        all := all[..12] + Words(disk[inodes[n].sectors[12]]);
      } else {
        assert inodes[n].sectors[12] != 0;
        all := all[..12] + Words(disk[inodes[n].sectors[12]]);
      }
    }

    method CopyDirect(n: nat, all0: seq<nat>, from: nat, to: nat) returns (all: seq<nat>)
      requires n in inodes && |inodes[n].sectors| == 13 && |all0| == MAX_BLOCKS && from <= to <= 12
      ensures |all| == MAX_BLOCKS && forall i :: from <= i < to ==> all[i] == inodes[n].sectors[i]
    {
      all := all0;
      var idx := from;
      while idx < to
        invariant from <= idx <= to && |all| == MAX_BLOCKS
        invariant forall i :: from <= i < idx ==> all[i] == inodes[n].sectors[i]
      {
        all := all[idx := inodes[n].sectors[idx]];
        idx := idx + 1;
      }
    }

    /** The data loop of file_read. */
    method ReadData(file: OpenFile, size: nat, all: seq<nat>, ghost data: seq<Byte>) returns (buf: seq<Byte>)
      requires file.ino in inodes && FileIs(disk, inodes[file.ino], data) && file.pos + size <= |data|
      requires |all| == MAX_BLOCKS
      requires forall i :: file.pos / 512 <= i <= (file.pos + size) / 512 && i < Used(inodes[file.ino]) ==>
                all[i] == BlocksOf(disk, inodes[file.ino])[i]
      modifies file`pos
      ensures buf == data[old(file.pos)..old(file.pos) + size] && file.pos == old(file.pos) + size
    {
      buf := [];
      var start, bytesRead, sizeLeft := file.pos, 0, size;
      while bytesRead < size
        invariant bytesRead <= size && sizeLeft == size - bytesRead && file.pos == start + bytesRead
        invariant buf == data[start..start + bytesRead]
      {
        var secIdx, secOff := file.pos / 512, file.pos % 512;
        var secLeft := 512 - secOff;
        var chunkSize := if sizeLeft < secLeft then sizeLeft else secLeft;
        var chunk := ReadChunk(file, all[secIdx], secOff, chunkSize, data);
        buf := buf + chunk;
        file.pos := file.pos + chunkSize;
        bytesRead := bytesRead + chunkSize;
        sizeLeft := sizeLeft - chunkSize;
      }
    }

    method ReadChunk(file: OpenFile, lba: nat, off: nat, size: nat, ghost data: seq<Byte>) returns (chunk: seq<Byte>)
      requires file.ino in inodes && FileIs(disk, inodes[file.ino], data) && 0 < size && file.pos + size <= |data|
      requires off == file.pos % 512 && off + size <= 512 && lba == BlocksOf(disk, inodes[file.ino])[file.pos / 512]
      ensures chunk == data[file.pos..file.pos + size]
    {
      var ioBuf: seq<Byte> := disk[lba];
      chunk := ioBuf[off..off + size];
      ghost var B := BlocksOf(disk, inodes[file.ino]);
      forall k | 0 <= k < size ensures chunk[k] == data[file.pos + k] {
        assert (file.pos + k) / 512 == file.pos / 512 && (file.pos + k) % 512 == off + k;
        assert disk[B[(file.pos + k) / 512]][(file.pos + k) % 512] == data[file.pos + k];
      }
    }

    /** file_read of count bytes from the position, in 32-bit arithmetic: -1 at the end of the file, a failed
        assertion from block 139 on, and the bytes otherwise. A sum that wraps, or a position beyond the end as a
        write of no bytes to an empty file leaves it, makes the loop go on behind the file. `noMemory` is a
        sys_malloc of all_blocks that fails. */
    method FileRead(file: OpenFile, count: nat, noMemory: bool, ghost data: seq<Byte>)
      returns (r: Outcome, buf: seq<Byte>)
      requires file.ino in inodes && FileIs(disk, inodes[file.ino], data) && file.pos < MAX32 && count < MAX32
      modifies file`pos
      ensures r == Failed <==>
                (count > 0 && old(file.pos) == |data| && old(file.pos) + count < MAX32) || noMemory
      ensures r != Failed && old(file.pos) <= |data| && old(file.pos) + count < MAX32 ==>
                (r == Halted <==> old(file.pos) + count >= 71168 && |data| >= 71168) && r != Overrun
      ensures r != Failed && (old(file.pos) > |data| || old(file.pos) + count >= MAX32) ==>
                r == if old(file.pos) >= 71168 then Halted else Overrun
      ensures r.Count? ==>
                && r.n == (if old(file.pos) + count > |data| then |data| - old(file.pos) else count)
                && file.pos == old(file.pos) + r.n && buf == data[old(file.pos)..old(file.pos) + r.n]
      ensures !r.Count? ==> file.pos == old(file.pos)
    {
      var n := file.ino;
      r, buf := Failed, [];
      ReadSizeIs(file.pos, inodes[n].size, count);
      var size := ReadSize(file.pos, inodes[n].size, count);
      if !((file.pos + count) % MAX32 > inodes[n].size && size == 0) && !noMemory {
        r, buf := ReadBlocks(file, count, size, data);
      }
    }

    /** file_read from the assertion on. */
    method ReadBlocks(file: OpenFile, ghost count: nat, size: nat, ghost data: seq<Byte>)
      returns (r: Outcome, buf: seq<Byte>)
      requires file.ino in inodes && FileIs(disk, inodes[file.ino], data) && file.pos < MAX32 && count < MAX32
      requires size == ReadSize(file.pos, |data|, count)
      modifies file`pos
      ensures r != Failed && (r == Halted <==> LastBlock(data, old(file.pos), count) >= 139)
      ensures r != Halted ==> (r == Overrun <==> !Fits32(data, old(file.pos), count))
      ensures r.Count? ==>
                && r.n == Available(data, old(file.pos), count) && file.pos == old(file.pos) + r.n
                && buf == data[old(file.pos)..old(file.pos) + r.n]
      ensures !r.Count? ==> file.pos == old(file.pos)
    {
      ReadBlocksAre(data, file.pos, count, size);
      var startIdx, endIdx := file.pos / 512, (file.pos + size) % MAX32 / 512;
      r, buf := Halted, [];
      if startIdx < 139 && endIdx < 139 {
        if file.pos + size > inodes[file.ino].size {
          r := Overrun;
        } else {
          buf := ReadInside(file, startIdx, endIdx, size, data);
          r := Count(size);
        }
      }
    }

    /** The block addresses and the data loop. */
    method ReadInside(file: OpenFile, startIdx: nat, endIdx: nat, size: nat, ghost data: seq<Byte>)
      returns (buf: seq<Byte>)
      requires file.ino in inodes && FileIs(disk, inodes[file.ino], data) && file.pos + size <= |data|
      requires startIdx == file.pos / 512 && endIdx == (file.pos + size) / 512 < 139
      modifies file`pos
      ensures buf == data[old(file.pos)..old(file.pos) + size] && file.pos == old(file.pos) + size
    {
      var all := GatherForRead(file.ino, startIdx, endIdx, data);
      buf := ReadData(file, size, all, data);
    }
  }

  /** file_write's size check refuses what does not fit exactly when the sum does not wrap. */
  lemma WriteSizeIs(size: nat, count: nat)
    requires size < MAX_BYTES && count < MAX32
    ensures ((size + count) % MAX32 > MAX_BYTES <==> size + count > MAX_BYTES) <==> size + count < MAX32
  {
    if size + count >= MAX32 { assert (size + count) % MAX32 == size + count - MAX32; }
  }

  /** The size that file_read works with, as a 32-bit difference when the request goes past the end. */
  function ReadSize(pos: nat, size: nat, count: nat): nat
    requires pos < MAX32
  {
    if (pos + count) % MAX32 > size then (size + MAX32 - pos) % MAX32 else count
  }

  /** The size is cut to what the file has exactly when the position is inside it and the sum does not wrap. */
  lemma ReadSizeIs(pos: nat, size: nat, count: nat)
    requires size < MAX_BYTES && pos < MAX32 && count < MAX32
    ensures pos + ReadSize(pos, size, count) <= size <==> pos <= size && pos + count < MAX32
    ensures pos <= size && pos + count < MAX32 ==>
              ReadSize(pos, size, count) == if pos + count > size then size - pos else count
    ensures (pos + count) % MAX32 > size && ReadSize(pos, size, count) == 0 <==> pos == size && 0 < count < MAX32 - pos
  {
    if pos + count >= MAX32 { assert (pos + count) % MAX32 == pos + count - MAX32; }
    if pos > size { assert (size + MAX32 - pos) % MAX32 == size + MAX32 - pos; }
  }

  ghost predicate Fits32(data: seq<Byte>, pos: nat, count: nat) {
    pos <= |data| && pos + count < MAX32
  }

  /** How much of count bytes the file has from pos on. */
  function Available(data: seq<Byte>, pos: nat, count: nat): nat
  {
    if pos > |data| then 0 else if pos + count > |data| then |data| - pos else count
  }

  /** The highest block index that file_read's assertion sees. */
  ghost function LastBlock(data: seq<Byte>, pos: nat, count: nat): nat {
    if Fits32(data, pos, count) then (pos + Available(data, pos, count)) / 512 else pos / 512
  }

  lemma ReadBlocksAre(data: seq<Byte>, pos: nat, count: nat, size: nat)
    requires |data| < MAX_BYTES && pos < MAX32 && count < MAX32 && size == ReadSize(pos, |data|, count)
    ensures LastBlock(data, pos, count) >= 139 <==> pos / 512 >= 139 || (pos + size) % MAX32 / 512 >= 139
    ensures pos + size <= |data| <==> Fits32(data, pos, count)
    ensures Fits32(data, pos, count) ==> size == Available(data, pos, count) && (pos + size) % MAX32 == pos + size
  {
    ReadSizeIs(pos, |data|, count);
    if Fits32(data, pos, count) {
      assert pos + size < MAX32;
    } else {
      WrapsBelow(pos, |data|, count);
    }
  }

  lemma WrapsBelow(pos: nat, size: nat, count: nat)
    requires size < MAX_BYTES && pos < MAX32 && count < MAX32 && (pos > size || pos + count >= MAX32)
    ensures (pos + ReadSize(pos, size, count)) % MAX32 <= pos
  {
  }
}
