/** fs/inode.c: where an inode lies in the table, its bytes, and reading and writing them. */
module Inodes {
  import opened Disk
  import opened Volume

  /** inode_locate, relative to the table: sector, byte offset, and whether the inode straddles. */
  datatype Position = Position(sec: nat, off: nat, twoSec: bool)

  function Locate(no: nat): (p: Position)
    ensures 512 * p.sec + p.off == INODE_BYTES * no && p.off < 512
    ensures p.twoSec <==> p.off + INODE_BYTES > 512
  {
    var bytes := no * INODE_BYTES;
    Position(bytes / 512, bytes % 512, bytes % 512 + INODE_BYTES > 512)
  }

  /** Every inode of the table lies inside it, straddling or not. */
  lemma LocateInTable(no: nat)
    requires no < MAX_FILES
    ensures Locate(no).sec + (if Locate(no).twoSec then 2 else 1) <= TABLE_SECTS
  {
  }

  /** file_write gives inode_sync a buffer of one sector. It is large enough exactly for the inodes that do not
      straddle, which are told by their place; the first that does is number 6. */
  lemma OneSectorIsEnough(no: nat)
    ensures !Locate(no).twoSec <==> INODE_BYTES * no % 512 <= 436
    ensures Locate(6) == Position(0, 456, true) && (no < 6 ==> !Locate(no).twoSec)
  {
    assert Locate(no).off == INODE_BYTES * no % 512;
  }

  /** The words of struct inode on disk, in order. */
  function Fields(inode: Inode): (w: seq<nat>)
    requires |inode.sectors| == 13
    ensures |w| == 19
  {
    [inode.no, inode.size, 0, 0] + inode.sectors + [0, 0]
  }

  /** The 76 bytes of struct inode on disk: the open count, the write lock and the list links are
      written as zero. */
  function Bytes(inode: Inode): (b: seq<Byte>)
    requires |inode.sectors| == 13
    ensures |b| == INODE_BYTES
  {
    Encode(Fields(inode))
  }

  function FromFields(w: seq<nat>): Inode
    requires |w| == 19
  {
    Inode(w[0], w[1], w[2], w[3] != 0, w[4..17])
  }

  function FromBytes(b: seq<Byte>): Inode
    requires |b| == INODE_BYTES
  {
    FromFields(Words(b))
  }

  ghost predicate Fits(inode: Inode) {
    |inode.sectors| == 13 && inode.no < MAX32 && inode.size < MAX32 && forall i :: 0 <= i < 13 ==>
        inode.sectors[i] < MAX32
  }

  /** Where the fields of struct inode lie: the number at byte 0, the size at 4, the blocks from 16 on. */
  lemma InodeLayout(inode: Inode)
    requires Fits(inode)
    ensures Word(Bytes(inode), 0) == inode.no && Word(Bytes(inode), 1) == inode.size
    ensures Word(Bytes(inode), 2) == 0 && Word(Bytes(inode), 3) == 0
    ensures forall i :: 0 <= i < 13 ==> Word(Bytes(inode), 4 + i) == inode.sectors[i]
  {
    FieldsFit(inode);
    EncodedWord(Fields(inode), 0);
    EncodedWord(Fields(inode), 1);
    EncodedWord(Fields(inode), 2);
    EncodedWord(Fields(inode), 3);
    forall i | 0 <= i < 13 ensures Word(Bytes(inode), 4 + i) == inode.sectors[i] {
      EncodedWord(Fields(inode), 4 + i);
    }
  }

  lemma FieldsFit(inode: Inode)
    requires Fits(inode)
    ensures forall k :: 0 <= k < 19 ==> Fields(inode)[k] < MAX32
  {
    var w := Fields(inode);
    forall k | 0 <= k < 19 ensures w[k] < MAX32 {
      if 4 <= k < 17 { assert w[k] == inode.sectors[k - 4]; }
    }
  }

  lemma BytesRoundTrip(inode: Inode)
    requires Fits(inode)
    ensures FromBytes(Bytes(inode)) == inode.(openCount := 0, writeDeny := false)
  {
    WordsOfBytes(inode);
    FieldsRoundTrip(inode);
  }

  lemma FieldsRoundTrip(inode: Inode)
    requires Fits(inode)
    ensures FromFields(Fields(inode)) == inode.(openCount := 0, writeDeny := false)
  {
    assert Fields(inode)[4..17] == inode.sectors;
  }

  lemma WordsOfBytes(inode: Inode)
    requires Fits(inode)
    ensures Words(Bytes(inode)) == Fields(inode)
  {
    FieldsFit(inode);
    DecodeEncode(Fields(inode));
  }

  /** Byte k of the table that starts at sector lba. */
  function TableByte(disk: seq<Sector>, lba: nat, k: nat): Byte
    requires lba + k / 512 < |disk|
  {
    disk[lba + k / 512][k % 512]
  }

  /** The bytes of inode `no`, as inode_open cuts them out of one or two sectors. */
  function SlotBytes(disk: seq<Sector>, lba: nat, no: nat): (b: seq<Byte>)
    requires no < MAX_FILES && lba + TABLE_SECTS <= |disk|
    ensures |b| == INODE_BYTES
    ensures forall j :: 0 <= j < INODE_BYTES ==> b[j] == TableByte(disk, lba, INODE_BYTES * no + j)
  {
    LocateInTable(no);
    var p := Locate(no);
    var first: seq<Byte> := disk[lba + p.sec];
    var buf: seq<Byte> := if p.twoSec then first + disk[lba + p.sec + 1] else first;
    buf[p.off..p.off + INODE_BYTES]
  }

  /** The disk with the inode's bytes replaced, as a table of bytes: this is what inode_sync and
      inode_delete are for. */
  ghost predicate SlotWritten(a: seq<Sector>, b: seq<Sector>, lba: nat, no: nat, bytes: seq<Byte>)
    requires no < MAX_FILES && lba + TABLE_SECTS <= |a| && |bytes| == INODE_BYTES
  {
    && |b| == |a|
    && (forall l :: 0 <= l < |a| && !(lba <= l < lba + TABLE_SECTS) ==> b[l] == a[l])
    && (forall k :: 0 <= k < TABLE_SECTS * 512 ==>
          TableByte(b, lba, k) == if INODE_BYTES * no <= k < INODE_BYTES * (no + 1) then bytes[k - INODE_BYTES * no]
              else TableByte(a, lba, k))
  }

  /** The bytes of an inode depend on the table's sectors only. */
  lemma SlotBytesSame(a: seq<Sector>, b: seq<Sector>, lba: nat, no: nat)
    requires no < MAX_FILES && lba + TABLE_SECTS <= |a| && lba + TABLE_SECTS <= |b|
    requires forall l :: lba <= l < lba + TABLE_SECTS ==> a[l] == b[l]
    ensures SlotBytes(a, lba, no) == SlotBytes(b, lba, no)
  {
    LocateInTable(no);
  }

  lemma SlotPlace(no: nat, m: nat, j: nat)
    requires m < MAX_FILES && j < INODE_BYTES
    ensures INODE_BYTES * m + j < TABLE_SECTS * 512
    ensures INODE_BYTES * no <= INODE_BYTES * m + j < INODE_BYTES * (no + 1) <==> m == no
  {
  }

  /** A neighbour's bytes are not touched, even in a shared sector. */
  lemma SlotsDoNotInterfere(a: seq<Sector>, b: seq<Sector>, lba: nat, no: nat, bytes: seq<Byte>, m: nat)
    requires no < MAX_FILES && m < MAX_FILES && lba + TABLE_SECTS <= |a| && |bytes| == INODE_BYTES
    requires SlotWritten(a, b, lba, no, bytes)
    ensures SlotBytes(b, lba, m) == if m == no then bytes else SlotBytes(a, lba, m)
  {
    forall j | 0 <= j < INODE_BYTES
      ensures SlotBytes(b, lba, m)[j] == if m == no then bytes[j] else SlotBytes(a, lba, m)[j]
    {
      var k := INODE_BYTES * m + j;
      SlotPlace(no, m, j);
      assert TableByte(b, lba, k) == if m == no then bytes[k - INODE_BYTES * no] else TableByte(a, lba, k);
    }
  }

  /** Reading sectors, replacing 76 bytes at the offset and writing the sectors back. */
  lemma PatchIsSlotWritten(a: seq<Sector>, b: seq<Sector>, lba: nat, no: nat, bytes: seq<Byte>, s0: Sector, s1: Sector)
    requires no < MAX_FILES && lba + TABLE_SECTS <= |a| && |bytes| == INODE_BYTES
    requires var p := Locate(no);
             && lba + p.sec + (if p.twoSec then 2 else 1) <= |a|
             && b == (if p.twoSec then a[lba + p.sec := s0][lba + p.sec + 1 := s1] else a[lba + p.sec := s0])
             && (forall k :: 0 <= k < 512 ==>
                   s0[k] == if p.off <= k < p.off + INODE_BYTES then bytes[k - p.off] else a[lba + p.sec][k])
             && (p.twoSec ==> forall k :: 0 <= k < 512 ==>
                   s1[k] == if k + 512 < p.off + INODE_BYTES then bytes[k + 512 - p.off] else a[lba + p.sec + 1][k])
    ensures SlotWritten(a, b, lba, no, bytes)
  {
    LocateInTable(no);
    var p := Locate(no);
    forall k | 0 <= k < TABLE_SECTS * 512
      ensures TableByte(b, lba, k) == if INODE_BYTES * no <= k < INODE_BYTES * (no + 1) then bytes[k - INODE_BYTES * no]
                else TableByte(a, lba, k)
    {
      var s, o := k / 512, k % 512;
      assert k == 512 * s + o;
      if s == p.sec {
        assert b[lba + s] == s0;
      } else if p.twoSec && s == p.sec + 1 {
        assert b[lba + s] == s1;
      } else {
        assert b[lba + s] == a[lba + s];
      }
    }
  }
}
