/** device/ide.c: the primary partitions that partition_scan finds in a disk's first sector. */
module Partitions {
  import opened Disk

  const PART_TABLE := 446
  const FS_EXTENDED := 5

  datatype Partition = Partition(start: nat, secCnt: nat)

  function FsType(table: Sector, k: nat): Byte
    requires k < 4
  {
    table[PART_TABLE + 16 * k + 4]
  }

  function LittleEndian(bytes: seq<Byte>, at: nat): (x: nat)
    requires at + 4 <= |bytes|
    ensures x < MAX32
  {
    Join(bytes[at], bytes[at + 1], bytes[at + 2], bytes[at + 3])
  }

  function PartAt(table: Sector, k: nat): Partition
    requires k < 4
  {
    Partition(LittleEndian(table, PART_TABLE + 16 * k + 8), LittleEndian(table, PART_TABLE + 16 * k + 12))
  }

  /** A table entry has its type in byte 4, its start in bytes 8 to 11 and its length in bytes 12 to 15. */
  lemma PartOfEntry(table: Sector, k: nat, start: nat, secCnt: nat)
    requires k < 4 && start < MAX32 && secCnt < MAX32
    requires table[454 + 16 * k..458 + 16 * k] == Encode([start])
    requires table[458 + 16 * k..462 + 16 * k] == Encode([secCnt])
    ensures PartAt(table, k) == Partition(start, secCnt) && FsType(table, k) == table[450 + 16 * k]
  {
    EncodedWord([start], 0);
    EncodedWord([secCnt], 0);
    WordAt(table, 454 + 16 * k);
    WordAt(table, 458 + 16 * k);
  }

  lemma WordAt(bytes: seq<Byte>, at: nat)
    requires at + 4 <= |bytes|
    ensures LittleEndian(bytes, at) == Word(bytes[at..at + 4], 0)
  {
  }

  predicate IsPrimary(table: Sector, k: nat)
    requires k < 4
  {
    FsType(table, k) != 0 && FsType(table, k) != FS_EXTENDED
  }

  /** The primary partitions of the table's entries from k on. */
  function Primaries(table: Sector, k: nat): seq<Partition>
    requires k <= 4
    decreases 4 - k
  {
    if k == 4 then [] else (if IsPrimary(table, k) then [PartAt(table, k)] else []) + Primaries(table, k + 1)
  }

  /** partition_scan of the first sector. The logical partitions behind an extended one have names from hdb5 on. */
  method PartitionScan(table: Sector) returns (parts: seq<Partition>)
    ensures parts == Primaries(table, 0)
  {
    parts := [];
    var k: nat := 0;
    ghost var all := Primaries(table, 0);
    while k < 4
      invariant k <= 4 && parts + Primaries(table, k) == all
    {
      ScanStep(table, k, parts);
      if FsType(table, k) != FS_EXTENDED && FsType(table, k) != 0 { parts := parts + [PartAt(table, k)]; }
      k := k + 1;
    }
  }

  lemma ScanStep(table: Sector, k: nat, parts: seq<Partition>)
    requires k < 4
    ensures parts + Primaries(table, k)
            == (if IsPrimary(table, k) then parts + [PartAt(table, k)] else parts) + Primaries(table, k + 1)
  {
    Regroup(parts, if IsPrimary(table, k) then [PartAt(table, k)] else [], Primaries(table, k + 1));
  }

  lemma Regroup<T>(x: seq<T>, y: seq<T>, z: seq<T>)
    ensures x + (y + z) == (x + y) + z
  {
  }

  /** The table lists a first primary partition, which is named hdb1. */
  predicate Lists(table: Sector) {
    Primaries(table, 0) != []
  }

  function Hdb1(table: Sector): Partition
    requires Lists(table)
  {
    Primaries(table, 0)[0]
  }

  /** There is an hdb1 exactly when some entry has the type of a primary partition, neither 0 nor 5. */
  lemma {:induction false} ListsIff(table: Sector, k: nat)
    requires k <= 4
    ensures Primaries(table, k) != [] <==> exists i :: k <= i < 4 && FsType(table, i) !in {0, 5}
    decreases 4 - k
  {
    if k < 4 { ListsIff(table, k + 1); }
  }

  /** A sector of zeros from byte 24 on is no partition table. */
  lemma WipedListsNone(table: Sector)
    requires forall j :: 24 <= j < 512 ==> table[j] == 0
    ensures !Lists(table)
  {
    ListsIff(table, 0);
  }
}
