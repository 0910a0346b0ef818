/** fs/dir.c and fs/fs.c: the entries of the root directory, looking one up and adding one. */
module Directory {
  import opened Bitmap
  import opened Disk
  import opened Volume
  import opened Growth
  import opened Files
  import opened Partitions
  import opened SuperBlock

  const PER_SECTOR := 21

  /** The twelve direct blocks' worth of entries. */
  const ROOM := 252

  /** struct dir_entry: a 16-byte name field, an inode number and a file type, 0 for a free entry. */
  datatype Entry = Entry(field: seq<Byte>, ino: nat, ftype: nat)

  /** The C string in a name field. */
  function Text(field: seq<Byte>): seq<Byte> {
    if field == [] || field[0] == 0 then [] else [field[0]] + Text(field[1..])
  }

  /** create_dir_entry copies the name without its end mark into a field of zeros. */
  function NameField(name: seq<Byte>): (field: seq<Byte>)
    requires |name| <= 16
    ensures |field| == 16
  {
    name + seq(16 - |name|, _ => 0)
  }

  ghost predicate IsName(name: seq<Byte>) {
    0 < |name| < 16 && forall i :: 0 <= i < |name| ==> name[i] != 0
  }

  lemma {:induction false} TextOfName(name: seq<Byte>, rest: seq<Byte>)
    requires (forall i :: 0 <= i < |name| ==> name[i] != 0) && (rest == [] || rest[0] == 0)
    ensures Text(name + rest) == name
  {
    if name == [] {
      assert name + rest == rest;
    } else {
      TextOfName(name[1..], rest);
      assert (name + rest)[1..] == name[1..] + rest;
    }
  }

  function EntryBytes(e: Entry): (b: seq<Byte>)
    requires |e.field| == 16
    ensures |b| == ENTRY_BYTES
  {
    e.field + Encode([e.ino, e.ftype])
  }

  function FromEntryBytes(b: seq<Byte>): Entry
    requires |b| == ENTRY_BYTES
  {
    Entry(b[..16], Word(b[16..], 0), Word(b[16..], 1))
  }

  lemma EntryRoundTrip(e: Entry)
    requires |e.field| == 16 && e.ino < MAX32 && e.ftype < MAX32
    ensures FromEntryBytes(EntryBytes(e)) == e
  {
    var w := [e.ino, e.ftype];
    EncodedWord(w, 0);
    EncodedWord(w, 1);
    assert EntryBytes(e)[16..] == Encode(w);
  }

  /** Where the fields of struct dir_entry lie: the name from byte 0, the number at 16, the type at 20. */
  lemma EntryLayout(e: Entry)
    requires |e.field| == 16 && e.ino < MAX32 && e.ftype < MAX32
    ensures EntryBytes(e)[..16] == e.field && Word(EntryBytes(e), 4) == e.ino && Word(EntryBytes(e), 5) == e.ftype
  {
    var w := [e.ino, e.ftype];
    EncodedWord(w, 0);
    EncodedWord(w, 1);
    assert EntryBytes(e)[16..] == Encode(w);
    assert Word(EntryBytes(e), 4) == Word(Encode(w), 0) && Word(EntryBytes(e), 5) == Word(Encode(w), 1);
  }

  function EntryAt(sector: seq<Byte>, k: nat): Entry
    requires |sector| == 512 && k < PER_SECTOR
  {
    FromEntryBytes(sector[ENTRY_BYTES * k..ENTRY_BYTES * (k + 1)])
  }

  predicate Free(e: Entry) {
    e.ftype == 0 && Text(e.field) == []
  }

  /** Putting an entry into a sector changes that entry only. */
  lemma EntryPut(sector: seq<Byte>, k: nat, e: Entry, j: nat)
    requires |sector| == 512 && k < PER_SECTOR && j < PER_SECTOR && |e.field| == 16 && e.ino < MAX32 && e.ftype < MAX32
    ensures EntryAt(Patched(sector, ENTRY_BYTES * k, EntryBytes(e)), j) == if j == k then e else EntryAt(sector, j)
  {
    var b := EntryBytes(e);
    var p := Patched(sector, ENTRY_BYTES * k, b);
    if j == k {
      assert p[ENTRY_BYTES * j..ENTRY_BYTES * (j + 1)] == b;
      EntryRoundTrip(e);
    } else {
      assert p[ENTRY_BYTES * j..ENTRY_BYTES * (j + 1)] == sector[ENTRY_BYTES * j..ENTRY_BYTES * (j + 1)];
    }
  }

  lemma ZeroEntry(k: nat)
    requires k < PER_SECTOR
    ensures Free(EntryAt(seq(512, _ => 0), k))
  {
  }

  /** The entry with number j, counting through the direct blocks. */
  function EntryOf(disk: seq<Sector>, sectors: seq<nat>, j: nat): Entry
    requires |sectors| == 13 && j < ROOM && sectors[j / 21] < |disk|
  {
    EntryAt(disk[sectors[j / 21]], j % 21)
  }

  /** The directory's entries are es, from the start of its blocks and without gaps. Neither search_file nor
      sync_dir_entry looks at the directory's size, and neither does this. */
  ghost predicate DirIs(disk: seq<Sector>, inode: Inode, es: seq<Entry>) {
    && |inode.sectors| == 13 && inode.sectors[12] == 0 && 1 <= |es| <= ROOM
    && (forall i :: 0 <= i < DIRECT ==> inode.sectors[i] < |disk| && (inode.sectors[i] != 0 <==> 21 * i < |es|))
    && (forall j :: 0 <= j < |es| ==> es[j].ftype != 0 && EntryOf(disk, inode.sectors, j) == es[j])
    && (forall j :: |es| <= j < ROOM && inode.sectors[j / 21] != 0 ==> Free(EntryOf(disk, inode.sectors, j)))
  }

  // ---------------------------------------------------------------- the map the entries stand for

  datatype Lookup = Known(no: nat) | Missing

  /** The first entry with the name. */
  function Find(es: seq<Entry>, name: seq<Byte>): Lookup {
    if es == [] then Missing else if Text(es[0].field) == name then Known(es[0].ino) else Find(es[1..], name)
  }

  lemma {:induction false} FindAt(es: seq<Entry>, name: seq<Byte>, j: nat)
    requires j <= |es| && (forall i :: 0 <= i < j ==> Text(es[i].field) != name)
    requires j < |es| ==> Text(es[j].field) == name
    ensures Find(es, name) == if j < |es| then Known(es[j].ino) else Missing
  {
    if j > 0 { FindAt(es[1..], name, j - 1); }
  }

  /** Adding an entry with a fresh name adds one name to the map and changes no other. */
  lemma {:induction false} FindAfterInsert(es: seq<Entry>, e: Entry, name: seq<Byte>)
    requires Find(es, Text(e.field)) == Missing
    ensures Find(es + [e], name) == if name == Text(e.field) then Known(e.ino) else Find(es, name)
  {
    if es != [] {
      FindAfterInsert(es[1..], e, name);
      assert (es + [e])[1..] == es[1..] + [e];
    }
  }

  // ---------------------------------------------------------------- search_file

  /** The block addresses that search_file goes through: the direct ones, and those of the table if there is one. */
  function BlockList(disk: seq<Sector>, inode: Inode): (blocks: seq<nat>)
    requires |inode.sectors| == 13 && (inode.sectors[12] != 0 ==> inode.sectors[12] < |disk|)
    ensures |blocks| == MAX_BLOCKS
  {
    inode.sectors[..12] + (if inode.sectors[12] != 0 then Words(disk[inode.sectors[12]]) else seq(128, _ => 0))
  }

  predicate Searchable(disk: seq<Sector>, inode: Inode) {
    && |inode.sectors| == 13 && (inode.sectors[12] != 0 ==> inode.sectors[12] < |disk|)
    && forall i :: 0 <= i < MAX_BLOCKS ==> BlockList(disk, inode)[i] < |disk|
  }

  /** The first entry with the name in one sector, from entry k on. */
  function SectorFind(sector: seq<Byte>, name: seq<Byte>, k: nat): Lookup
    requires |sector| == 512 && k <= PER_SECTOR
    decreases PER_SECTOR - k
  {
    if k == PER_SECTOR then Missing
    else if Text(EntryAt(sector, k).field) == name then Known(EntryAt(sector, k).ino)
    else SectorFind(sector, name, k + 1)
  }

  /** The first entry with the name in the blocks that exist, from block i on. */
  function DiskFind(disk: seq<Sector>, blocks: seq<nat>, name: seq<Byte>, i: nat): Lookup
    requires i <= |blocks| && forall j :: 0 <= j < |blocks| ==> blocks[j] < |disk|
    decreases |blocks| - i
  {
    if i == |blocks| then Missing
    else
      var here := if blocks[i] == 0 then Missing else SectorFind(disk[blocks[i]], name, 0);
      if here != Missing then here else DiskFind(disk, blocks, name, i + 1)
  }

  /** The lookup in a directory: what search_file returns. */
  function FindIn(disk: seq<Sector>, inode: Inode, name: seq<Byte>): Lookup
    requires Searchable(disk, inode)
  {
    DiskFind(disk, BlockList(disk, inode), name, 0)
  }

  /** The loop over the 21 entries of a block. */
  method SearchSector(buf: seq<Byte>, name: seq<Byte>) returns (r: Lookup)
    requires |buf| == 512
    ensures r == SectorFind(buf, name, 0)
  {
    var k := 0;
    while k < 21
      invariant k <= 21 && SectorFind(buf, name, 0) == SectorFind(buf, name, k)
    {
      if Text(EntryAt(buf, k).field) == name { return Known(EntryAt(buf, k).ino); }
      k := k + 1;
    }
    return Missing;
  }

  /** search_file: all 140 block addresses, whatever the inode's size says. */
  method SearchFile(fs: FileSystem, name: seq<Byte>) returns (r: Lookup)
    requires ROOT in fs.inodes && Searchable(fs.disk, fs.inodes[ROOT]) && name != []
    ensures r == FindIn(fs.disk, fs.inodes[ROOT], name)
  {
    var all := BlockList(fs.disk, fs.inodes[ROOT]);
    var i := 0;
    while i < 140
      invariant i <= 140 && DiskFind(fs.disk, all, name, 0) == DiskFind(fs.disk, all, name, i)
    {
      if all[i] != 0 {
        r := SearchSector(fs.disk[all[i]], name);
        if r != Missing { return; }
      }
      i := i + 1;
    }
    return Missing;
  }

  /** Entries lo to hi - 1, as far as they exist. */
  function Part(es: seq<Entry>, lo: nat, hi: nat): seq<Entry>
    requires lo <= hi
  {
    es[if lo < |es| then lo else |es|..if hi < |es| then hi else |es|]
  }

  lemma {:induction false} FindConcat(x: seq<Entry>, y: seq<Entry>, name: seq<Byte>)
    ensures Find(x + y, name) == if Find(x, name) != Missing then Find(x, name) else Find(y, name)
  {
    if x == [] {
      assert x + y == y;
    } else {
      FindConcat(x[1..], y, name);
      assert (x + y)[1..] == x[1..] + y;
    }
  }

  /** Entry k of the sector is entry base + k, if there is one, and has no name otherwise. */
  ghost predicate SlotIs(sector: seq<Byte>, k: nat, es: seq<Entry>, base: nat)
    requires |sector| == 512 && k < PER_SECTOR
  {
    if base + k < |es| then EntryAt(sector, k) == es[base + k] else Text(EntryAt(sector, k).field) == []
  }

  lemma {:induction false} SectorFindIs(sector: seq<Byte>, es: seq<Entry>, name: seq<Byte>, base: nat, k: nat)
    requires |sector| == 512 && name != [] && k <= PER_SECTOR
    requires forall h :: 0 <= h < PER_SECTOR ==> SlotIs(sector, h, es, base)
    ensures SectorFind(sector, name, k) == Find(Part(es, base + k, base + 21), name)
    decreases PER_SECTOR - k
  {
    if k < PER_SECTOR {
      SectorFindIs(sector, es, name, base, k + 1);
      FindInSlot(sector, es, name, base, k);
    }
  }

  lemma FindInSlot(sector: seq<Byte>, es: seq<Entry>, name: seq<Byte>, base: nat, k: nat)
    requires |sector| == 512 && name != [] && k < PER_SECTOR && SlotIs(sector, k, es, base)
    ensures Find(Part(es, base + k, base + 21), name) ==
            if Text(EntryAt(sector, k).field) == name then Known(EntryAt(sector, k).ino)
            else Find(Part(es, base + k + 1, base + 21), name)
  {
    FindNext(es, base + k, base + 21, name);
  }

  lemma SlotsAre(disk: seq<Sector>, inode: Inode, es: seq<Entry>, i: nat)
    requires DirIs(disk, inode, es) && i < DIRECT && inode.sectors[i] != 0
    ensures forall h :: 0 <= h < PER_SECTOR ==> SlotIs(disk[inode.sectors[i]], h, es, 21 * i)
  {
    forall h | 0 <= h < PER_SECTOR ensures SlotIs(disk[inode.sectors[i]], h, es, 21 * i) {
      var j := 21 * i + h;
      assert j / 21 == i && j % 21 == h && EntryOf(disk, inode.sectors, j) == EntryAt(disk[inode.sectors[i]], h);
    }
  }

  lemma FindNext(es: seq<Entry>, j: nat, hi: nat, name: seq<Byte>)
    requires j < hi
    ensures Find(Part(es, j, hi), name) ==
            if j < |es| && Text(es[j].field) == name then Known(es[j].ino) else Find(Part(es, j + 1, hi), name)
  {
    if j < |es| {
      assert Part(es, j, hi)[0] == es[j] && Part(es, j, hi)[1..] == Part(es, j + 1, hi);
    } else {
      assert Part(es, j, hi) == Part(es, j + 1, hi);
    }
  }

  lemma {:induction false} DiskFindIs(disk: seq<Sector>, inode: Inode, es: seq<Entry>, name: seq<Byte>, i: nat)
    requires DirIs(disk, inode, es) && Searchable(disk, inode) && name != [] && i <= MAX_BLOCKS
    ensures DiskFind(disk, BlockList(disk, inode), name, i) == Find(Part(es, 21 * i, 21 * MAX_BLOCKS), name)
    decreases MAX_BLOCKS - i
  {
    if i < MAX_BLOCKS {
      DiskFindIs(disk, inode, es, name, i + 1);
      BlockFindIs(disk, inode, es, name, i);
      PartSplit(es, 21 * i, 21 * i + 21, 21 * MAX_BLOCKS, name);
    }
  }

  lemma BlockFindIs(disk: seq<Sector>, inode: Inode, es: seq<Entry>, name: seq<Byte>, i: nat)
    requires DirIs(disk, inode, es) && Searchable(disk, inode) && name != [] && i < MAX_BLOCKS
    ensures var l := BlockList(disk, inode)[i];
            (if l == 0 then Missing else SectorFind(disk[l], name, 0)) == Find(Part(es, 21 * i, 21 * i + 21), name)
  {
    BlockAt(disk, inode, es, i);
    if i < DIRECT && inode.sectors[i] != 0 {
      SlotsAre(disk, inode, es, i);
      SectorFindIs(disk[inode.sectors[i]], es, name, 21 * i, 0);
    }
  }

  lemma BlockAt(disk: seq<Sector>, inode: Inode, es: seq<Entry>, i: nat)
    requires DirIs(disk, inode, es) && i < MAX_BLOCKS
    ensures BlockList(disk, inode)[i] == if i < DIRECT then inode.sectors[i] else 0
    ensures BlockList(disk, inode)[i] == 0 ==> Part(es, 21 * i, 21 * i + 21) == []
  {
  }

  lemma PartSplit(es: seq<Entry>, lo: nat, mid: nat, hi: nat, name: seq<Byte>)
    requires lo <= mid <= hi
    ensures Find(Part(es, lo, hi), name) ==
            if Find(Part(es, lo, mid), name) != Missing then Find(Part(es, lo, mid), name)
            else Find(Part(es, mid, hi), name)
  {
    FindConcat(Part(es, lo, mid), Part(es, mid, hi), name);
    assert Part(es, lo, hi) == Part(es, lo, mid) + Part(es, mid, hi);
  }

  /** search_file on the disk is the lookup among the directory's entries. */
  lemma SearchIsFind(disk: seq<Sector>, inode: Inode, es: seq<Entry>, name: seq<Byte>)
    requires DirIs(disk, inode, es) && name != []
    ensures Searchable(disk, inode) && FindIn(disk, inode, name) == Find(es, name)
  {
    DirSearchable(disk, inode, es);
    DiskFindIs(disk, inode, es, name, 0);
    assert Part(es, 0, 21 * MAX_BLOCKS) == es;
  }

  lemma DirSearchable(disk: seq<Sector>, inode: Inode, es: seq<Entry>)
    requires DirIs(disk, inode, es)
    ensures Searchable(disk, inode)
  {
    assert inode.sectors[0] < |disk|;
    forall i | 0 <= i < MAX_BLOCKS ensures BlockList(disk, inode)[i] < |disk| {
      BlockAt(disk, inode, es, i);
    }
  }

  // ---------------------------------------------------------------- sync_dir_entry

  ghost predicate ValidEntry(e: Entry) {
    |e.field| == 16 && e.ino < MAX32 && 0 < e.ftype < MAX32
  }

  /** The first free entry of one block, 21 if it is full. */
  method FirstFree(fs: FileSystem, i: nat, ghost es: seq<Entry>) returns (k: nat)
    requires ROOT in fs.inodes && DirIs(fs.disk, fs.inodes[ROOT], es) && i < DIRECT && fs.inodes[ROOT].sectors[i] != 0
    ensures k == if |es| < 21 * i + 21 then |es| - 21 * i else 21
  {
    var buf: seq<Byte> := fs.disk[fs.inodes[ROOT].sectors[i]];
    k := 0;
    while k < 21
      invariant k <= 21 && 21 * i + k <= |es|
    {
      assert (21 * i + k) / 21 == i && (21 * i + k) % 21 == k;
      assert EntryAt(buf, k) == EntryOf(fs.disk, fs.inodes[ROOT].sectors, 21 * i + k);
      if EntryAt(buf, k).ftype == 0 { return; }
      k := k + 1;
    }
  }

  ghost predicate Distinct(sectors: seq<nat>)
    requires |sectors| == 13
  {
    forall i, j :: 0 <= i < j < DIRECT && sectors[i] != 0 ==> sectors[i] != sectors[j]
  }

  lemma EntriesAfterPut(disk: seq<Sector>, sectors: seq<nat>, i0: nat, k0: nat, e: Entry, sector: Sector, j: nat)
    requires |sectors| == 13 && Distinct(sectors) && i0 < DIRECT && k0 < PER_SECTOR && ValidEntry(e) && j < ROOM
    requires 0 < sectors[i0] < |disk| && 0 < sectors[j / 21] < |disk|
    requires sector == Patched(disk[sectors[i0]], ENTRY_BYTES * k0, EntryBytes(e))
    ensures EntryOf(disk[sectors[i0] := sector], sectors, j) == if j == 21 * i0 + k0 then e
              else EntryOf(disk, sectors, j)
  {
    if j / 21 == i0 {
      EntryPut(disk[sectors[i0]], k0, e, j % 21);
    } else {
      assert sectors[j / 21] != sectors[i0];
    }
  }

  ghost predicate EntryIs(disk: seq<Sector>, sectors: seq<nat>, j: nat, es: seq<Entry>)
    requires |sectors| == 13 && j < ROOM && sectors[j / 21] < |disk|
  {
    if j < |es| then EntryOf(disk, sectors, j) == es[j] else Free(EntryOf(disk, sectors, j))
  }

  lemma DirIsEntries(disk: seq<Sector>, inode: Inode, es: seq<Entry>)
    requires |inode.sectors| == 13 && inode.sectors[12] == 0 && 1 <= |es| <= ROOM
    requires forall i :: 0 <= i < DIRECT ==> inode.sectors[i] < |disk| && (inode.sectors[i] != 0 <==> 21 * i < |es|)
    requires forall j :: 0 <= j < |es| ==> es[j].ftype != 0
    requires forall j :: 0 <= j < ROOM && inode.sectors[j / 21] != 0 ==> EntryIs(disk, inode.sectors, j, es)
    ensures DirIs(disk, inode, es)
  {
    forall j | 0 <= j < |es| ensures EntryOf(disk, inode.sectors, j) == es[j] {
      assert EntryIs(disk, inode.sectors, j, es);
    }
    forall j | |es| <= j < ROOM && inode.sectors[j / 21] != 0 ensures Free(EntryOf(disk, inode.sectors, j)) {
      assert EntryIs(disk, inode.sectors, j, es);
    }
  }

  lemma EntryIsAfterPut(disk: seq<Sector>, inode: Inode, es: seq<Entry>, e: Entry, sector: Sector, j: nat)
    requires DirIs(disk, inode, es) && Distinct(inode.sectors) && |es| % 21 != 0 && ValidEntry(e) && j < ROOM
    requires inode.sectors[j / 21] != 0
    requires sector == Patched(disk[inode.sectors[|es| / 21]], ENTRY_BYTES * (|es| % 21), EntryBytes(e))
    ensures EntryIs(disk[inode.sectors[|es| / 21] := sector], inode.sectors, j, es + [e])
  {
    EntriesAfterPut(disk, inode.sectors, |es| / 21, |es| % 21, e, sector, j);
  }

  lemma InsertInBlock(disk: seq<Sector>, inode: Inode, es: seq<Entry>, e: Entry, sector: Sector)
    requires DirIs(disk, inode, es) && Distinct(inode.sectors) && |es| % 21 != 0 && ValidEntry(e)
    requires sector == Patched(disk[inode.sectors[|es| / 21]], ENTRY_BYTES * (|es| % 21), EntryBytes(e))
    ensures DirIs(disk[inode.sectors[|es| / 21] := sector], inode, es + [e])
  {
    var disk', es' := disk[inode.sectors[|es| / 21] := sector], es + [e];
    assert forall j :: 0 <= j < |es'| ==> es'[j] == if j < |es| then es[j] else e;
    forall j | 0 <= j < ROOM && inode.sectors[j / 21] != 0 ensures EntryIs(disk', inode.sectors, j, es') {
      EntryIsAfterPut(disk, inode, es, e, sector, j);
    }
    SameBlockCount(|es|);
    DirIsEntries(disk', inode, es');
  }

  lemma SameBlockCount(n: nat)
    requires n <= ROOM && n % 21 != 0
    ensures n < ROOM && forall i :: 0 <= i < DIRECT ==> (21 * i < n <==> 21 * i < n + 1)
  {
  }

  lemma InsertNewBlock(disk: seq<Sector>, inode: Inode, es: seq<Entry>, e: Entry, lba: nat, sector: Sector)
    requires DirIs(disk, inode, es) && |es| % 21 == 0 && |es| < ROOM && ValidEntry(e)
    requires 0 < lba < |disk| && lba !in inode.sectors
    requires sector == Patched(seq(512, _ => 0), 0, EntryBytes(e))
    ensures var i0 := |es| / 21;
            DirIs(disk[lba := sector], inode.(sectors := inode.sectors[i0 := lba]), es + [e])
  {
    var i0 := |es| / 21;
    var disk', sectors', es' := disk[lba := sector], inode.sectors[i0 := lba], es + [e];
    forall j | 0 <= j < ROOM && sectors'[j / 21] != 0 ensures EntryIs(disk', sectors', j, es') {
      if j / 21 == i0 {
        EntryPut(seq(512, _ => 0), 0, e, j % 21);
        ZeroEntry(j % 21);
      } else {
        assert inode.sectors[j / 21] in inode.sectors;
      }
    }
    DirIsEntries(disk', inode.(sectors := sectors'), es');
  }

  lemma DirFrame(disk: seq<Sector>, disk': seq<Sector>, inode: Inode, es: seq<Entry>)
    requires DirIs(disk, inode, es) && |disk'| == |disk|
    requires forall i :: 0 <= i < DIRECT && inode.sectors[i] != 0 ==> disk'[inode.sectors[i]] == disk[inode.sectors[i]]
    ensures DirIs(disk', inode, es)
  {
    forall j | 0 <= j < ROOM && inode.sectors[j / 21] != 0
      ensures EntryOf(disk', inode.sectors, j) == EntryOf(disk, inode.sectors, j)
    {
    }
  }

  ghost function DirBlocks(inode: Inode, es: seq<Entry>): (B: seq<nat>)
    requires |inode.sectors| == 13 && |es| <= ROOM
  {
    inode.sectors[..(|es| + 20) / 21]
  }

  /** The directory's blocks are recorded as its own, so they differ from each other and from all metadata. */
  lemma BeginDir(v: Vol, es: seq<Entry>)
    requires Inv(v) && ROOT in v.inodes && DirIs(v.disk, v.inodes[ROOT], es)
    ensures Growing(v, ROOT, DirBlocks(v.inodes[ROOT], es), 0) && OnlyGrew(v, v, ROOT)
    ensures Distinct(v.inodes[ROOT].sectors)
    ensures forall i :: 0 <= i < DIRECT && v.inodes[ROOT].sectors[i] != 0 ==>
              v.inodes[ROOT].sectors[i] in v.owner && v.owner[v.inodes[ROOT].sectors[i]] == Slot(ROOT, i)
  {
    var inode := v.inodes[ROOT];
    assert Owned(v.disk, v.owner, ROOT, inode);
    forall i | 0 <= i < DIRECT && inode.sectors[i] != 0
      ensures inode.sectors[i] in v.owner && v.owner[inode.sectors[i]] == Slot(ROOT, i)
    {
      assert HasSlot(inode, i) && LbaAt(v.disk, inode, i) == inode.sectors[i];
    }
  }

  /** A volume in which only the root directory's blocks and inode have changed is in order. */
  lemma RootDone(v: Vol, disk': seq<Sector>, inode: Inode, es: seq<Entry>)
    requires OthersOk(v, ROOT) && Synced(v.disk, v.bits, v.geo) && |disk'| == |v.disk|
    requires inode.no == ROOT && DirIs(disk', inode, es)
    requires forall i :: 0 <= i < DIRECT && inode.sectors[i] != 0 ==>
              inode.sectors[i] in v.owner && v.owner[inode.sectors[i]] == Slot(ROOT, i)
    requires forall l :: 0 <= l < |v.disk| && !(l in v.owner && v.owner[l].ino == ROOT) ==> disk'[l] == v.disk[l]
    ensures Inv(v.(disk := disk', inodes := v.inodes[ROOT := inode]))
  {
    forall i | 0 <= i <= TABLE && HasSlot(inode, i)
      ensures LbaAt(disk', inode, i) in v.owner && v.owner[LbaAt(disk', inode, i)] == Slot(ROOT, i)
    {
      assert i < DIRECT;
    }
    FinishOthers(v, ROOT, disk', inode);
  }

  /** i_size, a 32-bit word, after one more entry. */
  function LongerBy1(size: nat): nat {
    (size + ENTRY_BYTES) % MAX32
  }

  ghost predicate MetaKept(a: Vol, b: Vol) {
    && |b.disk| == |a.disk|
    && (forall l :: 0 < l < a.geo.bitmapLba && l < |a.disk| ==> b.disk[l] == a.disk[l])
    && (forall l :: a.geo.inodeBitmapLba <= l < a.geo.dataStart && l < |a.disk| ==> b.disk[l] == a.disk[l])
  }

  /** The directory after a sync_dir_entry that reports success: with room in the direct blocks the entry is the
      last, without it is not there. */
  function WithEntry(es: seq<Entry>, e: Entry): seq<Entry> {
    if |es| < ROOM then es + [e] else es
  }

  /** The sector that an entry without a place goes into. */
  function LostSector(e: Entry): Sector
    requires |e.field| == 16
  {
    Patched(seq(512, _ => 0), 0, EntryBytes(e))
  }

  /** The disk's first sector, which holds its partition table: kept exactly while the directory has room. */
  ghost predicate FirstSectorAfter(a: seq<Sector>, b: seq<Sector>, es: seq<Entry>, e: Entry) {
    |a| > 0 && |b| > 0 && |e.field| == 16 && b[0] == if |es| < ROOM then a[0] else LostSector(e)
  }

  /** Nothing behind the entry is left of what the sector held, and so no partition. */
  lemma LostSectorListsNone(e: Entry)
    requires |e.field| == 16
    ensures !Lists(LostSector(e))
  {
    WipedListsNone(LostSector(e));
  }

  /** What sync_dir_entry makes of a volume. Blocks that the directory has stay, its size grows by one entry in
      any case, and all else but perhaps the first sector is as it was: the inode table too, so the root inode's
      slot keeps its old size and blocks. */
  ghost predicate Inserted(a: Vol, b: Vol, es: seq<Entry>, e: Entry) {
    && Inv(b) && OthersKept(a, b, ROOT) && MetaKept(a, b) && b.inodes[ROOT].no == ROOT
    && DirIs(b.disk, b.inodes[ROOT], WithEntry(es, e))
    && b.inodes[ROOT].size == LongerBy1(a.inodes[ROOT].size)
    && BlocksStay(a.inodes[ROOT].sectors, b.inodes[ROOT].sectors)
    && FirstSectorAfter(a.disk, b.disk, es, e)
  }

  ghost predicate BlocksStay(a: seq<nat>, b: seq<nat>) {
    |a| == |b| == 13 && forall i :: 0 <= i < DIRECT && a[i] != 0 ==> b[i] == a[i]
  }

  /** A free entry was found in block i. */
  method PutEntry(fs: FileSystem, i: nat, k: nat, e: Entry, ghost es: seq<Entry>)
    requires Inv(fs.State()) && ROOT in fs.inodes && DirIs(fs.disk, fs.inodes[ROOT], es) && ValidEntry(e)
    requires i == |es| / 21 && k == |es| % 21 != 0
    modifies fs`disk, fs`inodes
    ensures Inserted(old(fs.State()), fs.State(), es, e)
  {
    ghost var v := fs.State();
    BeginDir(v, es);
    var inode := fs.inodes[ROOT];
    var lba := inode.sectors[i];
    var ioBuf: seq<Byte> := fs.disk[lba];
    var sector: Sector := Patched(ioBuf, ENTRY_BYTES * k, EntryBytes(e));
    InsertInBlock(fs.disk, inode, es, e, sector);
    RootDone(v, fs.disk[lba := sector], inode.(size := LongerBy1(inode.size)), es + [e]);
    fs.disk := fs.disk[lba := sector];
    fs.inodes := fs.inodes[ROOT := inode.(size := LongerBy1(inode.size))];
  }

  /** All blocks are full and block i is the next: it is allocated and gets the entry. */
  method PutInNewBlock(fs: FileSystem, i: nat, e: Entry, ghost es: seq<Entry>) returns (stopped: bool)
    requires Inv(fs.State()) && ROOT in fs.inodes && DirIs(fs.disk, fs.inodes[ROOT], es) && ValidEntry(e)
    requires 21 * i == |es| < ROOM && AllocSafe(fs.bits, Limit(fs.geo), 1)
    modifies fs`disk, fs`bits, fs`inodes, fs`owner
    ensures stopped <==> FreeBelow(old(fs.bits), Limit(fs.geo)) == 0
    ensures !stopped ==> Inserted(old(fs.State()), fs.State(), es, e)
    ensures !stopped ==> FreeBelow(fs.bits, Limit(fs.geo)) == FreeBelow(old(fs.bits), Limit(fs.geo)) - 1
  {
    ghost var a := fs.State();
    BeginDir(a, es);
    ghost var B := DirBlocks(fs.inodes[ROOT], es);
    var lba;
    lba, stopped := fs.GrowBlock(ROOT, i, B, 0, 1);
    if stopped { return; }
    FillNewBlock(fs, lba, e, es, B, a);
  }

  /** The zeroed sector with the entry in front, and the directory's new size. */
  method FillNewBlock(fs: FileSystem, lba: nat, e: Entry, ghost es: seq<Entry>, ghost B: seq<nat>, ghost a: Vol)
    requires Inv(a) && ROOT in a.inodes && DirIs(a.disk, a.inodes[ROOT], es) && |es| < ROOM && |es| % 21 == 0
    requires ValidEntry(e)
    requires B == DirBlocks(a.inodes[ROOT], es) && Growing(fs.State(), ROOT, B + [lba], 0)
    requires Synced(fs.disk, fs.bits, fs.geo)
    requires OnlyGrew(a, fs.State(), ROOT)
    modifies fs`disk, fs`inodes
    ensures Inserted(a, fs.State(), es, e)
  {
    ghost var v := fs.State();
    assert (B + [lba])[|B|] == lba && lba in fs.owner;
    var zeros: seq<Byte> := seq(512, _ => 0);
    var sector: Sector := Patched(zeros, 0, EntryBytes(e));
    var inode := fs.inodes[ROOT];
    fs.disk := fs.disk[lba := sector];
    fs.inodes := fs.inodes[ROOT := inode.(size := LongerBy1(inode.size))];
    NewBlockDone(a, v, fs.State(), es, e, B, lba, sector);
  }

  lemma NewBlockDone(a: Vol, v: Vol, b: Vol, es: seq<Entry>, e: Entry, B: seq<nat>, lba: nat, sector: Sector)
    requires Inv(a) && ROOT in a.inodes && DirIs(a.disk, a.inodes[ROOT], es) && |es| < ROOM && |es| % 21 == 0
    requires ValidEntry(e)
    requires B == DirBlocks(a.inodes[ROOT], es) && Growing(v, ROOT, B + [lba], 0) && Synced(v.disk, v.bits, v.geo)
    requires OnlyGrew(a, v, ROOT)
    requires sector == Patched(seq(512, _ => 0), 0, EntryBytes(e)) && lba < |v.disk| && ROOT in b.inodes
    requires b == v.(disk := v.disk[lba := sector], inodes := v.inodes[ROOT := b.inodes[ROOT]])
    requires b.inodes[ROOT] == v.inodes[ROOT].(size := LongerBy1(v.inodes[ROOT].size))
    ensures Inserted(a, b, es, e)
  {
    NewBlockDir(a, v, es, e, B, lba, sector);
    NewBlockKeeps(a, v, b, lba, es + [e]);
  }

  lemma NewBlockDir(a: Vol, v: Vol, es: seq<Entry>, e: Entry, B: seq<nat>, lba: nat, sector: Sector)
    requires Inv(a) && ROOT in a.inodes && DirIs(a.disk, a.inodes[ROOT], es) && |es| < ROOM && |es| % 21 == 0
    requires ValidEntry(e)
    requires B == DirBlocks(a.inodes[ROOT], es) && Growing(v, ROOT, B + [lba], 0) && OnlyGrew(a, v, ROOT)
    requires sector == Patched(seq(512, _ => 0), 0, EntryBytes(e)) && lba < |v.disk|
    ensures DirIs(v.disk[lba := sector], v.inodes[ROOT], es + [e])
    ensures BlocksStay(a.inodes[ROOT].sectors, v.inodes[ROOT].sectors)
    ensures lba in v.owner && v.owner[lba].ino == ROOT
    ensures forall i :: 0 <= i < DIRECT && v.inodes[ROOT].sectors[i] != 0 ==>
              v.inodes[ROOT].sectors[i] in v.owner && v.owner[v.inodes[ROOT].sectors[i]] == Slot(ROOT, i)
  {
    NewBlockSectors(a, v, es, B, lba);
    NewBlockEntries(a, v, es, e, lba, sector);
  }

  lemma NewBlockSectors(a: Vol, v: Vol, es: seq<Entry>, B: seq<nat>, lba: nat)
    requires Inv(a) && ROOT in a.inodes && DirIs(a.disk, a.inodes[ROOT], es) && |es| < ROOM && |es| % 21 == 0
    requires B == DirBlocks(a.inodes[ROOT], es) && Growing(v, ROOT, B + [lba], 0) && OnlyGrew(a, v, ROOT)
    ensures v.inodes[ROOT].sectors == a.inodes[ROOT].sectors[|es| / 21 := lba]
    ensures lba !in a.inodes[ROOT].sectors && v.geo.dataStart <= lba < |v.disk| && lba in v.owner
    ensures v.owner[lba] == Slot(ROOT, |es| / 21)
    ensures forall i :: 0 <= i < DIRECT && a.inodes[ROOT].sectors[i] != 0 ==>
              var l := a.inodes[ROOT].sectors[i]; l in v.owner && v.owner[l] == Slot(ROOT, i) && v.disk[l] == a.disk[l]
  {
    BeginDir(a, es);
    assert (B + [lba])[|B|] == lba;
    ListedNext(a.inodes[ROOT].sectors, v.inodes[ROOT], B, lba);
    forall j | 0 <= j < 13 ensures a.inodes[ROOT].sectors[j] != lba {
      var l: nat := a.inodes[ROOT].sectors[j];
      if j < |B| { assert B[j] == l && v.owner[l].index == j; }
    }
  }

  lemma ListedNext(was: seq<nat>, inode: Inode, B: seq<nat>, lba: nat)
    requires |was| == 13 && was[12] == 0 && |B| < DIRECT && B == was[..|B|] && Listed(inode, B + [lba], 0)
    requires forall i :: |B| <= i < DIRECT ==> was[i] == 0
    ensures inode.sectors == was[|B| := lba]
  {
    var now := B + [lba];
    forall i | 0 <= i < 13 ensures inode.sectors[i] == was[|B| := lba][i] {
      assert i < DIRECT ==> inode.sectors[i] == if i < |now| then now[i] else 0;
    }
  }

  lemma NewBlockEntries(a: Vol, v: Vol, es: seq<Entry>, e: Entry, lba: nat, sector: Sector)
    requires |v.disk| == |a.disk| && ROOT in a.inodes && ROOT in v.inodes && DirIs(a.disk, a.inodes[ROOT], es)
    requires |es| < ROOM && |es| % 21 == 0
    requires ValidEntry(e) && sector == Patched(seq(512, _ => 0), 0, EntryBytes(e))
    requires v.inodes[ROOT] == a.inodes[ROOT].(sectors := a.inodes[ROOT].sectors[|es| / 21 := lba])
    requires lba !in a.inodes[ROOT].sectors && 0 < lba < |v.disk|
    requires forall i :: 0 <= i < DIRECT && a.inodes[ROOT].sectors[i] != 0 ==>
              v.disk[a.inodes[ROOT].sectors[i]] == a.disk[a.inodes[ROOT].sectors[i]]
    ensures DirIs(v.disk[lba := sector], v.inodes[ROOT], es + [e])
  {
    DirFrame(a.disk, v.disk, a.inodes[ROOT], es);
    InsertNewBlock(v.disk, a.inodes[ROOT], es, e, lba, sector);
  }

  lemma NewBlockKeeps(a: Vol, v: Vol, b: Vol, lba: nat, es: seq<Entry>)
    requires Inv(a) && ROOT in a.inodes && OthersOk(v, ROOT) && Synced(v.disk, v.bits, v.geo) && OnlyGrew(a, v, ROOT)
    requires lba in v.owner && v.owner[lba].ino == ROOT && lba < |v.disk| == |b.disk|
    requires forall l :: 0 <= l < |v.disk| && l != lba ==> b.disk[l] == v.disk[l]
    requires ROOT in b.inodes && b.inodes[ROOT].no == ROOT
    requires b == v.(disk := b.disk, inodes := v.inodes[ROOT := b.inodes[ROOT]])
    requires DirIs(b.disk, b.inodes[ROOT], es)
    requires forall i :: 0 <= i < DIRECT && b.inodes[ROOT].sectors[i] != 0 ==>
               b.inodes[ROOT].sectors[i] in v.owner && v.owner[b.inodes[ROOT].sectors[i]] == Slot(ROOT, i)
    ensures Inv(b) && OthersKept(a, b, ROOT) && MetaKept(a, b) && b.disk[0] == a.disk[0]
  {
    RootDone(v, b.disk, b.inodes[ROOT], es);
  }

  /** Twelve full blocks: all_blocks[12] is 0, a block is allocated and not recorded, and the entry goes to
      sector 0 of the disk. */
  method PutNowhere(fs: FileSystem, e: Entry, ghost es: seq<Entry>) returns (stopped: bool)
    requires Inv(fs.State()) && ROOT in fs.inodes && DirIs(fs.disk, fs.inodes[ROOT], es) && ValidEntry(e)
    requires |es| == ROOM && AllocSafe(fs.bits, Limit(fs.geo), 1)
    modifies fs`disk, fs`bits, fs`inodes
    ensures stopped <==> FreeBelow(old(fs.bits), Limit(fs.geo)) == 0
    ensures !stopped ==> Inserted(old(fs.State()), fs.State(), es, e)
    ensures !stopped ==> FreeBelow(fs.bits, Limit(fs.geo)) == FreeBelow(old(fs.bits), Limit(fs.geo)) - 1
  {
    ghost var a := fs.State();
    AllocStep(fs.bits, Limit(fs.geo), 1);
    var lba;
    lba, stopped := fs.BlockBitmapAlloc();
    if stopped { return; }
    fs.BitmapSync(lba - fs.geo.dataStart);
    var zeros: seq<Byte> := seq(512, _ => 0);
    var sector: Sector := Patched(zeros, 0, EntryBytes(e));
    fs.disk := fs.disk[0 := sector];
    var inode := fs.inodes[ROOT];
    fs.inodes := fs.inodes[ROOT := inode.(size := LongerBy1(inode.size))];
    LostDone(a, fs.State(), es, e, LowestClear(a.bits));
  }

  lemma LostDone(a: Vol, b: Vol, es: seq<Entry>, e: Entry, f: nat)
    requires |e.field| == 16 && Inv(a) && ROOT in a.inodes && DirIs(a.disk, a.inodes[ROOT], es) && |es| == ROOM
    requires f < Limit(a.geo) && f < |a.bits| && !a.bits[f]
    requires ROOT in b.inodes && b.inodes[ROOT] == a.inodes[ROOT].(size := LongerBy1(a.inodes[ROOT].size))
    requires b == a.(bits := a.bits[f := true], disk := b.disk, inodes := a.inodes[ROOT := b.inodes[ROOT]])
    requires b.disk == a.disk[a.geo.bitmapLba := BitmapSector(b.bits, 0)][0 := LostSector(e)]
    ensures Inserted(a, b, es, e)
  {
    BeginDir(a, es);
    DirFrame(a.disk, b.disk, a.inodes[ROOT], es);
    assert DirIs(b.disk, b.inodes[ROOT], WithEntry(es, e));
    LostInv(a, b, f);
  }

  lemma LostInv(a: Vol, b: Vol, f: nat)
    requires Inv(a) && ROOT in a.inodes && f < Limit(a.geo) && f < |a.bits| && !a.bits[f]
    requires ROOT in b.inodes && b.inodes[ROOT] == a.inodes[ROOT].(size := b.inodes[ROOT].size)
    requires b == a.(bits := a.bits[f := true], disk := b.disk, inodes := a.inodes[ROOT := b.inodes[ROOT]])
    requires |a.inodes[ROOT].sectors| == 13 && a.inodes[ROOT].sectors[12] == 0 && |b.disk| == |a.disk|
    requires b.disk[a.geo.bitmapLba] == BitmapSector(b.bits, 0)
    requires forall l :: 0 < l < |a.disk| && l != a.geo.bitmapLba ==> b.disk[l] == a.disk[l]
    ensures Inv(b)
  {
    forall s | 0 <= s < a.geo.bitmapSects ensures b.disk[a.geo.bitmapLba + s] == BitmapSector(b.bits, s) {
      if s > 0 { FirstSectorOnly(a.bits, f, s); }
    }
    forall m | m in b.inodes ensures Owned(b.disk, b.owner, m, b.inodes[m]) {
      OwnedFrame(a, b.disk, a.owner, m);
      if m == ROOT { RootOwned(b.disk, b.owner, a.inodes[ROOT], b.inodes[ROOT]); }
    }
  }

  /** Without a table the size does not matter. */
  lemma RootOwned(disk: seq<Sector>, owner: map<nat, Slot>, x: Inode, y: Inode)
    requires Owned(disk, owner, ROOT, x) && y.sectors == x.sectors && x.sectors[12] == 0
    ensures Owned(disk, owner, ROOT, y)
  {
    forall i | 0 <= i <= TABLE && HasSlot(y, i)
      ensures LbaAt(disk, y, i) in owner && owner[LbaAt(disk, y, i)] == Slot(ROOT, i)
    {
      assert HasSlot(x, i);
    }
  }

  /** sync_dir_entry: the first free entry of the twelve direct blocks, a new block when all are full. */
  method SyncDirEntry(fs: FileSystem, e: Entry, ghost es: seq<Entry>) returns (stopped: bool)
    requires Inv(fs.State()) && ROOT in fs.inodes && DirIs(fs.disk, fs.inodes[ROOT], es) && ValidEntry(e)
    requires AllocSafe(fs.bits, Limit(fs.geo), 1)
    modifies fs`disk, fs`bits, fs`inodes, fs`owner
    ensures stopped <==> |es| % 21 == 0 && FreeBelow(old(fs.bits), Limit(fs.geo)) == 0
    ensures !stopped ==> Inserted(old(fs.State()), fs.State(), es, e)
    ensures !stopped ==>
              FreeBelow(fs.bits, Limit(fs.geo))
              == FreeBelow(old(fs.bits), Limit(fs.geo)) - (if |es| % 21 == 0 then 1 else 0)
  {
    var i := 0;
    while i < 12
      invariant i <= 12 && 21 * i <= |es| && fs.State() == old(fs.State())
    {
      if fs.inodes[ROOT].sectors[i] == 0 {
        stopped := PutInNewBlock(fs, i, e, es);
        return;
      }
      var k := FirstFree(fs, i, es);
      if k < 21 {
        PutEntry(fs, i, k, e, es);
        return false;
      }
      i := i + 1;
    }
    stopped := PutNowhere(fs, e, es);
  }

  /** A name put into the directory is found on the disk afterwards exactly when one of the twelve direct
      blocks had room; every other lookup is as before. */
  lemma InsertIsMapUpdate(a: Vol, b: Vol, es: seq<Entry>, e: Entry, name: seq<Byte>)
    requires Inv(a) && ROOT in a.inodes && DirIs(a.disk, a.inodes[ROOT], es) && Inserted(a, b, es, e)
    requires Text(e.field) == name != []
    ensures Searchable(a.disk, a.inodes[ROOT]) && ROOT in b.inodes && Searchable(b.disk, b.inodes[ROOT])
    ensures FindIn(a.disk, a.inodes[ROOT], name) == Missing ==>
              (FindIn(b.disk, b.inodes[ROOT], name) == Known(e.ino) <==> |es| < ROOM)
              && (forall other :: other != name && other != [] ==>
                    FindIn(b.disk, b.inodes[ROOT], other) == FindIn(a.disk, a.inodes[ROOT], other))
  {
    SearchIsFind(a.disk, a.inodes[ROOT], es, name);
    SearchIsFind(b.disk, b.inodes[ROOT], WithEntry(es, e), name);
    if Find(es, name) == Missing {
      FindAfterInsert(es, e, name);
      forall other | other != name && other != []
        ensures FindIn(b.disk, b.inodes[ROOT], other) == FindIn(a.disk, a.inodes[ROOT], other)
      {
        SearchIsFind(a.disk, a.inodes[ROOT], es, other);
        SearchIsFind(b.disk, b.inodes[ROOT], WithEntry(es, e), other);
        FindAfterInsert(es, e, other);
      }
    }
  }
}
