/** What whole runs of creates, writes, closes and remounts make of a volume and of the names in its directory, and
    when the next boot finds the partition. */
module Runs {
  import opened Disk
  import opened Volume
  import opened Inodes
  import opened Partitions
  import opened SuperBlock
  import opened Growth
  import opened Directory
  import opened Creation
  import OpenInodes

  /** What a user of the file system sees: the directory's entries, its size, and each file's bytes. And what only
      the next boot sees: whether the disk's partition table still lists the partition. */
  datatype View = View(es: seq<Entry>, size: nat, files: map<nat, seq<Byte>>, listed: bool)

  /** The volume implements the view, and the partition has what a mount needs. */
  ghost predicate Implements(v: Vol, view: View) {
    && Inv(v) && ShowsEntries(v, view) && HasFiles(v, view.files) && Remountable(v)
    && (Lists(v.disk[0]) <==> view.listed)
  }

  ghost predicate ShowsEntries(v: Vol, view: View) {
    ROOT in v.inodes && DirIs(v.disk, v.inodes[ROOT], view.es) && v.inodes[ROOT].size == view.size
  }

  /** The files are those of the map, and every file's slot in the table holds its inode. */
  ghost predicate HasFiles(v: Vol, files: map<nat, seq<Byte>>)
    requires Inv(v)
  {
    && ROOT !in files && (forall n :: n in v.inodes <==> n == ROOT || n in files)
    && forall n :: n in files ==> IsStored(v, n, files[n])
  }

  /** What a mount reads: the root's slot as partition_format wrote it, the super block, the inode bitmap, and a
      partition table that names this partition, if any. */
  ghost predicate Remountable(v: Vol)
    requires Inv(v)
  {
    RootIsFirst(v) && SuperIs(v.disk, v.geo) && DiskMarked(v) && TableNames(v.disk[0], v.geo)
  }

  ghost predicate TableNames(table: Sector, geo: Geometry) {
    Lists(table) ==> Hdb1(table).start + 2 == geo.bitmapLba
  }

  ghost predicate IsStored(v: Vol, n: nat, data: seq<Byte>)
    requires Inv(v)
  {
    && n in v.inodes && FileIs(v.disk, v.inodes[n], data)
    && SlotBytes(v.disk, v.geo.tableLba, n) == Bytes(v.inodes[n])
  }

  /** The root inode's slot is as partition_format wrote it: two entries in the first block. */
  ghost predicate RootIsFirst(v: Vol)
    requires Inv(v)
  {
    && RootSlot(v) == Bytes(RootInode(v.geo))
    && ROOT in v.inodes && |v.inodes[ROOT].sectors| == 13 && v.inodes[ROOT].sectors[0] == v.geo.dataStart
  }

  /** The super block describes the partition. */
  ghost predicate SuperIs(disk: seq<Sector>, geo: Geometry) {
    2 <= geo.bitmapLba < |disk| && Describes(disk[geo.bitmapLba - 1], geo)
  }

  lemma RemountableFrame(a: Vol, b: Vol)
    requires Inv(a) && Inv(b) && Remountable(a) && b.geo == a.geo && |b.disk| == |a.disk| && ROOT in b.inodes
    requires DiskMarked(b)
    requires |b.inodes[ROOT].sectors| == 13 && b.inodes[ROOT].sectors[0] == a.inodes[ROOT].sectors[0]
    requires SlotBytes(b.disk, a.geo.tableLba, ROOT) == SlotBytes(a.disk, a.geo.tableLba, ROOT)
    requires b.disk[a.geo.bitmapLba - 1] == a.disk[a.geo.bitmapLba - 1]
    requires b.disk[0] == a.disk[0] || !Lists(b.disk[0])
    ensures Remountable(b)
  {
  }

  lemma CanMount(v: Vol)
    requires Inv(v) && SuperIs(v.disk, v.geo) && TableNames(v.disk[0], v.geo)
    ensures Lists(v.disk[0]) ==> Mountable(v.disk, Hdb1(v.disk[0]).start)
  {
    MountableAt(v.disk, v.geo, v.geo.bitmapLba - 2);
  }

  lemma MountableAt(disk: seq<Sector>, geo: Geometry, start: nat)
    requires GeoOk(geo, |disk|, 4096 * geo.bitmapSects) && SuperIs(disk, geo) && start + 2 == geo.bitmapLba
    ensures Mountable(disk, start)
  {
    assert Describes(disk[start + 1], geo);
  }

  /** What comes of a boot: partition_scan finds hdb1 in the disk's first sector and filesys_init mounts it, or
      there is no hdb1, nothing is mounted, and the kernel goes on with a null cur_part. */
  datatype Boot = Up(v: Vol) | NoPartition

  ghost function NextBoot(v: Vol): Boot
    requires Inv(v) && Remountable(v)
  {
    CanMount(v);
    if Lists(v.disk[0]) then Up(Mounted(v.disk, Hdb1(v.disk[0]).start, v.inodes.Keys, v.owner)) else NoPartition
  }

  /** The entries that a mount finds: those of the root's first block. */
  function Visible(es: seq<Entry>): seq<Entry> {
    if |es| <= PER_SECTOR then es else es[..PER_SECTOR]
  }

  /** One operation that succeeds. */
  datatype Op = Create(name: seq<Byte>, no: nat) | Write(no: nat, buf: seq<Byte>) | Close(no: nat) | Remount

  /** The operation as the user sees it. */
  function Apply(view: View, op: Op): View {
    match op
    case Create(name, no) =>
      if |name| <= 16 then
        View(WithEntry(view.es, NewEntry(name, no)), LongerBy1(view.size), view.files[no := []], view.listed
            && |view.es| < ROOM)
      else view
    case Write(no, buf) =>
      if no in view.files then view.(files := view.files[no := view.files[no] + buf]) else view
    case Close(_) => view
    case Remount => View(Visible(view.es), 2 * ENTRY_BYTES, view.files, true)
  }

  /** What file_create, file_write, file_close and a boot promise of a step, for a volume that implements the view. */
  ghost predicate Does(a: Vol, op: Op, b: Vol, view: View) {
    Implements(a, view) ==>
      match op
      case Create(name, no) => IsName(name) && Created(a, b, view.es, name, no)
      case Write(no, buf) => no in view.files && Written(a, b, no, view.files[no], buf)
      case Close(no) => no in view.files && b == a.(inodes := a.inodes[no := Closed(a.inodes[no])])
      case Remount => NextBoot(a) == Up(b)
  }

  // ---------------------------------------------------------------- a create

  lemma CreateImplements(a: Vol, b: Vol, view: View, name: seq<Byte>, no: nat)
    requires Implements(a, view) && |name| <= 16 && Created(a, b, view.es, name, no)
    ensures Implements(b, Apply(view, Create(name, no))) && b.geo == a.geo
  {
    CreateFiles(a, b, view, name, no);
    CreateTable(a, b, view.es, NewEntry(name, no));
    CreateRemountable(a, b, view.es, name, no);
  }

  /** With room in the directory the partition table is kept, without it is gone. */
  lemma CreateTable(a: Vol, b: Vol, es: seq<Entry>, e: Entry)
    requires FirstSectorAfter(a.disk, b.disk, es, e)
    ensures Lists(b.disk[0]) <==> Lists(a.disk[0]) && |es| < ROOM
    ensures b.disk[0] == a.disk[0] || !Lists(b.disk[0])
  {
    LostSectorListsNone(e);
  }

  lemma CreateRemountable(a: Vol, b: Vol, es: seq<Entry>, name: seq<Byte>, no: nat)
    requires Inv(a) && Remountable(a) && DirIs(a.disk, a.inodes[ROOT], es) && |name| <= 16
    requires Created(a, b, es, name, no)
    ensures Remountable(b)
  {
    assert a.inodes[ROOT].sectors[0] != 0;
    CreateTable(a, b, es, NewEntry(name, no));
    RemountableFrame(a, b);
  }

  lemma CreateFiles(a: Vol, b: Vol, view: View, name: seq<Byte>, no: nat)
    requires Inv(a) && ROOT in a.inodes && HasFiles(a, view.files) && |name| <= 16 && Created(a, b, view.es, name, no)
    ensures HasFiles(b, view.files[no := []])
  {
    forall n | n in view.files ensures n != no && IsStored(b, n, view.files[n]) {
      StoredAfterCreate(a, b, view.es, name, no, n, view.files[n]);
    }
    NewIsStored(a, b, view.es, name, no);
    SameFiles(a, b, view.files, no, []);
  }

  /** The files of b are those of `files` with one file set to data. */
  lemma SameFiles(a: Vol, b: Vol, files: map<nat, seq<Byte>>, no: nat, data: seq<Byte>)
    requires Inv(a) && Inv(b) && HasFiles(a, files) && no != ROOT
    requires forall n :: n in b.inodes <==> n in a.inodes || n == no
    requires IsStored(b, no, data) && forall n :: n in files && n != no ==> IsStored(b, n, files[n])
    ensures HasFiles(b, files[no := data])
  {
  }

  lemma NewIsStored(a: Vol, b: Vol, es: seq<Entry>, name: seq<Byte>, no: nat)
    requires Inv(a) && ROOT in a.inodes && |name| <= 16 && Created(a, b, es, name, no)
    ensures IsStored(b, no, [])
  {
  }

  lemma StoredAfterCreate(a: Vol, b: Vol, es: seq<Entry>, name: seq<Byte>, no: nat, n: nat, data: seq<Byte>)
    requires Inv(a) && ROOT in a.inodes && |name| <= 16 && Created(a, b, es, name, no)
    requires IsStored(a, n, data) && n != ROOT
    ensures n != no && IsStored(b, n, data)
  {
    KeptFile(a, b.disk, n, data);
    assert b.inodes[n] == a.inodes[n];
  }

  lemma KeptFile(a: Vol, disk': seq<Sector>, n: nat, data: seq<Byte>)
    requires Inv(a) && IsStored(a, n, data) && n != ROOT && |disk'| == |a.disk|
    requires forall l :: l in a.owner && a.owner[l].ino != ROOT && l < |a.disk| ==> disk'[l] == a.disk[l]
    ensures FileIs(disk', a.inodes[n], data)
  {
    FileFrame(a, disk', n, data);
  }

  // ---------------------------------------------------------------- a write

  lemma WriteImplements(a: Vol, b: Vol, view: View, no: nat, buf: seq<Byte>)
    requires Implements(a, view) && no in view.files && Written(a, b, no, view.files[no], buf)
    ensures Implements(b, Apply(view, Write(no, buf))) && b.geo == a.geo
  {
    WriteShows(a, b, view, no, buf);
    WriteRemountable(a, b, view.files[no], no, buf);
    WriteFiles(a, b, view.files, no, buf);
    WriteJoin(a, b, view, no, buf);
  }

  lemma WriteJoin(a: Vol, b: Vol, view: View, no: nat, buf: seq<Byte>)
    requires Implements(a, view) && no in view.files && Inv(b) && b.disk[0] == a.disk[0]
    requires ShowsEntries(b, view) && HasFiles(b, view.files[no := view.files[no] + buf]) && Remountable(b)
    ensures Implements(b, Apply(view, Write(no, buf)))
  {
  }

  lemma WriteShows(a: Vol, b: Vol, view: View, no: nat, buf: seq<Byte>)
    requires Inv(a) && ShowsEntries(a, view) && no in view.files && no != ROOT
    requires Written(a, b, no, view.files[no], buf)
    ensures ShowsEntries(b, view) && b.disk[0] == a.disk[0] && b.geo == a.geo
  {
    RootAfterWrite(a, b, view.es, no);
  }

  lemma WriteFiles(a: Vol, b: Vol, files: map<nat, seq<Byte>>, no: nat, buf: seq<Byte>)
    requires Inv(a) && no in files && Written(a, b, no, files[no], buf) && HasFiles(a, files)
    ensures HasFiles(b, files[no := files[no] + buf])
  {
    forall n | n in files && n != no ensures IsStored(b, n, files[n]) {
      StoredAfterWrite(a, b, no, files[no], buf, n, files[n]);
    }
    WrittenIsStored(a, b, no, files[no], buf);
    SameFiles(a, b, files, no, files[no] + buf);
  }

  lemma WrittenIsStored(a: Vol, b: Vol, no: nat, was: seq<Byte>, buf: seq<Byte>)
    requires Inv(a) && Written(a, b, no, was, buf)
    ensures IsStored(b, no, was + buf)
  {
  }

  lemma RootAfterWrite(a: Vol, b: Vol, es: seq<Entry>, no: nat)
    requires Inv(a) && ROOT in a.inodes && DirIs(a.disk, a.inodes[ROOT], es) && OthersKept(a, b, no) && no != ROOT
    ensures ROOT in b.inodes && b.inodes[ROOT] == a.inodes[ROOT] && DirIs(b.disk, b.inodes[ROOT], es)
  {
    BeginDir(a, es);
    DirFrame(a.disk, b.disk, a.inodes[ROOT], es);
  }

  lemma WriteRemountable(a: Vol, b: Vol, was: seq<Byte>, no: nat, buf: seq<Byte>)
    requires Inv(a) && Written(a, b, no, was, buf) && no != ROOT && Remountable(a)
    ensures Remountable(b)
  {
    WrittenKeeps(a, b, was, no, buf);
    KeptRemountable(a, b);
  }

  /** What a mount reads is the same. */
  ghost predicate BootKept(a: Vol, b: Vol)
    requires Inv(a)
  {
    && b.geo == a.geo && |b.disk| == |a.disk| && SameKeys(a, b)
    && (ROOT in a.inodes ==> b.inodes[ROOT] == a.inodes[ROOT])
    && (forall l :: 0 <= l < a.geo.bitmapLba || l == a.geo.inodeBitmapLba ==> b.disk[l] == a.disk[l])
    && SlotBytes(b.disk, a.geo.tableLba, ROOT) == SlotBytes(a.disk, a.geo.tableLba, ROOT)
  }

  lemma WrittenKeeps(a: Vol, b: Vol, was: seq<Byte>, no: nat, buf: seq<Byte>)
    requires Inv(a) && Written(a, b, no, was, buf) && no != ROOT
    ensures Inv(b) && BootKept(a, b)
  {
  }

  lemma KeptRemountable(a: Vol, b: Vol)
    requires Inv(a) && Inv(b) && BootKept(a, b) && Remountable(a)
    ensures Remountable(b)
  {
    StaysMarked(a, b);
    RemountableFrame(a, b);
  }

  ghost predicate SameKeys(a: Vol, b: Vol) {
    forall n :: n in b.inodes <==> n in a.inodes
  }

  lemma StaysMarked(a: Vol, b: Vol)
    requires DiskMarked(a) && b.geo == a.geo && |b.disk| == |a.disk| && SameKeys(a, b)
    requires b.disk[a.geo.inodeBitmapLba] == a.disk[a.geo.inodeBitmapLba]
    ensures DiskMarked(b)
  {
    assert ReadBits(b.disk, a.geo.inodeBitmapLba, 1) == ReadBits(a.disk, a.geo.inodeBitmapLba, 1);
  }

  lemma StoredAfterWrite(a: Vol, b: Vol, no: nat, was: seq<Byte>, buf: seq<Byte>, n: nat, data: seq<Byte>)
    requires Inv(a) && Written(a, b, no, was, buf) && IsStored(a, n, data) && n != no
    ensures IsStored(b, n, data)
  {
    OtherFilesKept(a, b, no, n, data);
  }

  // ---------------------------------------------------------------- a close

  lemma CloseImplements(a: Vol, b: Vol, view: View, no: nat)
    requires Implements(a, view) && no in view.files && b == a.(inodes := a.inodes[no := Closed(a.inodes[no])])
    ensures Implements(b, view) && b.geo == a.geo
  {
    assert IsStored(a, no, view.files[no]);
    ClosedInv(a, b, no);
    ClosedFiles(a, b, view.files, no);
  }

  lemma ClosedFiles(a: Vol, b: Vol, files: map<nat, seq<Byte>>, no: nat)
    requires Inv(a) && Inv(b) && HasFiles(a, files) && no in files
    requires b == a.(inodes := a.inodes[no := Closed(a.inodes[no])])
    ensures HasFiles(b, files)
  {
    forall n | n in files ensures IsStored(b, n, files[n]) {
      assert IsStored(a, n, files[n]);
      if n == no { OpenInodes.SameBlocks(a.disk, a.inodes[n], b.inodes[n], files[n]); }
    }
  }

  lemma ClosedInv(a: Vol, b: Vol, no: nat)
    requires Inv(a) && no in a.inodes && b == a.(inodes := a.inodes[no := Closed(a.inodes[no])])
    ensures Inv(b)
  {
    forall n | n in b.inodes ensures n < MAX_FILES && b.inodes[n].no == n && Owned(b.disk, b.owner, n, b.inodes[n]) {
      assert Owned(a.disk, a.owner, n, a.inodes[n]);
      if n == no { OwnedSame(a.disk, a.owner, n, a.inodes[n], b.inodes[n]); }
    }
  }

  /** Ownership is a matter of size and blocks. */
  lemma OwnedSame(disk: seq<Sector>, owner: map<nat, Slot>, n: nat, x: Inode, y: Inode)
    requires Owned(disk, owner, n, x) && y.sectors == x.sectors && y.size == x.size
    ensures Owned(disk, owner, n, y)
  {
    forall i | 0 <= i <= TABLE && HasSlot(y, i)
      ensures LbaAt(disk, y, i) in owner && owner[LbaAt(disk, y, i)] == Slot(n, i)
    {
      assert HasSlot(x, i);
    }
  }

  // ---------------------------------------------------------------- a remount

  lemma RemountImplements(a: Vol, b: Vol, view: View)
    requires Implements(a, view) && NextBoot(a) == Up(b)
    ensures Implements(b, Apply(view, Remount)) && b.geo == a.geo
  {
    RebootedIs(a, b);
    ReopenedImplements(a, b, view);
  }

  lemma ReopenedImplements(a: Vol, b: Vol, view: View)
    requires Implements(a, view) && AllReopened(a, b) && view.listed
    ensures Implements(b, Apply(view, Remount)) && b.geo == a.geo
  {
    RootIs(a, b);
    FilesReopened(a, b, view.files);
    ResetImplements(a, b, view, Apply(view, Remount));
  }

  lemma ResetImplements(a: Vol, b: Vol, view: View, now: View)
    requires Implements(a, view) && now == Apply(view, Remount) && b == a.(inodes := b.inodes) && SameKeys(a, b)
    requires b.inodes[ROOT] == RootInode(a.geo).(openCount := 1)
    requires FilesReset(a, b, view.files) && view.listed
    ensures Implements(b, now) && b.geo == a.geo
  {
    RootShown(a, b, view, now);
    RebootedInv(a, b, view.files);
    FilesStayStored(a, b, view.files);
    RebootedRemounts(a, b);
  }

  ghost predicate FilesReset(a: Vol, b: Vol, files: map<nat, seq<Byte>>)
    requires forall n :: n in files ==> n in a.inodes && n in b.inodes
  {
    forall n :: n in files ==>
        b.inodes[n] == a.inodes[n].(openCount := 0, writeDeny := false) && FileIs(a.disk, b.inodes[n], files[n])
  }

  /** b is a with every inode as its slot has it. */
  ghost predicate AllReopened(a: Vol, b: Vol)
    requires Inv(a)
  {
    b == a.(inodes := b.inodes) && SameKeys(a, b) && forall n :: n in a.inodes ==>
        b.inodes[n] == InodeRead(a.disk, a.geo, ROOT, n)
  }

  lemma RootIs(a: Vol, b: Vol)
    requires Inv(a) && RootIsFirst(a) && AllReopened(a, b)
    ensures b.inodes[ROOT] == RootInode(a.geo).(openCount := 1)
  {
    RootDecodes(RootSlot(a), a.geo);
  }

  lemma RootShown(a: Vol, b: Vol, view: View, now: View)
    requires Inv(a) && ShowsEntries(a, view) && RootIsFirst(a) && b == a.(inodes := b.inodes) && ROOT in b.inodes
    requires b.inodes[ROOT] == RootInode(a.geo).(openCount := 1)
    requires now == Apply(view, Remount)
    ensures ShowsEntries(b, now)
  {
    FirstBlockIs(a.disk, a.inodes[ROOT], b.inodes[ROOT], view.es);
  }

  lemma RebootedIs(a: Vol, b: Vol)
    requires Inv(a) && Remountable(a) && NextBoot(a) == Up(b)
    ensures AllReopened(a, b)
  {
    CanMount(a);
    MountIsReopened(a, b, Hdb1(a.disk[0]).start);
  }

  lemma MountIsReopened(a: Vol, b: Vol, start: nat)
    requires Inv(a) && SuperIs(a.disk, a.geo) && start + 2 == a.geo.bitmapLba && ROOT in a.inodes
    requires Mountable(a.disk, start) && b == Mounted(a.disk, start, a.inodes.Keys, a.owner)
    ensures AllReopened(a, b)
  {
    MountedIs(a, b, start);
    ReadBitsIsSynced(a.disk, a.bits, a.geo);
    RebootedInodes(a, b.inodes);
  }

  lemma MountedIs(a: Vol, b: Vol, start: nat)
    requires Inv(a) && SuperIs(a.disk, a.geo) && start + 2 == a.geo.bitmapLba
    requires Mountable(a.disk, start) && b == Mounted(a.disk, start, a.inodes.Keys, a.owner)
    ensures b.disk == a.disk && b.geo == a.geo && b.owner == a.owner
    ensures b.bits == ReadBits(a.disk, a.geo.bitmapLba, a.geo.bitmapSects)
    ensures b.inodes == InodesRead(a.disk, a.geo, ROOT, a.inodes.Keys + {ROOT})
  {
    assert Describes(a.disk[start + 1], a.geo);
  }

  lemma RebootedInodes(a: Vol, inodes: map<nat, Inode>)
    requires Inv(a) && ROOT in a.inodes && inodes == InodesRead(a.disk, a.geo, ROOT, a.inodes.Keys + {ROOT})
    ensures forall n :: n in inodes <==> n in a.inodes
    ensures forall n :: n in a.inodes ==> inodes[n] == InodeRead(a.disk, a.geo, ROOT, n)
  {
  }

  lemma FilesReopened(a: Vol, b: Vol, files: map<nat, seq<Byte>>)
    requires Inv(a) && HasFiles(a, files) && AllReopened(a, b)
    ensures FilesReset(a, b, files)
  {
    forall n | n in files
      ensures b.inodes[n] == a.inodes[n].(openCount := 0, writeDeny := false) && FileIs(a.disk, b.inodes[n], files[n])
    {
      assert IsStored(a, n, files[n]);
      OpenInodes.SurvivesReopen(a, n, files[n]);
    }
  }

  lemma FilesStayStored(a: Vol, b: Vol, files: map<nat, seq<Byte>>)
    requires Inv(a) && HasFiles(a, files) && Inv(b) && b == a.(inodes := b.inodes) && SameKeys(a, b)
    requires FilesReset(a, b, files)
    ensures HasFiles(b, files)
  {
    forall n | n in files ensures IsStored(b, n, files[n]) {
      assert IsStored(a, n, files[n]);
    }
  }

  lemma RebootedRemounts(a: Vol, b: Vol)
    requires Inv(a) && Remountable(a) && Inv(b) && b == a.(inodes := b.inodes) && SameKeys(a, b) && ROOT in a.inodes
    requires b.inodes[ROOT] == RootInode(a.geo).(openCount := 1)
    ensures Remountable(b)
  {
  }

  lemma RebootedInv(a: Vol, b: Vol, files: map<nat, seq<Byte>>)
    requires Inv(a) && HasFiles(a, files) && b == a.(inodes := b.inodes) && SameKeys(a, b) && ROOT in a.inodes
    requires b.inodes[ROOT] == RootInode(a.geo).(openCount := 1) && |a.inodes[ROOT].sectors| == 13
    requires a.inodes[ROOT].sectors[0] == a.geo.dataStart
    requires FilesReset(a, b, files)
    ensures Inv(b)
  {
    forall n | n in b.inodes ensures n < MAX_FILES && b.inodes[n].no == n && Owned(b.disk, b.owner, n, b.inodes[n]) {
      assert Owned(a.disk, a.owner, n, a.inodes[n]);
      if n == ROOT {
        assert HasSlot(a.inodes[ROOT], 0) && LbaAt(a.disk, a.inodes[ROOT], 0) == a.geo.dataStart;
      } else {
        OwnedSame(a.disk, a.owner, n, a.inodes[n], b.inodes[n]);
      }
    }
  }

  /** An inode that has only the directory's first block shows the entries in it. */
  lemma FirstBlockIs(disk: seq<Sector>, inode: Inode, first: Inode, es: seq<Entry>)
    requires DirIs(disk, inode, es) && |first.sectors| == 13 && first.sectors[0] == inode.sectors[0]
    requires forall i :: 1 <= i < 13 ==> first.sectors[i] == 0
    ensures DirIs(disk, first, Visible(es))
  {
    assert inode.sectors[0] < |disk| && inode.sectors[0] != 0;
    forall j | 0 <= j < ROOM && first.sectors[j / 21] != 0 ensures EntryIs(disk, first.sectors, j, Visible(es)) {
      assert j < 21 && EntryOf(disk, inode.sectors, j) == EntryOf(disk, first.sectors, j);
    }
    DirIsEntries(disk, first, Visible(es));
  }

  // ---------------------------------------------------------------- runs

  function ApplyAll(view: View, ops: seq<Op>): View
    decreases |ops|
  {
    if ops == [] then view else ApplyAll(Apply(view, ops[0]), ops[1..])
  }

  /** A run: the volumes before, between and after the operations. */
  ghost predicate IsRun(run: seq<Vol>, ops: seq<Op>, view: View)
    decreases |ops|
  {
    && |run| == |ops| + 1
    && (ops != [] ==> Does(run[0], ops[0], run[1], view) && IsRun(run[1..], ops[1..], Apply(view, ops[0])))
  }

  lemma StepImplements(a: Vol, op: Op, b: Vol, view: View)
    requires Implements(a, view) && Does(a, op, b, view)
    ensures Implements(b, Apply(view, op)) && b.geo == a.geo
  {
    match op
    case Create(name, no) => CreateImplements(a, b, view, name, no);
    case Write(no, buf) => WriteImplements(a, b, view, no, buf);
    case Close(no) => CloseImplements(a, b, view, no);
    case Remount => RemountImplements(a, b, view);
  }

  /** After any sequence of creates, writes, closes and remounts the volume holds exactly what the operations leave:
      every file's bytes, the directory's entries, blocks that serve one purpose each, and a partition that mounts
      if it is found. */
  lemma {:induction false} RunsRefine(run: seq<Vol>, ops: seq<Op>, view: View)
    requires IsRun(run, ops, view) && Implements(run[0], view)
    ensures Implements(run[|ops|], ApplyAll(view, ops)) && run[|ops|].geo == run[0].geo
    decreases |ops|
  {
    if ops != [] {
      StepImplements(run[0], ops[0], run[1], view);
      RunsRefine(run[1..], ops[1..], Apply(view, ops[0]));
    }
  }

  /** No run ever changes the root's slot: whatever has been created, a mount finds an inode with one block and
      two entries. */
  lemma RootSlotStays(run: seq<Vol>, ops: seq<Op>, view: View)
    requires IsRun(run, ops, view) && Implements(run[0], view)
    ensures Inv(run[0]) && Inv(run[|ops|]) && RootSlot(run[|ops|]) == RootSlot(run[0])
    ensures FromBytes(RootSlot(run[|ops|])) == RootInode(run[0].geo)
  {
    RunsRefine(run, ops, view);
    RootDecodes(RootSlot(run[|ops|]), run[0].geo);
  }

  ghost function RootSlot(v: Vol): (b: seq<Byte>)
    requires Inv(v)
    ensures |b| == INODE_BYTES
  {
    SlotBytes(v.disk, v.geo.tableLba, ROOT)
  }

  // ---------------------------------------------------------------- the partition table

  /** Some create of the run meets a directory whose twelve blocks are full, if it has n entries at the start.
      Only the kinds of the operations count. */
  predicate Overflows(n: nat, ops: seq<Op>)
    decreases |ops|
  {
    ops != [] &&
      match ops[0]
      case Create(_, _) => n >= ROOM || Overflows(n + 1, ops[1..])
      case Remount => Overflows(if n <= PER_SECTOR then n else PER_SECTOR, ops[1..])
      case _ => Overflows(n, ops[1..])
  }

  /** A new file with a name that fits its field, an operation on a file that exists, a boot that finds the
      partition. */
  predicate LegalStep(view: View, op: Op) {
    match op
    case Create(name, no) => |name| <= 16 && no !in view.files
    case Write(no, _) => no in view.files
    case Close(no) => no in view.files
    case Remount => view.listed
  }

  ghost predicate Legal(view: View, ops: seq<Op>)
    decreases |ops|
  {
    ops != [] ==> LegalStep(view, ops[0]) && Legal(Apply(view, ops[0]), ops[1..])
  }

  lemma StepIsLegal(a: Vol, op: Op, b: Vol, view: View)
    requires Implements(a, view) && Does(a, op, b, view)
    ensures LegalStep(view, op)
  {
    if op.Create? { CreatedIsNew(a, b, view.es, op.name, op.no); }
  }

  lemma CreatedIsNew(a: Vol, b: Vol, es: seq<Entry>, name: seq<Byte>, no: nat)
    requires Inv(a) && ROOT in a.inodes && |name| <= 16 && Created(a, b, es, name, no)
    ensures no !in a.inodes && ROOT in b.inodes
    ensures b.inodes == a.inodes[ROOT := b.inodes[ROOT]][no := NewInode(no, 1)]
  {
  }

  lemma {:induction false} RunIsLegal(run: seq<Vol>, ops: seq<Op>, view: View)
    requires IsRun(run, ops, view) && Implements(run[0], view)
    ensures Legal(view, ops)
    decreases |ops|
  {
    if ops != [] {
      StepImplements(run[0], ops[0], run[1], view);
      StepIsLegal(run[0], ops[0], run[1], view);
      RunIsLegal(run[1..], ops[1..], Apply(view, ops[0]));
    }
  }

  lemma {:induction false} ListedAfter(view: View, ops: seq<Op>)
    requires Legal(view, ops)
    ensures ApplyAll(view, ops).listed <==> view.listed && !Overflows(|view.es|, ops)
    decreases |ops|
  {
    if ops != [] { ListedAfter(Apply(view, ops[0]), ops[1..]); }
  }

  /** The next boot finds the partition exactly when no create of the run met a full directory. */
  lemma BootAfterRun(run: seq<Vol>, ops: seq<Op>, view: View)
    requires IsRun(run, ops, view) && Implements(run[0], view) && view.listed
    ensures Inv(run[|ops|]) && Remountable(run[|ops|])
    ensures NextBoot(run[|ops|]).Up? <==> !Overflows(|view.es|, ops)
  {
    RunsRefine(run, ops, view);
    RunIsLegal(run, ops, view);
    ListedAfter(view, ops);
  }

  function Creates(ops: seq<Op>): nat {
    if ops == [] then 0 else (if ops[0].Create? then 1 else 0) + Creates(ops[1..])
  }

  ghost predicate NoRemount(ops: seq<Op>) {
    forall i :: 0 <= i < |ops| ==> ops[i] != Remount
  }

  /** Between two boots the creates are counted. */
  lemma {:induction false} OverflowsIff(n: nat, ops: seq<Op>)
    requires n <= ROOM && NoRemount(ops)
    ensures Overflows(n, ops) <==> n + Creates(ops) > ROOM
    decreases |ops|
  {
    if ops != [] {
      assert forall i :: 0 <= i < |ops[1..]| ==> ops[1..][i] == ops[i + 1];
      if ops[0].Create? && n < ROOM { OverflowsIff(n + 1, ops[1..]); }
      if !ops[0].Create? { OverflowsIff(n, ops[1..]); }
    }
  }

  // ---------------------------------------------------------------- names

  /** Different names, and files for the regular entries. */
  ghost predicate NamesOk(view: View) {
    && (forall j :: 0 <= j < |view.es| ==> Text(view.es[j].field) != [])
    && (forall i, j :: 0 <= i < j < |view.es| ==> Text(view.es[i].field) != Text(view.es[j].field))
    && (forall j :: 0 <= j < |view.es| && view.es[j].ftype == FT_REGULAR ==> view.es[j].ino in view.files)
  }

  /** sys_open creates a file under a name that search_file does not find. */
  ghost predicate Fresh(view: View, ops: seq<Op>)
    decreases |ops|
  {
    ops != [] ==>
      && (ops[0].Create? ==> IsName(ops[0].name) && Find(view.es, ops[0].name) == Missing)
      && Fresh(Apply(view, ops[0]), ops[1..])
  }

  lemma {:induction false} NotFound(es: seq<Entry>, name: seq<Byte>, j: nat)
    requires Find(es, name) == Missing && j < |es|
    ensures Text(es[j].field) != name
  {
    if j > 0 { NotFound(es[1..], name, j - 1); }
  }

  lemma NamesStep(view: View, op: Op)
    requires NamesOk(view) && (op.Create? ==> IsName(op.name) && Find(view.es, op.name) == Missing)
    ensures NamesOk(Apply(view, op))
  {
    if op.Create? {
      TextOfName(op.name, seq(16 - |op.name|, _ => 0));
      forall j | 0 <= j < |view.es| ensures Text(view.es[j].field) != op.name { NotFound(view.es, op.name, j); }
    }
  }

  lemma {:induction false} NamesStayOk(view: View, ops: seq<Op>)
    requires NamesOk(view) && Fresh(view, ops)
    ensures NamesOk(ApplyAll(view, ops))
    decreases |ops|
  {
    if ops != [] {
      NamesStep(view, ops[0]);
      NamesStayOk(Apply(view, ops[0]), ops[1..]);
    }
  }

  lemma FindEntry(es: seq<Entry>, j: nat, n: nat)
    requires j < |es| && n <= |es|
    requires forall i, k :: 0 <= i < k < |es| ==> Text(es[i].field) != Text(es[k].field)
    ensures Find(es[..n], Text(es[j].field)) == if j < n then Known(es[j].ino) else Missing
  {
    FindAt(es[..n], Text(es[j].field), if j < n then j else n);
  }

  /** The lookup of entry j's name in a volume. */
  ghost function Looked(v: Vol, es: seq<Entry>, j: nat): Lookup
    requires j < |es| && ROOT in v.inodes && Searchable(v.disk, v.inodes[ROOT])
  {
    FindIn(v.disk, v.inodes[ROOT], Text(es[j].field))
  }

  lemma LookedUp(v: Vol, view: View, es: seq<Entry>, j: nat)
    requires Implements(v, view) && NamesOk(view.(es := es)) && j < |es| && |view.es| <= |es|
    requires view.es == es[..|view.es|]
    ensures Searchable(v.disk, v.inodes[ROOT])
    ensures Looked(v, es, j) == if j < |view.es| then Known(es[j].ino) else Missing
  {
    SearchIsFind(v.disk, v.inodes[ROOT], view.es, Text(es[j].field));
    FindEntry(es, j, |view.es|);
  }

  /** Every name leads to its entry's number. */
  ghost predicate AllFound(v: Vol, view: View)
    requires ROOT in v.inodes && Searchable(v.disk, v.inodes[ROOT])
  {
    forall j :: 0 <= j < |view.es| ==> Looked(v, view.es, j) == Known(view.es[j].ino)
  }

  /** A regular entry's number is a file's, whose inode and bytes are on the disk. */
  ghost predicate LeadToFiles(v: Vol, view: View)
    requires Inv(v)
  {
    forall j :: 0 <= j < |view.es| && view.es[j].ftype == FT_REGULAR ==>
      view.es[j].ino in view.files && IsStored(v, view.es[j].ino, view.files[view.es[j].ino])
  }

  /** Before a mount: every name is found and leads to its file. */
  ghost predicate FoundNow(v: Vol, view: View) {
    && Inv(v) && ROOT in v.inodes && Searchable(v.disk, v.inodes[ROOT])
    && AllFound(v, view) && LeadToFiles(v, view)
  }

  /** After a mount: the files are all there, but of the names exactly the first 21. */
  ghost predicate FoundLater(w: Vol, view: View) {
    && Inv(w) && ROOT in w.inodes && Searchable(w.disk, w.inodes[ROOT])
    && (forall j :: 0 <= j < |view.es| ==> Looked(w, view.es, j) == if j < 21 then Known(view.es[j].ino) else Missing)
    && (AllFound(w, view) <==> |view.es| <= 21) && LeadToFiles(w, view)
  }

  lemma NamesFound(v: Vol, view: View)
    requires Implements(v, view) && NamesOk(view)
    ensures FoundNow(v, view)
  {
    DirSearchable(v.disk, v.inodes[ROOT], view.es);
    forall j | 0 <= j < |view.es| ensures Looked(v, view.es, j) == Known(view.es[j].ino) {
      assert view.es == view.es[..|view.es|];
      LookedUp(v, view, view.es, j);
    }
  }

  lemma NamesLost(w: Vol, view: View)
    requires Implements(w, Apply(view, Remount)) && NamesOk(view)
    ensures FoundLater(w, view)
  {
    DirSearchable(w.disk, w.inodes[ROOT], Visible(view.es));
    forall j | 0 <= j < |view.es| ensures Looked(w, view.es, j) == if j < 21 then Known(view.es[j].ino) else Missing {
      LookedUp(w, Apply(view, Remount), view.es, j);
    }
    assert |view.es| > 21 ==> Looked(w, view.es, 21) == Missing;
  }

  // ---------------------------------------------------------------- what a created name leads to

  lemma {:induction false} LegalFrom(view: View, ops: seq<Op>, i: nat)
    requires Legal(view, ops) && i <= |ops|
    ensures Legal(ApplyAll(view, ops[..i]), ops[i..])
    ensures ApplyAll(view, ops) == ApplyAll(ApplyAll(view, ops[..i]), ops[i..])
    decreases i
  {
    if i == 0 {
      assert ops[0..] == ops;
    } else {
      LegalFrom(Apply(view, ops[0]), ops[1..], i - 1);
      assert ops[1..][i - 1..] == ops[i..] && ops[1..][..i - 1] == ops[..i][1..];
    }
  }

  lemma {:induction false} FreshFrom(view: View, ops: seq<Op>, i: nat)
    requires Fresh(view, ops) && i < |ops|
    ensures Fresh(ApplyAll(view, ops[..i]), ops[i..])
    decreases i
  {
    if i == 0 {
      assert ops[0..] == ops;
    } else {
      FreshFrom(Apply(view, ops[0]), ops[1..], i - 1);
      assert ops[1..][i - 1..] == ops[i..] && ops[1..][..i - 1] == ops[..i][1..];
    }
  }

  /** The bytes that the operations write to a file, in order. */
  function Appended(ops: seq<Op>, no: nat): seq<Byte>
    decreases |ops|
  {
    if ops == [] then []
    else (if ops[0].Write? && ops[0].no == no then ops[0].buf else []) + Appended(ops[1..], no)
  }

  lemma FileStep(view: View, op: Op, no: nat)
    requires LegalStep(view, op) && no in view.files
    ensures no in Apply(view, op).files
    ensures Apply(view, op).files[no] == view.files[no] + if op.Write? && op.no == no then op.buf else []
  {
  }

  /** A file holds what it held and then what was written to it. */
  lemma {:induction false} FileGrows(view: View, ops: seq<Op>, no: nat)
    requires Legal(view, ops) && no in view.files
    ensures no in ApplyAll(view, ops).files
    ensures ApplyAll(view, ops).files[no] == view.files[no] + Appended(ops, no)
    decreases |ops|
  {
    if ops == [] {
      assert view.files[no] + [] == view.files[no];
    } else {
      FileStep(view, ops[0], no);
      FileGrows(Apply(view, ops[0]), ops[1..], no);
    }
  }

  /** An entry stays where it is; a mount hides those behind the first 21. */
  lemma {:induction false} EntryStays(view: View, ops: seq<Op>, j: nat)
    requires j < |view.es| && (j < 21 || NoRemount(ops))
    ensures j < |ApplyAll(view, ops).es| && ApplyAll(view, ops).es[j] == view.es[j]
    decreases |ops|
  {
    if ops != [] {
      assert forall i :: 0 <= i < |ops[1..]| ==> ops[1..][i] == ops[i + 1];
      EntryStays(Apply(view, ops[0]), ops[1..], j);
    }
  }

  /** The name is found, and its number is that of a file whose inode and bytes are on the disk. */
  ghost predicate IsFile(v: Vol, name: seq<Byte>, no: nat, data: seq<Byte>) {
    Inv(v) && LeadsTo(v, name, Known(no)) && IsStored(v, no, data)
  }

  /** The create that is operation i found room, among the first 21 entries or with no later mount. */
  ghost predicate Lasts(view: View, ops: seq<Op>, i: nat)
    requires i < |ops|
  {
    var j := |ApplyAll(view, ops[..i]).es|;
    ops[i].Create? && j < 252 && (j < 21 || NoRemount(ops[i + 1..]))
  }

  /** Where the entry of such a create is at the end, and what its file holds. */
  lemma EntryOfCreate(view: View, ops: seq<Op>, i: nat)
    requires Legal(view, ops) && i < |ops| && Fresh(view, ops) && Lasts(view, ops, i)
    ensures var j, end := |ApplyAll(view, ops[..i]).es|, ApplyAll(view, ops);
            && j < |end.es| && end.es[j].ino == ops[i].no && Text(end.es[j].field) == ops[i].name
            && ops[i].no in end.files && end.files[ops[i].no] == Appended(ops[i + 1..], ops[i].no)
  {
    var at, name, no, rest := ApplyAll(view, ops[..i]), ops[i].name, ops[i].no, ops[i + 1..];
    LegalFrom(view, ops, i);
    FreshFrom(view, ops, i);
    assert ops[i..][0] == ops[i] && ops[i..][1..] == rest;
    TextOfName(name, seq(16 - |name|, _ => 0));
    EntryStays(Apply(at, ops[i]), rest, |at.es|);
    FileGrows(Apply(at, ops[i]), rest, no);
    assert [] + Appended(rest, no) == Appended(rest, no);
  }

  /** What a create made is found under its name at the end of the run, with every byte that was written to it, and
      still after the next boot if it was one of the first 21 entries. */
  lemma CreatedLasts(run: seq<Vol>, ops: seq<Op>, view: View, i: nat)
    requires IsRun(run, ops, view) && Implements(run[0], view) && NamesOk(view) && i < |ops| && Fresh(view, ops)
    requires Lasts(view, ops, i)
    ensures IsFile(run[|ops|], ops[i].name, ops[i].no, Appended(ops[i + 1..], ops[i].no))
    ensures Remountable(run[|ops|])
    ensures |ApplyAll(view, ops[..i]).es| < 21 && NextBoot(run[|ops|]).Up? ==>
              IsFile(NextBoot(run[|ops|]).v, ops[i].name, ops[i].no, Appended(ops[i + 1..], ops[i].no))
  {
    RunsRefine(run, ops, view);
    RunIsLegal(run, ops, view);
    NamesStayOk(view, ops);
    EntryOfCreate(view, ops, i);
    EntryLasts(run[|ops|], ApplyAll(view, ops), |ApplyAll(view, ops[..i]).es|);
  }

  lemma EntryLasts(v: Vol, view: View, j: nat)
    requires Implements(v, view) && NamesOk(view) && j < |view.es| && view.es[j].ino in view.files
    ensures IsFile(v, Text(view.es[j].field), view.es[j].ino, view.files[view.es[j].ino])
    ensures j < 21 && NextBoot(v).Up? ==>
              IsFile(NextBoot(v).v, Text(view.es[j].field), view.es[j].ino, view.files[view.es[j].ino])
  {
    EntryIsFile(v, view, j);
    if j < 21 && NextBoot(v).Up? {
      FirstOutlives(view, Apply(view, Remount), j);
      EntryOutlives(v, NextBoot(v).v, view, Apply(view, Remount), j);
    }
  }

  lemma FirstOutlives(view: View, now: View, j: nat)
    requires now == Apply(view, Remount) && NamesOk(view) && j < |view.es| && j < 21
    ensures NamesOk(now) && j < |now.es| && now.es[j] == view.es[j] && now.files == view.files
  {
    NamesStep(view, Remount);
  }

  lemma EntryOutlives(v: Vol, w: Vol, view: View, now: View, j: nat)
    requires Implements(v, view) && NextBoot(v) == Up(w) && now == Apply(view, Remount)
    requires NamesOk(now) && j < |now.es| && now.es[j].ino in now.files
    ensures IsFile(w, Text(now.es[j].field), now.es[j].ino, now.files[now.es[j].ino])
  {
    RemountImplements(v, w, view);
    EntryIsFile(w, now, j);
  }

  lemma EntryIsFile(v: Vol, view: View, j: nat)
    requires Implements(v, view) && NamesOk(view) && j < |view.es| && view.es[j].ino in view.files
    ensures IsFile(v, Text(view.es[j].field), view.es[j].ino, view.files[view.es[j].ino])
  {
    assert view.es == view.es[..|view.es|];
    LookedUp(v, view, view.es, j);
    assert IsStored(v, view.es[j].ino, view.files[view.es[j].ino]);
  }

  /** The root inode counts 24 bytes for each create since the last boot, or since the start. */
  lemma RootSizeIs(run: seq<Vol>, ops: seq<Op>, view: View, k: nat)
    requires IsRun(run, ops, view) && Implements(run[0], view) && view.size < MAX32
    requires k <= |ops| && (k == 0 || ops[k - 1] == Remount) && NoRemount(ops[k..])
    ensures ROOT in run[|ops|].inodes
    ensures run[|ops|].inodes[ROOT].size ==
            ((if k == 0 then view.size else 48) + 24 * Creates(ops[k..])) % 0x1_0000_0000
  {
    RunsRefine(run, ops, view);
    RunIsLegal(run, ops, view);
    ViewSizeIs(view, ops, k);
  }

  lemma {:induction false} ViewSizeIs(view: View, ops: seq<Op>, k: nat)
    requires Legal(view, ops) && view.size < MAX32
    requires k <= |ops| && (k == 0 || ops[k - 1] == Remount) && NoRemount(ops[k..])
    ensures ApplyAll(view, ops).size == ((if k == 0 then view.size else 48) + 24 * Creates(ops[k..])) % MAX32
    decreases |ops|
  {
    if ops != [] {
      assert ops[0..] == ops;
      if k == 0 {
        assert ops[0] != Remount && forall i :: 0 <= i < |ops[1..]| ==> ops[1..][i] == ops[i + 1];
        assert ops[1..][0..] == ops[1..];
        ViewSizeIs(Apply(view, ops[0]), ops[1..], 0);
        SizeStep(view.size, Creates(ops[1..]));
      } else {
        assert ops[1..][k - 1..] == ops[k..];
        ViewSizeIs(Apply(view, ops[0]), ops[1..], k - 1);
      }
    }
  }

  lemma SizeStep(size: nat, n: nat)
    ensures (LongerBy1(size) + 24 * n) % 0x1_0000_0000 == (size + 24 * (n + 1)) % 0x1_0000_0000
  {
  }

  function Closes(ops: seq<Op>, no: nat): nat
    decreases |ops|
  {
    if ops == [] then 0 else (if ops[0] == Close(no) then 1 else 0) + Closes(ops[1..], no)
  }

  /** One close of the file takes one off its count, anything else but a boot nothing. */
  ghost predicate CountStep(a: Vol, op: Op, b: Vol, no: nat) {
    && no in a.inodes && no in b.inodes
    && (b.inodes[no].openCount + if op == Close(no) then 1 else 0) % MAX32 == a.inodes[no].openCount % MAX32
  }

  lemma OpensStep(a: Vol, op: Op, b: Vol, view: View, no: nat)
    requires Implements(a, view) && Does(a, op, b, view) && no in view.files && op != Remount
    ensures CountStep(a, op, b, no)
  {
    FileHeld(a, view, no);
    match op
    case Create(name, other) => CreatedCount(a, b, view.es, name, other, no);
    case Write(other, buf) => WrittenCount(a, b, other, view.files[other], buf, no);
    case Close(other) => ClosedCount(a, b, other, no);
  }

  lemma FileHeld(a: Vol, view: View, no: nat)
    requires Implements(a, view) && no in view.files
    ensures no in a.inodes && no != ROOT
  {
  }

  lemma CreatedCount(a: Vol, b: Vol, es: seq<Entry>, name: seq<Byte>, n: nat, no: nat)
    requires Inv(a) && ROOT in a.inodes && |name| <= 16 && Created(a, b, es, name, n) && no in a.inodes && no != ROOT
    ensures CountStep(a, Create(name, n), b, no)
  {
    CreatedIsNew(a, b, es, name, n);
  }

  lemma ClosedCount(a: Vol, b: Vol, n: nat, no: nat)
    requires n in a.inodes && no in a.inodes && b == a.(inodes := a.inodes[n := Closed(a.inodes[n])])
    ensures CountStep(a, Close(n), b, no)
  {
  }

  lemma WrittenCount(a: Vol, b: Vol, n: nat, was: seq<Byte>, buf: seq<Byte>, no: nat)
    requires Inv(a) && Written(a, b, n, was, buf) && no in a.inodes
    ensures CountStep(a, Write(n, buf), b, no)
  {
  }

  lemma {:induction false} StepAt(run: seq<Vol>, ops: seq<Op>, view: View, i: nat)
    requires IsRun(run, ops, view) && i < |ops|
    ensures Does(run[i], ops[i], run[i + 1], ApplyAll(view, ops[..i])) && IsRun(run[..i + 1], ops[..i], view)
    decreases i
  {
    if i > 0 {
      StepAt(run[1..], ops[1..], Apply(view, ops[0]), i - 1);
      assert ops[1..][..i - 1] == ops[..i][1..] && run[1..][..i] == run[..i + 1][1..];
    }
  }

  lemma CountAt(run: seq<Vol>, ops: seq<Op>, view: View, no: nat, i: nat)
    requires IsRun(run, ops, view) && Implements(run[0], view) && no in view.files && i < |ops| && ops[i] != Remount
    ensures CountStep(run[i], ops[i], run[i + 1], no)
  {
    StepAt(run, ops, view, i);
    RunsRefine(run[..i + 1], ops[..i], view);
    RunIsLegal(run[..i + 1], ops[..i], view);
    FileGrows(view, ops[..i], no);
    OpensStep(run[i], ops[i], run[i + 1], ApplyAll(view, ops[..i]), no);
  }

  lemma {:induction false} CountsAdd(run: seq<Vol>, ops: seq<Op>, no: nat)
    requires |run| == |ops| + 1 && no in run[0].inodes
    requires forall i :: 0 <= i < |ops| ==> CountStep(run[i], ops[i], run[i + 1], no)
    ensures no in run[|ops|].inodes
    ensures (run[|ops|].inodes[no].openCount + Closes(ops, no)) % MAX32 == run[0].inodes[no].openCount % MAX32
    decreases |ops|
  {
    if ops != [] {
      assert CountStep(run[0], ops[0], run[1], no);
      forall i | 0 <= i < |ops[1..]| ensures CountStep(run[1..][i], ops[1..][i], run[1..][i + 1], no) {
        assert CountStep(run[i + 1], ops[i + 1], run[i + 2], no);
      }
      CountsAdd(run[1..], ops[1..], no);
      OpensAdd(run[|ops|].inodes[no].openCount, Closes(ops[1..], no), run[1].inodes[no].openCount,
               run[0].inodes[no].openCount, if ops[0] == Close(no) then 1 else 0);
    }
  }

  /** Between two boots a file's open count, a 32-bit word, falls by one with every close and changes in no other
      way. A create that makes a file has opened it once. */
  lemma OpensBalance(run: seq<Vol>, ops: seq<Op>, view: View, no: nat)
    requires IsRun(run, ops, view) && Implements(run[0], view) && no in view.files && NoRemount(ops)
    ensures no in run[0].inodes && no in run[|ops|].inodes
    ensures (run[|ops|].inodes[no].openCount + Closes(ops, no)) % MAX32 == run[0].inodes[no].openCount % MAX32
  {
    FileHeld(run[0], view, no);
    forall i | 0 <= i < |ops| ensures CountStep(run[i], ops[i], run[i + 1], no) {
      CountAt(run, ops, view, no, i);
    }
    CountsAdd(run, ops, no);
  }

  lemma OpensAdd(end: nat, closes: nat, mid: nat, start: nat, one: nat)
    requires (end + closes) % MAX32 == mid % MAX32 && (mid + one) % MAX32 == start % MAX32
    ensures (end + (one + closes)) % MAX32 == start % MAX32
  {
    assert (end + closes + one) % MAX32 == (mid + one) % MAX32;
  }

  /** After any run every name in the directory is found. If no create met a full directory, a remount finds
      exactly the names of the first 21 entries: of a file created as a later entry the bytes are still there and
      the name is lost, so all names outlive the mount exactly when the directory fits its first block. Otherwise
      there is nothing to mount. What a create of the run made is found under its name with its bytes. */
  lemma NamesAfterRemount(run: seq<Vol>, ops: seq<Op>, view: View)
    requires IsRun(run, ops, view) && Implements(run[0], view) && view.listed && NamesOk(view) && Fresh(view, ops)
    ensures FoundNow(run[|ops|], ApplyAll(view, ops))
    ensures Remountable(run[|ops|])
    ensures if Overflows(|view.es|, ops) then NextBoot(run[|ops|]) == NoPartition
            else NextBoot(run[|ops|]).Up? && FoundLater(NextBoot(run[|ops|]).v, ApplyAll(view, ops))
    ensures forall i :: 0 <= i < |ops| && Lasts(view, ops, i) ==>
              IsFile(run[|ops|], ops[i].name, ops[i].no, Appended(ops[i + 1..], ops[i].no))
    ensures !Overflows(|view.es|, ops) ==>
              forall i :: 0 <= i < |ops| && Lasts(view, ops, i) && |ApplyAll(view, ops[..i]).es| < 21 ==>
                IsFile(NextBoot(run[|ops|]).v, ops[i].name, ops[i].no, Appended(ops[i + 1..], ops[i].no))
  {
    forall i | 0 <= i < |ops| && Lasts(view, ops, i)
      ensures IsFile(run[|ops|], ops[i].name, ops[i].no, Appended(ops[i + 1..], ops[i].no))
      ensures Inv(run[|ops|]) && Remountable(run[|ops|])
      ensures |ApplyAll(view, ops[..i]).es| < 21 && NextBoot(run[|ops|]).Up? ==>
                IsFile(NextBoot(run[|ops|]).v, ops[i].name, ops[i].no, Appended(ops[i + 1..], ops[i].no))
    {
      CreatedLasts(run, ops, view, i);
    }
    RunsRefine(run, ops, view);
    NamesStayOk(view, ops);
    BootAfterRun(run, ops, view);
    NamesFound(run[|ops|], ApplyAll(view, ops));
    if !Overflows(|view.es|, ops) { NamesOutlive(run[|ops|], NextBoot(run[|ops|]).v, ApplyAll(view, ops)); }
  }

  lemma NamesOutlive(v: Vol, w: Vol, view: View)
    requires Implements(v, view) && NamesOk(view) && NextBoot(v) == Up(w)
    ensures FoundLater(w, view)
  {
    RemountImplements(v, w, view);
    NamesLost(w, view);
  }
}
