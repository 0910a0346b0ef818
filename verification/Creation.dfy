/** fs/fs.c: file_create, and what whole runs of creates and writes make of a volume. */
module Creation {
  import opened Disk
  import opened Volume
  import opened Inodes
  import opened Growth
  import opened Files
  import opened Directory
  import opened Bitmap
  import opened SuperBlock
  import opened Descriptors

  const FT_REGULAR := 1

  /** inode_init, and the open count that file_create sets at the end. */
  function NewInode(no: nat, opens: nat): Inode {
    Inode(no, 0, opens, false, seq(13, _ => 0))
  }

  function NewEntry(name: seq<Byte>, no: nat): Entry
    requires |name| <= 16
  {
    Entry(NameField(name), no, FT_REGULAR)
  }

  /** The inode bitmap in memory has a bit for every inode in use. */
  ghost predicate InodesMarked(inodeBits: seq<bool>, inodes: map<nat, Inode>) {
    |inodeBits| == MAX_FILES && forall n :: n in inodes ==> n < MAX_FILES && inodeBits[n]
  }

  /** And so has the one on disk. A number that a failed file_create took is missing in it. */
  ghost predicate DiskMarked(v: Vol) {
    v.geo.inodeBitmapLba < |v.disk| && InodesMarked(ReadBits(v.disk, v.geo.inodeBitmapLba, 1), v.inodes)
  }

  /** Writes between the block bitmap and the data region touch no block. */
  lemma MetaWriteKeeps(v: Vol, disk': seq<Sector>)
    requires Inv(v) && |disk'| == |v.disk|
    requires forall l :: 0 <= l < |v.disk| && !(v.geo.inodeBitmapLba <= l < v.geo.dataStart) ==> disk'[l] == v.disk[l]
    ensures Inv(v.(disk := disk'))
  {
    forall m | m in v.inodes ensures Owned(disk', v.owner, m, v.inodes[m]) {
      OwnedFrame(v, disk', v.owner, m);
    }
    forall s | 0 <= s < v.geo.bitmapSects ensures disk'[v.geo.bitmapLba + s] == BitmapSector(v.bits, s) {
      assert v.disk[v.geo.bitmapLba + s] == BitmapSector(v.bits, s);
    }
  }

  /** A new inode without blocks disturbs nothing. */
  lemma NewInodeKeeps(v: Vol, no: nat)
    requires Inv(v) && no < MAX_FILES
    ensures Inv(v.(inodes := v.inodes[no := NewInode(no, 1)]))
    ensures FileIs(v.disk, NewInode(no, 1), [])
  {
    var inodes' := v.inodes[no := NewInode(no, 1)];
    forall n | n in inodes' ensures n < MAX_FILES && inodes'[n].no == n && Owned(v.disk, v.owner, n, inodes'[n]) {
    }
  }

  /** A file_create that makes a file: inode `no` is new and empty and stored in its slot, its name is the last
      entry of the directory if there was room and in the disk's first sector if not, and no other file, slot or
      block has changed. */
  ghost predicate Created(a: Vol, b: Vol, es: seq<Entry>, name: seq<Byte>, no: nat)
    requires Inv(a) && ROOT in a.inodes && |name| <= 16
  {
    exists e :: e == NewEntry(name, no) && CreatedAs(a, b, es, e, no)
  }

  ghost predicate CreatedAs(a: Vol, b: Vol, es: seq<Entry>, e: Entry, no: nat)
    requires Inv(a) && ROOT in a.inodes
  {
    && Inv(b) && 0 < no < MAX_FILES && no !in a.inodes && ROOT in b.inodes
    && b.geo == a.geo && |b.disk| == |a.disk|
    && b.inodes == a.inodes[ROOT := b.inodes[ROOT]][no := NewInode(no, 1)] && FileIs(b.disk, b.inodes[no], [])
    && EntryCreated(a, b, es, e) && BlocksKept(a, b) && TableKept(a, b, no) && DiskMarked(b)
  }

  /** The root directory and the disk's first sector after a create. */
  ghost predicate EntryCreated(a: Vol, b: Vol, es: seq<Entry>, e: Entry)
    requires ROOT in a.inodes && ROOT in b.inodes
  {
    && DirIs(b.disk, b.inodes[ROOT], WithEntry(es, e))
    && b.inodes[ROOT].size == LongerBy1(a.inodes[ROOT].size)
    && BlocksStay(a.inodes[ROOT].sectors, b.inodes[ROOT].sectors)
    && FirstSectorAfter(a.disk, b.disk, es, e)
  }

  /** Blocks stay with their owners, and those of other inodes keep their bytes. */
  ghost predicate BlocksKept(a: Vol, b: Vol)
    requires |b.disk| == |a.disk|
  {
    && (forall l :: l in a.owner ==> l in b.owner && b.owner[l] == a.owner[l])
    && (forall l :: l in a.owner && a.owner[l].ino != ROOT && l < |a.disk| ==> b.disk[l] == a.disk[l])
  }

  /** The super block stays and so does every slot of the table but the new inode's. */
  ghost predicate TableKept(a: Vol, b: Vol, no: nat)
    requires Inv(a) && |b.disk| == |a.disk|
  {
    && (forall l :: 0 < l < a.geo.bitmapLba ==> b.disk[l] == a.disk[l])
    && (forall m :: 0 <= m < MAX_FILES ==>
          SlotBytes(b.disk, a.geo.tableLba, m) == if m == no then Bytes(NewInode(no, 1))
              else SlotBytes(a.disk, a.geo.tableLba, m))
  }

  /** After the directory entry: the new inode and then the inode bitmap are stored. */
  lemma CreateDone(a: Vol, v: Vol, b: Vol, es: seq<Entry>, name: seq<Byte>, no: nat, disk2: seq<Sector>,
                   inodeBits: seq<bool>)
    requires Inv(a) && ROOT in a.inodes && DirIs(a.disk, a.inodes[ROOT], es) && |name| <= 16 && 0 < no < MAX_FILES
    requires no !in a.inodes
    requires Inserted(a, v, es, NewEntry(name, no)) && InodesMarked(inodeBits, v.inodes) && inodeBits[no]
    requires SlotWritten(v.disk, disk2, a.geo.tableLba, no, Bytes(NewInode(no, 1)))
    requires b == v.(inodes := v.inodes[no := NewInode(no, 1)],
              disk := disk2[a.geo.inodeBitmapLba := BitmapSector(inodeBits, 0)])
    ensures Created(a, b, es, name, no) && InodesMarked(inodeBits, b.inodes)
  {
    StoredNewIs(v, b, no, disk2, inodeBits);
    CreateSlots(a, v, b, no, disk2, BitmapSector(inodeBits, 0));
    CreateJoin(a, v, b, es, NewEntry(name, no), no, inodeBits);
  }

  /** b is v with the new inode in memory, and with changes between the inode bitmap and the data only. */
  ghost predicate StoredNew(v: Vol, b: Vol, no: nat, inodeBits: seq<bool>) {
    && |b.disk| == |v.disk| && b == v.(inodes := v.inodes[no := NewInode(no, 1)], disk := b.disk)
    && (forall l :: 0 <= l < |v.disk| && !(v.geo.inodeBitmapLba <= l < v.geo.dataStart) ==> b.disk[l] == v.disk[l])
    && |inodeBits| == MAX_FILES && b.geo.inodeBitmapLba < |b.disk|
    && b.disk[b.geo.inodeBitmapLba] == BitmapSector(inodeBits, 0)
  }

  lemma StoredNewIs(v: Vol, b: Vol, no: nat, disk2: seq<Sector>, inodeBits: seq<bool>)
    requires Inv(v) && no < MAX_FILES && |inodeBits| == MAX_FILES
    requires SlotWritten(v.disk, disk2, v.geo.tableLba, no, Bytes(NewInode(no, 1)))
    requires b == v.(inodes := v.inodes[no := NewInode(no, 1)],
              disk := disk2[v.geo.inodeBitmapLba := BitmapSector(inodeBits, 0)])
    ensures StoredNew(v, b, no, inodeBits)
  {
  }

  lemma CreateJoin(a: Vol, v: Vol, b: Vol, es: seq<Entry>, e: Entry, no: nat, inodeBits: seq<bool>)
    requires Inv(a) && ROOT in a.inodes && 0 < no < MAX_FILES && no !in a.inodes && Inserted(a, v, es, e)
    requires InodesMarked(inodeBits, v.inodes) && inodeBits[no]
    requires StoredNew(v, b, no, inodeBits) && TableKept(a, b, no)
    ensures CreatedAs(a, b, es, e, no) && InodesMarked(inodeBits, b.inodes)
  {
    CreateInv(v, b, no, inodeBits);
    CreateEntry(a, v, b, es, e, no, inodeBits);
    CreateOthers(a, v, b, no, inodeBits);
    CreateMarked(v, b, no, inodeBits);
  }

  lemma CreateOthers(a: Vol, v: Vol, b: Vol, no: nat, inodeBits: seq<bool>)
    requires Inv(a) && OthersKept(a, v, ROOT) && StoredNew(v, b, no, inodeBits)
    ensures BlocksKept(a, b)
  {
  }

  lemma CreateEntry(a: Vol, v: Vol, b: Vol, es: seq<Entry>, e: Entry, no: nat, inodeBits: seq<bool>)
    requires ROOT in a.inodes && Inserted(a, v, es, e) && no != ROOT && StoredNew(v, b, no, inodeBits)
    ensures EntryCreated(a, b, es, e)
  {
    CreateDir(v, b.disk, WithEntry(es, e));
  }

  lemma CreateMarked(v: Vol, b: Vol, no: nat, inodeBits: seq<bool>)
    requires InodesMarked(inodeBits, v.inodes) && no < MAX_FILES && inodeBits[no] && StoredNew(v, b, no, inodeBits)
    ensures DiskMarked(b) && InodesMarked(inodeBits, b.inodes)
  {
    InodeBits(b.disk, b.geo.inodeBitmapLba, inodeBits);
  }

  lemma CreateInv(v: Vol, b: Vol, no: nat, inodeBits: seq<bool>)
    requires Inv(v) && no < MAX_FILES && StoredNew(v, b, no, inodeBits)
    ensures Inv(b) && FileIs(b.disk, NewInode(no, 1), [])
  {
    NewInodeKeeps(v, no);
    MetaWriteKeeps(v.(inodes := b.inodes), b.disk);
  }

  lemma CreateDir(v: Vol, disk': seq<Sector>, es: seq<Entry>)
    requires Inv(v) && ROOT in v.inodes && DirIs(v.disk, v.inodes[ROOT], es) && |disk'| == |v.disk|
    requires forall l :: 0 <= l < |v.disk| && !(v.geo.inodeBitmapLba <= l < v.geo.dataStart) ==> disk'[l] == v.disk[l]
    ensures DirIs(disk', v.inodes[ROOT], es)
  {
    BeginDir(v, es);
    DirFrame(v.disk, disk', v.inodes[ROOT], es);
  }

  lemma CreateSlots(a: Vol, v: Vol, b: Vol, no: nat, disk2: seq<Sector>, sector: Sector)
    requires Inv(a) && MetaKept(a, v) && no < MAX_FILES
    requires SlotWritten(v.disk, disk2, a.geo.tableLba, no, Bytes(NewInode(no, 1)))
    requires b.disk == disk2[a.geo.inodeBitmapLba := sector]
    ensures |b.disk| == |a.disk| && TableKept(a, b, no)
  {
    forall m | 0 <= m < MAX_FILES
      ensures SlotBytes(b.disk, a.geo.tableLba, m) == if m == no then Bytes(NewInode(no, 1))
                else SlotBytes(a.disk, a.geo.tableLba, m)
    {
      SlotBytesSame(a.disk, v.disk, a.geo.tableLba, m);
      SlotBytesSame(disk2, b.disk, a.geo.tableLba, m);
      SlotsDoNotInterfere(v.disk, disk2, a.geo.tableLba, no, Bytes(NewInode(no, 1)), m);
    }
  }

  /** What search_file finds under the name. */
  ghost predicate LeadsTo(v: Vol, name: seq<Byte>, r: Lookup) {
    ROOT in v.inodes && Searchable(v.disk, v.inodes[ROOT]) && FindIn(v.disk, v.inodes[ROOT], name) == r
  }

  /** A fresh name leads to the new file from then on if the directory had room, and to nothing if it had not; what
      any other name leads to has not changed. */
  lemma CreatedIsFound(a: Vol, b: Vol, es: seq<Entry>, name: seq<Byte>, no: nat, other: seq<Byte>)
    requires Inv(a) && ROOT in a.inodes && DirIs(a.disk, a.inodes[ROOT], es) && IsName(name)
    requires Created(a, b, es, name, no) && Find(es, name) == Missing && other != []
    ensures no !in a.inodes && no in b.inodes && b.inodes[no] == Inode(no, 0, 1, false, seq(13, _ => 0))
    ensures FileIs(b.disk, b.inodes[no], [])
    ensures LeadsTo(b, name, if |es| < 252 then Known(no) else Missing)
    ensures var e := Entry(name + seq(16 - |name|, _ => 0), no, 1);
            DirIs(b.disk, b.inodes[ROOT], if |es| < 252 then es + [e] else es)
    ensures Searchable(a.disk, a.inodes[ROOT])
    ensures other != name ==> LeadsTo(b, other, FindIn(a.disk, a.inodes[ROOT], other))
  {
    var e := NewEntry(name, no);
    TextOfName(name, seq(16 - |name|, _ => 0));
    FindAfterInsert(es, e, name);
    FindAfterInsert(es, e, other);
    SearchIsFind(a.disk, a.inodes[ROOT], es, other);
    SearchIsFind(b.disk, b.inodes[ROOT], WithEntry(es, e), name);
    SearchIsFind(b.disk, b.inodes[ROOT], WithEntry(es, e), other);
  }

  lemma CreateLookup(a: Vol, b: Vol, es: seq<Entry>, name: seq<Byte>, no: nat, made: bool)
    requires Inv(a) && ROOT in a.inodes && DirIs(a.disk, a.inodes[ROOT], es) && IsName(name)
    requires made ==> Created(a, b, es, name, no)
    ensures made && Find(es, name) == Missing ==> LeadsTo(b, name, if |es| < 252 then Known(no) else Missing)
  {
    if made && Find(es, name) == Missing { CreatedIsFound(a, b, es, name, no, name); }
  }

  /** What file_create comes to: a descriptor, no descriptor although the file has been made, -1 without a file,
      or a failed assertion. */
  datatype Creating = Fd(fd: nat) | NoFd | NoFile | Panic

  /** The blocks that a sync_dir_entry allocates. */
  function BlocksForEntry(es: seq<Entry>): nat {
    if |es| % 21 == 0 then 1 else 0
  }

  /** The table of open files with the new one in it, if it got that far. */
  function FilesAfter(files: seq<Use>, no: nat, noInode: bool): seq<Use> {
    if |files| == MAX_FILE_OPEN && !noInode && FreeSlot(files) < |files| then
      files[FreeSlot(files) := On(no)]
    else files
  }

  /** The thread's first free descriptor, or none. */
  function FdFor(fds: seq<int>): Creating
    requires |fds| == MAX_FILES_OPEN_PER_PROC
  {
    if FreeFd(fds) < MAX_FILES_OPEN_PER_PROC then Fd(FreeFd(fds)) else NoFd
  }

  /** The thread's descriptors then. */
  function FdsThen(r: Creating, fds: seq<int>, slot: nat): seq<int> {
    if r.Fd? && r.fd < |fds| then fds[r.fd := slot] else fds
  }

  /** The descriptor was a free one and is now the place in the table, free before, that holds the file; the
      thread's other descriptors and the other open files are as they were. */
  ghost predicate FdLeadsTo(fds: seq<int>, fds': seq<int>, files: seq<Use>, files': seq<Use>, fd: nat, no: nat) {
    && 3 <= fd < |fds'| == |fds| == 8 && |files'| == |files| == 32
    && 3 <= fds'[fd] < 32 && fds[fd] == -1 && fds' == fds[fd := fds'[fd]]
    && files[fds'[fd]] == Unused && files' == files[fds'[fd] := On(no)]
  }

  lemma FdIs(r: Creating, fds: seq<int>, fds': seq<int>, files: seq<Use>, files': seq<Use>, no: nat, noInode: bool)
    requires |files| == MAX_FILE_OPEN && |fds| == MAX_FILES_OPEN_PER_PROC
    requires r.Fd? ==> r == FdFor(fds) && !noInode && FreeSlot(files) < MAX_FILE_OPEN
    requires r.Fd? ==> files' == FilesAfter(files, no, noInode) && fds' == FdsThen(r, fds, FreeSlot(files))
    ensures r.Fd? ==> FdLeadsTo(fds, fds', files, files', r.fd, no)
  {
  }

  /** file_create for a thread. The number comes from the inode bitmap, whose index bitmap_set cuts to 2048. -1
      without a file leaves the bit set: it is a sys_malloc that fails, for the inode or for the buffer, or a full
      table of open files. A thread without a free descriptor gets -1 after the file has been made. In both of the
      later cases the file stays in the table. */
  method FileCreate(fs: FileSystem, table: FileTable, task: Task, name: seq<Byte>, noInode: bool, noBuffer: bool,
                    ghost es: seq<Entry>)
    returns (r: Creating, ghost no: nat)
    requires Inv(fs.State()) && ROOT in fs.inodes && DirIs(fs.disk, fs.inodes[ROOT], es) && IsName(name)
    requires InodesMarked(fs.inodeBits, fs.inodes)
    requires LowestClear(fs.inodeBits) < 2048 || LowestClear(fs.inodeBits) == MAX_FILES
    requires AllocSafe(fs.bits, Limit(fs.geo), 1)
    requires |table.files| == MAX_FILE_OPEN && |task.fds| == MAX_FILES_OPEN_PER_PROC
    modifies fs`disk, fs`bits, fs`inodeBits, fs`inodes, fs`owner, table, task
    ensures no == LowestClear(old(fs.inodeBits))
    ensures r == NoFile <==>
              no < MAX_FILES && (noInode || FreeSlot(old(table.files)) == MAX_FILE_OPEN || noBuffer)
    ensures r == NoFile ==> fs.State() == old(fs.State()) && fs.inodeBits == old(fs.inodeBits)[no := true]
    ensures r != NoFile ==>
              (r == Panic <==> no == MAX_FILES || FreeBelow(old(fs.bits), Limit(fs.geo)) < BlocksForEntry(es))
    ensures r != Panic ==> table.files == FilesAfter(old(table.files), no, noInode)
    ensures r.Fd? || r == NoFd ==>
              && Created(old(fs.State()), fs.State(), es, name, no)
              && InodesMarked(fs.inodeBits, fs.inodes) && fs.inodeBits == old(fs.inodeBits)[no := true]
              && FreeBelow(fs.bits, Limit(fs.geo)) == FreeBelow(old(fs.bits), Limit(fs.geo)) - BlocksForEntry(es)
    ensures r.Fd? || r == NoFd ==> r == FdFor(old(task.fds))
    ensures task.fds == FdsThen(r, old(task.fds), FreeSlot(old(table.files)))
    ensures r.Fd? ==> FdLeadsTo(old(task.fds), task.fds, old(table.files), table.files, r.fd, no)
    ensures (r.Fd? || r == NoFd) && Find(es, name) == Missing ==>
              LeadsTo(fs.State(), name, if |es| < 252 then Known(no) else Missing)
  {
    ghost var a := fs.State();
    var n := InodeBitmapAlloc(fs);
    assert fs.State() == a;
    no := n;
    r := Panic;
    if n < MAX_FILES { r := MakeFile(fs, table, task, name, n, noInode, noBuffer, es); }
    CreateLookup(a, fs.State(), es, name, no, r.Fd? || r == NoFd);
    FdIs(r, old(task.fds), task.fds, old(table.files), table.files, no, noInode);
  }

  /** inode_bitmap_alloc: the lowest free number; the number of inodes for the failed assertion on a full map. */
  method InodeBitmapAlloc(fs: FileSystem) returns (n: nat)
    requires InodesMarked(fs.inodeBits, fs.inodes) && ROOT in fs.inodes
    requires LowestClear(fs.inodeBits) < 2048 || LowestClear(fs.inodeBits) == MAX_FILES
    modifies fs`inodeBits
    ensures n == LowestClear(old(fs.inodeBits)) && InodesMarked(fs.inodeBits, fs.inodes)
    ensures n < MAX_FILES ==> fs.inodeBits == old(fs.inodeBits)[n := true] && 0 < n && n !in fs.inodes
  {
    n := LowestClear(fs.inodeBits);
    if n < 4096 { fs.inodeBits := Bitmap.SetBit(fs.inodeBits, n, true); }
  }

  /** file_create from the inode's memory on. */
  method MakeFile(fs: FileSystem, table: FileTable, task: Task, name: seq<Byte>, no: nat, noInode: bool, noBuffer: bool,
                  ghost es: seq<Entry>)
    returns (r: Creating)
    requires Inv(fs.State()) && ROOT in fs.inodes && DirIs(fs.disk, fs.inodes[ROOT], es) && IsName(name)
    requires InodesMarked(fs.inodeBits, fs.inodes) && 0 < no < MAX_FILES && fs.inodeBits[no] && no !in fs.inodes
    requires AllocSafe(fs.bits, Limit(fs.geo), 1)
    requires |table.files| == MAX_FILE_OPEN && |task.fds| == MAX_FILES_OPEN_PER_PROC
    modifies fs`disk, fs`bits, fs`inodes, fs`owner, table, task
    ensures r == NoFile <==> noInode || FreeSlot(old(table.files)) == MAX_FILE_OPEN || noBuffer
    ensures r == NoFile ==> fs.State() == old(fs.State())
    ensures r != NoFile ==> (r == Panic <==> FreeBelow(old(fs.bits), Limit(fs.geo)) < BlocksForEntry(es))
    ensures table.files == FilesAfter(old(table.files), no, noInode)
    ensures r.Fd? || r == NoFd ==>
              && Created(old(fs.State()), fs.State(), es, name, no)
              && InodesMarked(fs.inodeBits, fs.inodes)
              && FreeBelow(fs.bits, Limit(fs.geo)) == FreeBelow(old(fs.bits), Limit(fs.geo)) - BlocksForEntry(es)
    ensures r.Fd? || r == NoFd ==> r == FdFor(old(task.fds))
    ensures task.fds == FdsThen(r, old(task.fds), FreeSlot(old(table.files)))
  {
    ghost var a := fs.State();
    var slot := EnterFile(table, no, noInode);
    assert fs.State() == a;
    r := NoFile;
    if slot < MAX_FILE_OPEN && !noBuffer {
      var stopped := StoreFile(fs, name, no, es);
      r := Panic;
      if !stopped {
        ghost var b := fs.State();
        r := Install(task, slot);
        assert fs.State() == b;
      }
    }
  }

  /** The inode's memory and its place in the table of open files; the table's length for a failure. */
  method EnterFile(table: FileTable, no: nat, noInode: bool) returns (slot: nat)
    requires |table.files| == MAX_FILE_OPEN
    modifies table
    ensures slot == if noInode then MAX_FILE_OPEN else FreeSlot(old(table.files))
    ensures table.files == FilesAfter(old(table.files), no, noInode)
  {
    slot := MAX_FILE_OPEN;
    if !noInode {
      slot := table.GetFreeSlot();
      if slot < MAX_FILE_OPEN { table.files := table.files[slot := On(no)]; }
    }
  }

  /** What pcb_fd_install returns is what file_create does. */
  method Install(task: Task, slot: nat) returns (r: Creating)
    requires |task.fds| == MAX_FILES_OPEN_PER_PROC
    modifies task
    ensures r == FdFor(old(task.fds)) && task.fds == FdsThen(r, old(task.fds), slot)
  {
    var fd := task.FdInstall(slot);
    r := if fd < MAX_FILES_OPEN_PER_PROC then Fd(fd) else NoFd;
  }

  /** The three structures on disk: the directory entry, the inode, the inode bitmap. */
  method StoreFile(fs: FileSystem, name: seq<Byte>, no: nat, ghost es: seq<Entry>) returns (stopped: bool)
    requires Inv(fs.State()) && ROOT in fs.inodes && DirIs(fs.disk, fs.inodes[ROOT], es) && IsName(name)
    requires InodesMarked(fs.inodeBits, fs.inodes) && 0 < no < MAX_FILES && fs.inodeBits[no] && no !in fs.inodes
    requires AllocSafe(fs.bits, Limit(fs.geo), 1)
    modifies fs`disk, fs`bits, fs`inodes, fs`owner
    ensures stopped <==> FreeBelow(old(fs.bits), Limit(fs.geo)) < BlocksForEntry(es)
    ensures !stopped ==> Created(old(fs.State()), fs.State(), es, name, no) && InodesMarked(fs.inodeBits, fs.inodes)
    ensures !stopped ==>
              FreeBelow(fs.bits, Limit(fs.geo)) == FreeBelow(old(fs.bits), Limit(fs.geo)) - BlocksForEntry(es)
  {
    ghost var a := fs.State();
    stopped := SyncDirEntry(fs, NewEntry(name, no), es);
    if !stopped { StoreNewInode(fs, no, a, es, name); }
  }

  /** The inode and then the inode bitmap go to the disk; the inode is open once. */
  method SyncNew(fs: FileSystem, no: nat) returns (ghost disk2: seq<Sector>)
    requires Inv(fs.State()) && no < |fs.inodeBits| == MAX_FILES
    modifies fs`disk, fs`inodes
    ensures fs.inodes == old(fs.inodes)[no := NewInode(no, 1)]
    ensures SlotWritten(old(fs.disk), disk2, fs.geo.tableLba, no, Bytes(NewInode(no, 1)))
    ensures fs.disk == disk2[fs.geo.inodeBitmapLba := BitmapSector(fs.inodeBits, 0)]
  {
    fs.inodes := fs.inodes[no := NewInode(no, 0)];
    fs.InodeSync(no);
    disk2 := fs.disk;
    fs.InodeBitmapSync(no);
    fs.inodes := fs.inodes[no := fs.inodes[no].(openCount := 1)];
  }

  method StoreNewInode(fs: FileSystem, no: nat, ghost a: Vol, ghost es: seq<Entry>, ghost name: seq<Byte>)
    requires Inv(a) && ROOT in a.inodes && DirIs(a.disk, a.inodes[ROOT], es) && |name| <= 16 && 0 < no < MAX_FILES
    requires no !in a.inodes && Inserted(a, fs.State(), es, NewEntry(name, no))
    requires InodesMarked(fs.inodeBits, fs.inodes) && fs.inodeBits[no]
    modifies fs`disk, fs`inodes
    ensures Created(a, fs.State(), es, name, no) && InodesMarked(fs.inodeBits, fs.inodes)
  {
    ghost var v := fs.State();
    ghost var disk2 := SyncNew(fs, no);
    CreateDone(a, v, fs.State(), es, name, no, disk2, fs.inodeBits);
  }

  // ---------------------------------------------------------------- file_close

  /** inode_close: the count, a 32-bit word, falls by one. At 0 the inode leaves the memory, and an inode_open
      finds its slot. */
  function Closed(inode: Inode): Inode {
    inode.(openCount := (inode.openCount + MAX32 - 1) % MAX32, writeDeny := false)
  }

  /** file_close of an open file: its place in the table is free, its inode may be written. */
  method FileClose(fs: FileSystem, table: FileTable, idx: nat)
    requires idx < |table.files| && table.files[idx].On? && table.files[idx].ino in fs.inodes
    modifies fs`inodes, table
    ensures table.files == old(table.files)[idx := Unused]
    ensures var no := old(table.files)[idx].ino;
            && fs.inodes == old(fs.inodes)[no := Closed(old(fs.inodes)[no])] && !fs.inodes[no].writeDeny
            && fs.inodes[no].size == old(fs.inodes)[no].size && fs.inodes[no].sectors == old(fs.inodes)[no].sectors
  {
    var no := table.files[idx].ino;
    fs.inodes := fs.inodes[no := Closed(fs.inodes[no])];
    table.files := table.files[idx := Unused];
  }
}
