/** Runs from a new partition to the places where the file system's limits fail. */
module Scenarios {
  import opened Bitmap
  import opened Disk
  import opened Volume
  import opened Growth
  import opened Partitions
  import opened SuperBlock
  import opened Descriptors
  import opened Files
  import opened Directory
  import opened Creation
  import opened Runs
  import opened Format

  // ---------------------------------------------------------------- one more operation

  lemma {:induction false} RunMore(run: seq<Vol>, ops: seq<Op>, view: View, op: Op, b: Vol)
    requires IsRun(run, ops, view) && Does(run[|ops|], op, b, ApplyAll(view, ops))
    ensures IsRun(run + [b], ops + [op], view)
    decreases |ops|
  {
    if ops != [] {
      RunMore(run[1..], ops[1..], Apply(view, ops[0]), op, b);
      assert (run + [b])[1..] == run[1..] + [b] && (ops + [op])[1..] == ops[1..] + [op];
    }
  }

  lemma {:induction false} ApplyMore(view: View, ops: seq<Op>, op: Op)
    ensures ApplyAll(view, ops + [op]) == Apply(ApplyAll(view, ops), op)
    decreases |ops|
  {
    if ops != [] {
      ApplyMore(Apply(view, ops[0]), ops[1..], op);
      assert (ops + [op])[1..] == ops[1..] + [op];
    }
  }

  lemma {:induction false} FreshMore(view: View, ops: seq<Op>, op: Op)
    requires Fresh(view, ops) && (op.Create? ==> IsName(op.name) && Find(ApplyAll(view, ops).es, op.name) == Missing)
    ensures Fresh(view, ops + [op])
    decreases |ops|
  {
    if ops != [] {
      FreshMore(Apply(view, ops[0]), ops[1..], op);
      assert (ops + [op])[1..] == ops[1..] + [op];
    }
  }

  // ---------------------------------------------------------------- the full directory

  /** The name of the i-th file. */
  function Name(i: nat): (name: seq<Byte>)
    requires i < 256
    ensures IsName(name)
  {
    [1 + i / 16, 1 + i % 16]
  }

  /** i files have been created. */
  ghost predicate Named(es: seq<Entry>, i: nat) {
    && i <= 256 && |es| == 2 + i && es[0] == DotEntries()[0] && es[1] == DotEntries()[1]
    && forall k :: 0 <= k < i ==> es[2 + k].field == NameField(Name(k))
  }

  lemma NotNamed(es: seq<Entry>, n: nat, i: nat)
    requires Named(es, n) && n <= i < 256
    ensures Find(es, Name(i)) == Missing
  {
    forall j | 0 <= j < |es| ensures Text(es[j].field) != Name(i) {
      if j >= 2 {
        var k: nat := j - 2;
        TextOfName(Name(k), seq(14, _ => 0));
        assert es[2 + k].field == NameField(Name(k));
      } else {
        TextOfName([46], seq(15, _ => 0));
        TextOfName([46, 46], seq(14, _ => 0));
      }
    }
    FindAt(es, Name(i), |es|);
  }

  /** The inode bitmap when the numbers below n are taken. */
  ghost predicate TakenBelow(inodeBits: seq<bool>, n: nat) {
    n <= |inodeBits| == MAX_FILES && forall i :: 0 <= i < MAX_FILES ==> (inodeBits[i] <==> i < n)
  }

  /** Some run of i creates, each followed by a close, leads from first to v. */
  ghost predicate Reached(i: nat, first: Vol, v: Vol, inodeBits: seq<bool>) {
    exists run, ops :: Leads(i, first, v, inodeBits, run, ops)
  }

  /** The run, the entries, of which the first 252 have a place, and what is left of the maps. */
  ghost predicate Leads(i: nat, first: Vol, v: Vol, inodeBits: seq<bool>, run: seq<Vol>, ops: seq<Op>) {
    && IsHistory(2 * i, first, v, run, ops) && IsSeries(i, ops) && Limit(v.geo) <= |v.bits|
    && Counted(i, v, inodeBits, ApplyAll(FIRST_VIEW, ops).es)
  }

  ghost predicate IsHistory(n: nat, first: Vol, v: Vol, run: seq<Vol>, ops: seq<Op>) {
    |ops| == n && IsRun(run, ops, FIRST_VIEW) && Fresh(FIRST_VIEW, ops) && run[0] == first && run[n] == v
  }

  /** i creates, the last of them that of the i-th file. */
  ghost predicate IsSeries(i: nat, ops: seq<Op>) {
    i <= 251 && |ops| == 2 * i && Creates(ops) == i && NoRemount(ops) && (i > 0 ==> ops[2 * i - 2] == NthCreate(i - 1))
  }

  ghost predicate Counted(i: nat, v: Vol, inodeBits: seq<bool>, es: seq<Entry>)
    requires Limit(v.geo) <= |v.bits|
  {
    && i <= 251 && Named(es, Placed(i)) && InodesMarked(inodeBits, v.inodes) && TakenBelow(inodeBits, 1 + i)
    && FreeBelow(v.bits, Limit(v.geo)) == Limit(v.geo) - (i + 22) / 21
  }

  function Placed(i: nat): nat {
    if i < 250 then i else 250
  }

  lemma ReachedFirst(v: Vol, inodeBits: seq<bool>)
    requires IsEmpty(v, inodeBits)
    ensures Reached(0, v, v, inodeBits)
  {
    assert Leads(0, v, v, inodeBits, [v], []);
  }

  function NthCreate(i: nat): Op
    requires i < 256
  {
    Create(Name(i), 1 + i)
  }

  lemma {:induction false} CreatesMore(ops: seq<Op>, op: Op)
    ensures Creates(ops + [op]) == Creates(ops) + if op.Create? then 1 else 0
  {
    if ops != [] {
      CreatesMore(ops[1..], op);
      assert (ops + [op])[1..] == ops[1..] + [op];
    }
  }

  lemma HistoryMore(n: nat, first: Vol, v: Vol, b: Vol, run: seq<Vol>, ops: seq<Op>, op: Op)
    requires IsHistory(n, first, v, run, ops) && Does(v, op, b, ApplyAll(FIRST_VIEW, ops))
    requires op.Create? ==> IsName(op.name) && Find(ApplyAll(FIRST_VIEW, ops).es, op.name) == Missing
    ensures IsHistory(n + 1, first, b, run + [b], ops + [op])
    ensures ApplyAll(FIRST_VIEW, ops + [op]) == Apply(ApplyAll(FIRST_VIEW, ops), op)
  {
    RunMore(run, ops, FIRST_VIEW, op, b);
    ApplyMore(FIRST_VIEW, ops, op);
    FreshMore(FIRST_VIEW, ops, op);
  }

  /** A create and the close of its file. */
  lemma HistoryOfTwo(n: nat, i: nat, first: Vol, v: Vol, m: Vol, b: Vol, run: seq<Vol>, ops: seq<Op>, view: View)
    requires i < 256 && IsHistory(n, first, v, run, ops) && view == ApplyAll(FIRST_VIEW, ops)
    requires Implements(v, view) && Created(v, m, view.es, Name(i), 1 + i) && Find(view.es, Name(i)) == Missing
    requires b == m.(inodes := m.inodes[1 + i := Closed(m.inodes[1 + i])])
    ensures IsHistory(n + 2, first, b, run + [m] + [b], ops + [NthCreate(i)] + [Close(1 + i)])
    ensures ApplyAll(FIRST_VIEW, ops + [NthCreate(i)] + [Close(1 + i)]) == Apply(view, NthCreate(i))
  {
    HistoryMore(n, first, v, m, run, ops, NthCreate(i));
    HistoryMore(n + 1, first, m, b, run + [m], ops + [NthCreate(i)], Close(1 + i));
  }

  lemma SeriesMore(i: nat, ops: seq<Op>)
    requires i < 251 && IsSeries(i, ops)
    ensures IsSeries(i + 1, ops + [NthCreate(i)] + [Close(1 + i)])
  {
    CreatesMore(ops, NthCreate(i));
    CreatesMore(ops + [NthCreate(i)], Close(1 + i));
  }

  lemma CountedMore(i: nat, v: Vol, b: Vol, inodeBits: seq<bool>, es: seq<Entry>)
    requires i < 251 && Limit(v.geo) <= |v.bits| && Counted(i, v, inodeBits, es) && b.geo == v.geo
    requires Limit(b.geo) <= |b.bits|
    requires InodesMarked(inodeBits[1 + i := true], b.inodes)
    requires FreeBelow(b.bits, Limit(b.geo)) == FreeBelow(v.bits, Limit(v.geo)) - BlocksForEntry(es)
    ensures Counted(i + 1, b, inodeBits[1 + i := true], WithEntry(es, NewEntry(Name(i), 1 + i)))
  {
    MoreBlocks(i);
  }

  lemma MoreBlocks(i: nat)
    requires i < 251
    ensures (i + 23) / 21 == (i + 22) / 21 + if (2 + Placed(i)) % 21 == 0 then 1 else 0
    ensures (i + 22) / 21 <= 12
  {
  }

  /** The thread's descriptors after i creates that all used the first place of the table of open files. */
  function FdsAfter(i: nat): (fds: seq<int>)
    ensures |fds| == MAX_FILES_OPEN_PER_PROC
  {
    seq(MAX_FILES_OPEN_PER_PROC, j => if j < 3 then j else if j < 3 + i then 3 else -1)
  }

  lemma FreeFdAfter(i: nat)
    ensures FreeFd(FdsAfter(i)) == if i < 5 then 3 + i else 8
    ensures i < 5 ==> FdsAfter(i)[3 + i := 3] == FdsAfter(i + 1)
    ensures i >= 5 ==> FdsAfter(i) == FdsAfter(i + 1)
  {
    PlaceIs(FdsAfter(i), -1, FIRST_FD, if i < 5 then 3 + i else 8);
  }

  lemma FirstSlotFree()
    ensures FreeSlot(NewFiles()) == 3
  {
  }

  /** What the i-th of the creates returns: the thread's five descriptors, and then -1. */
  function Returned(i: nat): Creating {
    if i < 5 then Fd(3 + i) else NoFd
  }

  ghost predicate AllReturned(rs: seq<Creating>, n: nat) {
    |rs| == n && forall i :: 0 <= i < n ==> rs[i] == Returned(i)
  }

  /** One file more. */
  method CreateOne(fs: FileSystem, table: FileTable, task: Task, i: nat, ghost es: seq<Entry>) returns (r: Creating)
    requires i < 251 && Inv(fs.State()) && ROOT in fs.inodes && DirIs(fs.disk, fs.inodes[ROOT], es)
    requires InodesMarked(fs.inodeBits, fs.inodes) && LowestClear(fs.inodeBits) == 1 + i
    requires FreeBelow(fs.bits, Limit(fs.geo)) >= 1
    requires table.files == NewFiles() && task.fds == FdsAfter(i)
    modifies fs, table, task
    ensures r == Returned(i) && table.files == NewFiles()[3 := On(1 + i)] && task.fds == FdsAfter(i + 1)
    ensures Created(old(fs.State()), fs.State(), es, Name(i), 1 + i) && 1 + i in fs.inodes
    ensures fs.inodeBits == old(fs.inodeBits)[1 + i := true] && InodesMarked(fs.inodeBits, fs.inodes)
    ensures FreeBelow(fs.bits, Limit(fs.geo)) == FreeBelow(old(fs.bits), Limit(fs.geo)) - BlocksForEntry(es)
  {
    FirstSlotFree();
    FreeFdAfter(i);
    ghost var no;
    r, no := FileCreate(fs, table, task, Name(i), false, false, es);
  }

  /** Its close. */
  method CloseOne(fs: FileSystem, table: FileTable, no: nat)
    requires InodesMarked(fs.inodeBits, fs.inodes) && no in fs.inodes && table.files == NewFiles()[3 := On(no)]
    modifies fs`inodes, table
    ensures fs.inodes == old(fs.inodes)[no := Closed(old(fs.inodes)[no])] && InodesMarked(fs.inodeBits, fs.inodes)
    ensures table.files == NewFiles()
  {
    FileClose(fs, table, 3);
    assert NewFiles()[3 := On(no)][3 := Unused] == NewFiles();
  }

  /** One file more, and its close. */
  method CreateAndClose(fs: FileSystem, table: FileTable, task: Task, i: nat, ghost es: seq<Entry>)
    returns (r: Creating, ghost m: Vol)
    requires i < 251 && Inv(fs.State()) && ROOT in fs.inodes && DirIs(fs.disk, fs.inodes[ROOT], es)
    requires InodesMarked(fs.inodeBits, fs.inodes) && LowestClear(fs.inodeBits) == 1 + i
    requires FreeBelow(fs.bits, Limit(fs.geo)) >= 1
    requires table.files == NewFiles() && task.fds == FdsAfter(i)
    modifies fs, table, task
    ensures r == Returned(i) && table.files == NewFiles() && task.fds == FdsAfter(i + 1)
    ensures Created(old(fs.State()), m, es, Name(i), 1 + i)
    ensures fs.State() == m.(inodes := m.inodes[1 + i := Closed(m.inodes[1 + i])])
    ensures fs.inodeBits == old(fs.inodeBits)[1 + i := true] && InodesMarked(fs.inodeBits, fs.inodes)
    ensures FreeBelow(fs.bits, Limit(fs.geo)) == FreeBelow(old(fs.bits), Limit(fs.geo)) - BlocksForEntry(es)
  {
    r := CreateOne(fs, table, task, i, es);
    m := fs.State();
    CloseOne(fs, table, 1 + i);
  }

  lemma LeadsNext(i: nat, first: Vol, v: Vol, m: Vol, b: Vol, inodeBits: seq<bool>, run: seq<Vol>, ops: seq<Op>,
                  view: View)
    requires i < 251 && Leads(i, first, v, inodeBits, run, ops) && view == ApplyAll(FIRST_VIEW, ops)
    requires Implements(v, view)
    requires Created(v, m, view.es, Name(i), 1 + i) && b == m.(inodes := m.inodes[1 + i := Closed(m.inodes[1 + i])])
    requires InodesMarked(inodeBits[1 + i := true], b.inodes)
    requires FreeBelow(b.bits, Limit(b.geo)) == FreeBelow(v.bits, Limit(v.geo)) - BlocksForEntry(view.es)
    ensures Reached(i + 1, first, b, inodeBits[1 + i := true])
  {
    var run', ops' := run + [m] + [b], ops + [NthCreate(i)] + [Close(1 + i)];
    NotNamed(view.es, Placed(i), i);
    HistoryOfTwo(2 * i, i, first, v, m, b, run, ops, view);
    SeriesMore(i, ops);
    CountedNext(i, v, m, b, inodeBits, view.es);
    LeadsJoin(i + 1, first, b, inodeBits[1 + i := true], run', ops', Apply(view, NthCreate(i)).es);
  }

  lemma CountedNext(i: nat, v: Vol, m: Vol, b: Vol, inodeBits: seq<bool>, es: seq<Entry>)
    requires i < 251 && Inv(v) && ROOT in v.inodes && Counted(i, v, inodeBits, es)
    requires Created(v, m, es, Name(i), 1 + i) && b == m.(inodes := b.inodes)
    requires InodesMarked(inodeBits[1 + i := true], b.inodes)
    requires FreeBelow(b.bits, Limit(b.geo)) == FreeBelow(v.bits, Limit(v.geo)) - BlocksForEntry(es)
    ensures Limit(b.geo) <= |b.bits|
    ensures Counted(i + 1, b, inodeBits[1 + i := true], WithEntry(es, NewEntry(Name(i), 1 + i)))
  {
    CountedMore(i, v, b, inodeBits, es);
  }

  lemma LeadsJoin(i: nat, first: Vol, v: Vol, inodeBits: seq<bool>, run: seq<Vol>, ops: seq<Op>, es: seq<Entry>)
    requires IsHistory(2 * i, first, v, run, ops) && IsSeries(i, ops) && Limit(v.geo) <= |v.bits|
    requires Counted(i, v, inodeBits, es) && es == ApplyAll(FIRST_VIEW, ops).es
    ensures Reached(i, first, v, inodeBits)
  {
    assert Leads(i, first, v, inodeBits, run, ops);
  }

  /** Creating one file more and closing it. */
  method CreateNext(fs: FileSystem, table: FileTable, task: Task, i: nat, ghost first: Vol) returns (r: Creating)
    requires i < 251 && Implements(first, FIRST_VIEW) && Limit(first.geo) >= 13
    requires Reached(i, first, fs.State(), fs.inodeBits)
    requires table.files == NewFiles() && task.fds == FdsAfter(i)
    modifies fs, table, task
    ensures r == Returned(i) && table.files == NewFiles() && task.fds == FdsAfter(i + 1)
    ensures Reached(i + 1, first, fs.State(), fs.inodeBits)
  {
    ghost var v, inodeBits := fs.State(), fs.inodeBits;
    ghost var run, ops :| Leads(i, first, v, inodeBits, run, ops);
    ghost var view := ApplyAll(FIRST_VIEW, ops);
    CanCreate(i, first, v, inodeBits, run, ops);
    ghost var m;
    r, m := CreateAndClose(fs, table, task, i, view.es);
    LeadsNext(i, first, v, m, fs.State(), inodeBits, run, ops, view);
  }

  lemma CanCreate(i: nat, first: Vol, v: Vol, inodeBits: seq<bool>, run: seq<Vol>, ops: seq<Op>)
    requires i < 251 && Implements(first, FIRST_VIEW) && Limit(first.geo) >= 13
    requires Leads(i, first, v, inodeBits, run, ops)
    ensures Implements(v, ApplyAll(FIRST_VIEW, ops)) && InodesMarked(inodeBits, v.inodes)
    ensures LowestClear(inodeBits) == 1 + i && FreeBelow(v.bits, Limit(v.geo)) >= 1
  {
    RunsRefine(run, ops, FIRST_VIEW);
    LowestClearUnique(inodeBits, 1 + i);
    MoreBlocks(i);
  }

  /** search_file finds nothing under the last name, and the next boot no partition. */
  lemma LastLost(first: Vol, v: Vol, inodeBits: seq<bool>, run: seq<Vol>, ops: seq<Op>)
    requires Implements(first, FIRST_VIEW) && Leads(251, first, v, inodeBits, run, ops)
    ensures Implements(v, ApplyAll(FIRST_VIEW, ops)) && !ApplyAll(FIRST_VIEW, ops).listed
    ensures Searchable(v.disk, v.inodes[ROOT]) && FindIn(v.disk, v.inodes[ROOT], Name(250)) == Missing
  {
    RunsRefine(run, ops, FIRST_VIEW);
    RunIsLegal(run, ops, FIRST_VIEW);
    ListedAfter(FIRST_VIEW, ops);
    OverflowsIff(2, ops);
    var es := ApplyAll(FIRST_VIEW, ops).es;
    NotNamed(es, 250, 250);
    SearchIsFind(v.disk, v.inodes[ROOT], es, Name(250));
  }

  /** A disk with an hdb1 that is not formatted and has room for so many blocks. */
  ghost predicate NewDisk(disk: seq<Sector>, blocks: nat) {
    && |disk| > 0 && Lists(disk[0])
    && var part := Hdb1(disk[0]);
       && part.start + 1 < |disk| && !KeepsFormat(disk, part) && Formattable(part, |disk|)
       && LayoutOf(part.start, part.secCnt).blocks >= blocks
  }

  /** A new partition and a thread that creates 251 files, closing each. All are made. The thread has descriptors
      for five of them; 250 fill the directory; the name of the last is not found, and its entry has taken the
      place of the disk's partition table, so that the next boot finds nothing to mount. */
  method FullDirectory(disk: seq<Sector>, pad: seq<Byte>)
    returns (rs: seq<Creating>, found: Lookup, mounted: bool, ghost run: seq<Vol>, ghost ops: seq<Op>)
    requires NewDisk(disk, 13) && |pad| == 460
    ensures AllReturned(rs, 251)
    ensures |ops| == 502 && IsRun(run, ops, FIRST_VIEW) && Fresh(FIRST_VIEW, ops) && Implements(run[0], FIRST_VIEW)
    ensures Creates(ops) == 251 && |ApplyAll(FIRST_VIEW, ops).es| == ROOM
    ensures ops[500] == Create(Name(250), 251) && found == Missing && !mounted
  {
    var fs := NewPartition(disk, pad, 13);
    ghost var first := fs.State();
    rs := CreateMany(fs, first);
    run, ops :| Leads(251, first, fs.State(), fs.inodeBits, run, ops);
    LastLost(first, fs.State(), fs.inodeBits, run, ops);
    found := SearchFile(fs, Name(250));
    var again := BootAgain(fs, pad, ApplyAll(FIRST_VIEW, ops));
    mounted := again != null;
  }

  method CreateMany(fs: FileSystem, ghost first: Vol) returns (rs: seq<Creating>)
    requires first == fs.State() && IsEmpty(first, fs.inodeBits) && Limit(first.geo) >= 13
    modifies fs
    ensures Reached(251, first, fs.State(), fs.inodeBits) && AllReturned(rs, 251)
  {
    rs := [];
    ReachedFirst(first, fs.inodeBits);
    var table := new FileTable();
    var task := new Task();
    assert NewFds() == FdsAfter(0);
    var i := 0;
    while i < 251
      invariant i <= 251 && Reached(i, first, fs.State(), fs.inodeBits) && AllReturned(rs, i)
      invariant table.files == NewFiles() && task.fds == FdsAfter(i)
    {
      var r := CreateNext(fs, table, task, i, first);
      rs := rs + [r];
      i := i + 1;
    }
  }

  /** The boot from a disk with a new partition. */
  method NewPartition(disk: seq<Sector>, pad: seq<Byte>, ghost blocks: nat) returns (fs: FileSystem)
    requires NewDisk(disk, blocks) && blocks >= 8 && |pad| == 460
    ensures fresh(fs) && fs.geo.blocks >= blocks && IsEmpty(fs.State(), fs.inodeBits)
  {
    ghost var part := Hdb1(disk[0]);
    ghost var bits;
    var mounted;
    LayoutTiles(part.start, part.secCnt);
    mounted, bits := FilesysInit(disk, pad, {}, map[LayoutOf(part.start, part.secCnt).dataStart := Slot(ROOT, 0)]);
    fs := mounted;
    ghost var v := fs.State();
    NewIsEmpty(disk, part, v, bits, fs.inodeBits, blocks);
  }

  lemma NewIsEmpty(disk: seq<Sector>, part: Partition, v: Vol, bits: seq<bool>, inodeBits: seq<bool>, blocks: nat)
    requires NewDisk(disk, blocks) && blocks >= 8 && part == Hdb1(disk[0])
    requires Prepared(disk, part, v.disk, bits) && Mountable(v.disk, part.start)
    requires v == Mounted(v.disk, part.start, {}, map[LayoutOf(part.start, part.secCnt).dataStart := Slot(ROOT, 0)])
    requires inodeBits == ReadBits(v.disk, v.geo.inodeBitmapLba, Word(v.disk[part.start + 1], 7))
    ensures v.geo.blocks >= blocks && IsEmpty(v, inodeBits)
  {
    FormattedIsEmpty(v, inodeBits, v.disk, part.start, part.secCnt, bits);
  }

  // ---------------------------------------------------------------- the last blocks of a file

  /** An empty file, number 1, and `free` blocks. */
  ghost predicate OneFile(v: Vol, free: nat) {
    && Inv(v) && 1 in v.inodes && FileIs(v.disk, v.inodes[1], []) && v.inodes[1] == NewInode(1, 1)
    && FreeBelow(v.bits, Limit(v.geo)) == free
  }

  method NewFile(disk: seq<Sector>, pad: seq<Byte>) returns (fs: FileSystem)
    requires NewDisk(disk, 143) && |pad| == 460
    ensures fresh(fs) && Limit(fs.geo) >= 143 && OneFile(fs.State(), Limit(fs.geo) - 1)
  {
    fs := NewPartition(disk, pad, 143);
    FirstFile(fs);
  }

  method FirstFile(fs: FileSystem)
    requires IsEmpty(fs.State(), fs.inodeBits) && Limit(fs.geo) >= 143
    modifies fs
    ensures OneFile(fs.State(), Limit(fs.geo) - 1)
  {
    var table := new FileTable();
    var task := new Task();
    FirstSlotFree();
    assert NewFds() == FdsAfter(0);
    FreeFdAfter(0);
    ghost var no;
    var r;
    r, no := FileCreate(fs, table, task, Name(0), false, false, DotEntries());
  }

  /** A new partition, one file, and 71168 bytes written to it: reading them back stops at a failed assertion, as
      block 139 does not count as readable, and so does writing the 512 bytes that the size check lets through. */
  method FileLimits(disk: seq<Sector>, pad: seq<Byte>) returns (written: Outcome, read: Outcome, more: Outcome)
    requires NewDisk(disk, 143) && |pad| == 460
    ensures written == Count(71168) && read == Halted && more == Halted
  {
    var fs := NewFile(disk, pad);
    var file := new OpenFile(1);
    var again := new OpenFile(1);
    var buf: seq<Byte> := seq(71168, _ => 7);
    written := WriteMost(fs, file, buf);
    var back;
    read, back := fs.FileRead(again, 71168, false, buf);
    more := WriteLast(fs, file, buf);
  }

  method WriteMost(fs: FileSystem, file: OpenFile, buf: seq<Byte>) returns (r: Outcome)
    requires file.ino == 1 && |buf| == 71168 && Limit(fs.geo) >= 143 && OneFile(fs.State(), Limit(fs.geo) - 1)
    modifies fs, file`pos
    ensures r == Count(71168) && Inv(fs.State()) && 1 in fs.inodes && FileIs(fs.disk, fs.inodes[1], buf)
    ensures FreeBelow(fs.bits, Limit(fs.geo)) >= 1
  {
    r := fs.FileWrite(file, buf, false, []);
    assert [] + buf == buf;
  }

  method WriteLast(fs: FileSystem, file: OpenFile, was: seq<Byte>) returns (r: Outcome)
    requires Inv(fs.State()) && file.ino == 1 && 1 in fs.inodes && FileIs(fs.disk, fs.inodes[1], was) && |was| == 71168
    requires FreeBelow(fs.bits, Limit(fs.geo)) >= 1
    modifies fs, file`pos
    ensures r == Halted
  {
    r := fs.FileWrite(file, seq(512, _ => 7), false, was);
  }

  // ---------------------------------------------------------------- reading after writing

  /** file_write leaves the position on the last byte, not behind it: after a write of at least one byte any read
      through the same struct file returns just that byte, or stops if it ends in block 139. */
  method WriteThenRead(fs: FileSystem, file: OpenFile, buf: seq<Byte>, count: nat, ghost was: seq<Byte>)
    returns (w: Outcome, r: Outcome, back: seq<Byte>)
    requires Inv(fs.State()) && file.ino in fs.inodes && FileIs(fs.disk, fs.inodes[file.ino], was)
    requires 0 < |buf| < MAX32 - MAX_BYTES && 0 < count < MAX32 - MAX_BYTES
    requires AllocSafe(fs.bits, Limit(fs.geo), Needed(fs.inodes[file.ino], |buf|))
    modifies fs`disk, fs`bits, fs`inodes, fs`owner, file`pos
    ensures w.Count? ==> r == if |was| + |buf| >= 71168 then Halted else Count(1)
    ensures w.Count? && |was| + |buf| < 71168 ==> back == [buf[|buf| - 1]] && file.pos == |was| + |buf|
  {
    w := fs.FileWrite(file, buf, false, was);
    r, back := w, [];
    if w.Count? { r, back := ReadLast(fs, file, count, was + buf); }
  }

  method ReadLast(fs: FileSystem, file: OpenFile, count: nat, ghost data: seq<Byte>)
    returns (r: Outcome, back: seq<Byte>)
    requires file.ino in fs.inodes && FileIs(fs.disk, fs.inodes[file.ino], data)
    requires 0 < |data| && file.pos == |data| - 1 && 0 < count < MAX32 - MAX_BYTES
    modifies file`pos
    ensures r == if |data| >= 71168 then Halted else Count(1)
    ensures |data| < 71168 ==> back == [data[|data| - 1]] && file.pos == |data|
  {
    r, back := fs.FileRead(file, count, false, data);
  }

  /** Through another struct file, opened then, a read of as many bytes returns the whole file. */
  method WriteThenReopen(fs: FileSystem, file: OpenFile, buf: seq<Byte>, ghost was: seq<Byte>)
    returns (w: Outcome, r: Outcome, back: seq<Byte>)
    requires Inv(fs.State()) && file.ino in fs.inodes && FileIs(fs.disk, fs.inodes[file.ino], was)
    requires |buf| < MAX32 - MAX_BYTES && |was| + |buf| < 71168
    requires AllocSafe(fs.bits, Limit(fs.geo), Needed(fs.inodes[file.ino], |buf|))
    modifies fs`disk, fs`bits, fs`inodes, fs`owner, file`pos
    ensures w.Count? ==> r == Count(|was| + |buf|) && back == was + buf
  {
    w := fs.FileWrite(file, buf, false, was);
    r, back := w, [];
    if w.Count? {
      var again := new OpenFile(file.ino);
      var size := fs.inodes[file.ino].size;
      r, back := fs.FileRead(again, size, false, was + buf);
    }
  }
}
