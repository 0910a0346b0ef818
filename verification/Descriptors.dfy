/** fs/file.c: the table of open files and the descriptors of a thread. */
module Descriptors {

  const MAX_FILE_OPEN := 32
  const MAX_FILES_OPEN_PER_PROC := 8
  const FIRST_FD := 3

  /** fd_inode of a struct file: NULL, or the inode it is open on. */
  datatype Use = Unused | On(ino: nat)

  /** The first place from k on that holds `free`, or the end. */
  function FirstPlace<T(==)>(s: seq<T>, free: T, k: nat): (i: nat)
    requires k <= |s|
    ensures k <= i <= |s| && (i < |s| ==> s[i] == free) && forall j :: k <= j < i ==> s[j] != free
    decreases |s| - k
  {
    if k == |s| || s[k] == free then k else FirstPlace(s, free, k + 1)
  }

  /** How many places from k on hold `free`. */
  function FreePlaces<T(==)>(s: seq<T>, free: T, k: nat): (n: nat)
    requires k <= |s|
    ensures n <= |s| - k
    decreases |s| - k
  {
    if k == |s| then 0 else (if s[k] == free then 1 else 0) + FreePlaces(s, free, k + 1)
  }

  lemma {:induction false} SomeFree<T>(s: seq<T>, free: T, k: nat)
    requires k <= |s|
    ensures FirstPlace(s, free, k) < |s| <==> FreePlaces(s, free, k) > 0
    decreases |s| - k
  {
    if k < |s| { SomeFree(s, free, k + 1); }
  }

  lemma {:induction false} PlaceIs<T>(s: seq<T>, free: T, k: nat, i: nat)
    requires k <= i <= |s| && (i < |s| ==> s[i] == free) && forall j :: k <= j < i ==> s[j] != free
    ensures FirstPlace(s, free, k) == i
    decreases i - k
  {
    if k < i { PlaceIs(s, free, k + 1, i); }
  }

  lemma {:induction false} OnePlace<T>(s: seq<T>, free: T, k: nat, i: nat, x: T)
    requires k <= |s| && i < |s|
    ensures FreePlaces(s[i := x], free, k) ==
            FreePlaces(s, free, k) + if i < k || (s[i] == free) == (x == free) then 0 else if x == free then 1 else -1
    decreases |s| - k
  {
    if k < |s| { OnePlace(s, free, k + 1, i, x); }
  }

  /** The table after an attempt to find a place for each of xs. */
  function FilledWith<T(==)>(s: seq<T>, free: T, k: nat, xs: seq<T>): (r: seq<T>)
    requires k <= |s|
    ensures |r| == |s|
    decreases |xs|
  {
    if xs == [] then s
    else
      var i := FirstPlace(s, free, k);
      FilledWith(if i < |s| then s[i := xs[0]] else s, free, k, xs[1..])
  }

  /** If nothing is given back, exactly as many attempts succeed as there are free places. */
  lemma {:induction false} FillsUp<T>(s: seq<T>, free: T, k: nat, xs: seq<T>)
    requires k <= |s| && forall j :: 0 <= j < |xs| ==> xs[j] != free
    ensures FirstPlace(FilledWith(s, free, k, xs), free, k) < |s| <==> |xs| < FreePlaces(s, free, k)
    decreases |xs|
  {
    SomeFree(s, free, k);
    if xs != [] {
      var i := FirstPlace(s, free, k);
      var s' := if i < |s| then s[i := xs[0]] else s;
      if i < |s| { OnePlace(s, free, k, i, xs[0]); }
      assert forall j :: 0 <= j < |xs[1..]| ==> xs[1..][j] == xs[j + 1];
      FillsUp(s', free, k, xs[1..]);
    }
  }

  /** The first free place of the table of open files, behind those for the standard streams. */
  function FreeSlot(files: seq<Use>): nat
    requires |files| >= FIRST_FD
  {
    FirstPlace(files, Unused, FIRST_FD)
  }

  /** The first free descriptor of a thread. */
  function FreeFd(fds: seq<int>): nat
    requires |fds| >= FIRST_FD
  {
    FirstPlace(fds, -1, FIRST_FD)
  }

  function NewFiles(): (s: seq<Use>)
    ensures |s| == MAX_FILE_OPEN
  {
    seq(MAX_FILE_OPEN, _ => Unused)
  }

  function NewFds(): (s: seq<int>)
    ensures |s| == MAX_FILES_OPEN_PER_PROC
  {
    seq(MAX_FILES_OPEN_PER_PROC, i => if i < FIRST_FD then i else -1)
  }

  lemma {:induction false} AllFree<T>(s: seq<T>, free: T, k: nat)
    requires k <= |s| && forall i :: k <= i < |s| ==> s[i] == free
    ensures FreePlaces(s, free, k) == |s| - k
    decreases |s| - k
  {
    if k < |s| { AllFree(s, free, k + 1); }
  }

  /** 29 files can be open in the system: without a file_close the next one finds a place exactly after fewer. */
  lemma FileLimit(inos: seq<Use>)
    requires forall j :: 0 <= j < |inos| ==> inos[j] != Unused
    ensures FreeSlot(FilledWith(NewFiles(), Unused, FIRST_FD, inos)) < MAX_FILE_OPEN <==> |inos| < 29
  {
    AllFree(NewFiles(), Unused, FIRST_FD);
    FillsUp(NewFiles(), Unused, FIRST_FD, inos);
  }

  /** A thread gets five descriptors in its life: nothing ever gives one back. */
  lemma FdLimit(files: seq<int>)
    requires forall j :: 0 <= j < |files| ==> files[j] >= 0
    ensures FreeFd(FilledWith(NewFds(), -1, FIRST_FD, files)) < MAX_FILES_OPEN_PER_PROC <==> |files| < 5
  {
    AllFree(NewFds(), -1, FIRST_FD);
    FillsUp(NewFds(), -1, FIRST_FD, files);
  }

  // ---------------------------------------------------------------- opens and closes

  datatype FileOp = Take(ino: nat) | Release(i: nat)

  /** Opens that find a place and closes of open files. */
  ghost predicate Possible(s: seq<Use>, ops: seq<FileOp>)
    requires |s| == MAX_FILE_OPEN
    decreases |ops|
  {
    ops != [] ==>
      && (match ops[0]
          case Take(_) => FreeSlot(s) < |s|
          case Release(i) => FIRST_FD <= i < |s| && s[i] != Unused)
      && Possible(AfterOp(s, ops[0]), ops[1..])
  }

  function AfterOp(s: seq<Use>, op: FileOp): (r: seq<Use>)
    requires |s| == MAX_FILE_OPEN
    ensures |r| == |s|
  {
    match op
    case Take(ino) => if FreeSlot(s) < |s| then s[FreeSlot(s) := On(ino)] else s
    case Release(i) => if i < |s| then s[i := Unused] else s
  }

  function AfterOps(s: seq<Use>, ops: seq<FileOp>): (r: seq<Use>)
    requires |s| == MAX_FILE_OPEN
    ensures |r| == |s|
    decreases |ops|
  {
    if ops == [] then s else AfterOps(AfterOp(s, ops[0]), ops[1..])
  }

  /** Opens less closes. */
  function Balance(ops: seq<FileOp>): int {
    if ops == [] then 0 else (if ops[0].Take? then 1 else -1) + Balance(ops[1..])
  }

  /** Over any run the free places are those at the start less the opens and plus the closes. */
  lemma {:induction false} PlacesBalance(s: seq<Use>, ops: seq<FileOp>)
    requires |s| == MAX_FILE_OPEN && Possible(s, ops)
    ensures FreePlaces(AfterOps(s, ops), Unused, FIRST_FD) == FreePlaces(s, Unused, FIRST_FD) - Balance(ops)
    decreases |ops|
  {
    if ops != [] {
      match ops[0] {
        case Take(ino) => OnePlace(s, Unused, FIRST_FD, FreeSlot(s), On(ino));
        case Release(i) => OnePlace(s, Unused, FIRST_FD, i, Unused);
      }
      PlacesBalance(AfterOp(s, ops[0]), ops[1..]);
    }
  }

  // ---------------------------------------------------------------- the code

  /** file_table after filesys_init. */
  class FileTable {
    var files: seq<Use>

    constructor ()
      ensures files == NewFiles()
    {
      files := NewFiles();
    }

    /** get_free_slot_in_global; the length of the table for -1. */
    method GetFreeSlot() returns (idx: nat)
      requires |files| == MAX_FILE_OPEN
      ensures idx == FreeSlot(files)
    {
      idx := 3;
      while idx < MAX_FILE_OPEN
        invariant 3 <= idx <= MAX_FILE_OPEN && FirstPlace(files, Unused, idx) == FreeSlot(files)
      {
        if files[idx] == Unused { return; }
        idx := idx + 1;
      }
    }
  }

  /** A thread's fd_table after init_thread. */
  class Task {
    var fds: seq<int>

    constructor ()
      ensures fds == NewFds()
    {
      fds := NewFds();
    }

    /** pcb_fd_install; the length of the table for -1. */
    method FdInstall(slot: nat) returns (fd: nat)
      requires |fds| == MAX_FILES_OPEN_PER_PROC
      modifies this
      ensures fd == FreeFd(old(fds))
      ensures fds == if fd < MAX_FILES_OPEN_PER_PROC then old(fds)[fd := slot] else old(fds)
    {
      fd := 3;
      while fd < MAX_FILES_OPEN_PER_PROC
        invariant 3 <= fd <= MAX_FILES_OPEN_PER_PROC && fds == old(fds)
        invariant FirstPlace(fds, -1, fd) == FreeFd(fds)
      {
        if fds[fd] == -1 {
          fds := fds[fd := slot];
          return;
        }
        fd := fd + 1;
      }
    }
  }
}
