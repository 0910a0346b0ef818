/** The calls of lock_acquire, lock_release, ide_read and ide_write as an observer of the machine sees them: begun by
    an event, completed by an arrival, the disk's commands counted from the channel's state. */
module ThreadsHistory {
  import opened Threads
  import opened ThreadsInv
  import opened ThreadsStep
  import opened ThreadsRun

  /** The call that a thread is in. `Opening` and `Transferring` are the two parts of ide_read and ide_write with n
      commands to give, before and after the channel's lock is theirs. */
  datatype Doing =
    | Nothing
    | Acquiring(k: nat)
    | Releasing(k: nat)
    | Opening(c: nat, n: nat)
    | Transferring(c: nat, n: nat)

  /** The calls that a thread has completed, lock by lock, and the commands of its latest transfer. */
  datatype Record = Record(doing: Doing, acquired: multiset<nat>, released: multiset<nat>,
                           announced: nat, sent: nat, awaited: nat)

  const BLANK := Record(Nothing, multiset{}, multiset{}, 0, 0, 0)

  // ---------------------------------------------------------------- the observer

  /** What a thread outside the kernel begins. */
  ghost function Begin(r: Record, call: Call, locks: Locks): Record {
    match call
    case Acquire(k) => if k in locks then r.(doing := Acquiring(k)) else r
    case Release(k) => if k in locks then r.(doing := Releasing(k)) else r
    case Io(c, n) => if IsChannel(locks, c) then Record(Opening(c, n), r.acquired, r.released, 0, 0, 0) else r
    case Start(_, _) => r
  }

  /** expecting_intr was set in this step. */
  ghost predicate Announces(a: Locks, b: Locks, c: nat) {
    IsChannel(a, c) && IsChannel(b, c) && !a[c].channel.value.expecting && b[c].channel.value.expecting
  }

  /** A completion was taken from disk_done in this step. */
  ghost predicate Awaits(a: Locks, b: Locks, c: nat) {
    IsChannel(a, c) && IsChannel(b, c) && a[c].channel.value.done.value == 1 && b[c].channel.value.done.value == 0
  }

  /** A step of the transferring thread: p and q are where it stood and stands. The command is sent by the statement
      at CmdOut. */
  ghost function Command(r: Record, a: Locks, b: Locks, c: nat, p: Pc, q: Pc): Record {
    r.(announced := r.announced + if Announces(a, b, c) then 1 else 0,
       sent := r.sent + if p == AtIo(CmdOut, c) && q != p then 1 else 0,
       awaited := r.awaited + if Awaits(a, b, c) then 1 else 0)
  }

  /** Arrival at q: outside the kernel code, at the loop of a transfer, or at its end. */
  ghost function Arrive(r: Record, q: Pc): Record {
    match r.doing
    case Nothing => r
    case Acquiring(k) => if q == Outside then r.(doing := Nothing, acquired := r.acquired + multiset{k}) else r
    case Releasing(k) => if q == Outside then r.(doing := Nothing, released := r.released + multiset{k}) else r
    case Opening(c, n) =>
      if q == AtIo(IoLoop, c) then r.(doing := Transferring(c, n), acquired := r.acquired + multiset{c})
      else if q == Outside then r.(doing := Nothing)
      else r
    case Transferring(c, n) =>
      if q == AtLock(ReleaseEntry, c) then r.(doing := Releasing(c))
      else if q == Outside then r.(doing := Nothing)
      else r
  }

  /** One step of the thread itself. */
  ghost function Observe(r: Record, a: Locks, p: Pc, call: Call, b: Locks, q: Pc): Record {
    var r1 := if p == Outside then Begin(r, call, a) else r;
    var r2 := if r1.doing.Transferring? then Command(r1, a, b, r1.doing.c, p, q) else r1;
    Arrive(r2, q)
  }

  /** The thread's record before step i of the run. */
  ghost function RecordOf(states: seq<Kernel>, events: seq<Event>, i: nat, t: Tid): Record
    requires i < |states| && i <= |events|
  {
    if i == 0 then BLANK
    else
      var a, b := states[i - 1], states[i];
      var r := RecordOf(states, events, i - 1, t);
      if events[i - 1].Go? && a.cur == t && t in a.tasks && t in b.tasks then
        Observe(r, a.locks, a.tasks[t].pc, events[i - 1].call, b.locks, b.tasks[t].pc)
      else r
  }

  // ---------------------------------------------------------------- how a step moves the threads

  ghost predicate Stands(x: Task, y: Task) {
    y.pc == x.pc && y.io == x.io && y.held == x.held
  }

  /** Threads other than t stand where they stood; a new one is outside. */
  ghost predicate OthersStand(a: Tasks, b: Tasks, t: Tid) {
    && (forall u :: u in a ==> u in b)
    && (forall u :: u in a && u != t ==> Stands(a[u], b[u]))
    && (forall u :: u in b && u !in a ==> b[u].pc == Outside && b[u].io == None && b[u].held == map[])
  }

  ghost predicate AllStand(a: Tasks, b: Tasks) {
    && (forall u :: u in a <==> u in b)
    && (forall u :: u in a ==> Stands(a[u], b[u]))
  }

  lemma ScheduleStands(st: Kernel)
    requires QueueIn(st)
    ensures AllStand(st.tasks, Schedule(st).tasks) && Schedule(st).locks == st.locks
  {
    var task := st.tasks[st.cur];
    if !(task.status == Running && st.cur in st.ready) {
      var st1 := if task.status == Running
                 then SetTask(st, st.cur, task.(ticks := task.priority, status := Ready)).(ready := st.ready + [st.cur])
                 else st;
      OneStands(st.tasks, st.cur, task.(ticks := task.priority, status := Ready));
      var st2 := if st1.ready == [] then Unblock(st1, st.idle) else st1;
      UnblockStands(st1, st.idle);
      if st2.panic.None? {
        var next := st2.ready[0];
        assert next in st2.ready && next in st2.tasks;
        OneStands(st2.tasks, next, st2.tasks[next].(status := Running));
      }
    }
  }

  lemma OneStands(tasks: Tasks, t: Tid, task: Task)
    requires t in tasks && Stands(tasks[t], task)
    ensures AllStand(tasks, tasks[t := task]) && AllStand(tasks, tasks)
  {
  }

  lemma UnblockStands(st: Kernel, t: Tid)
    requires t in st.tasks
    ensures AllStand(st.tasks, Unblock(st, t).tasks) && Unblock(st, t).locks == st.locks
  {
  }

  lemma UpStands(st: Kernel, s: SemId)
    requires HasSem(st.locks, s) && forall t :: t in SemAt(st.locks, s).waiters ==> t in st.tasks
    ensures AllStand(st.tasks, Up(st, s).tasks)
  {
    var sem := SemAt(st.locks, s);
    if sem.value == 0 && sem.waiters != [] {
      assert sem.waiters[0] in sem.waiters;
      UnblockStands(st.(locks := SetSem(st.locks, s, Sem(1, sem.waiters[1..]))), sem.waiters[0]);
    }
  }

  /** Interrupts and thread_yield move no thread. */
  lemma InterruptStands(a: Kernel, ev: Event)
    requires Inv(a) && Enabled(a, ev) && !ev.Go?
    ensures AllStand(a.tasks, Step(a, ev).tasks)
  {
    match ev
    case Tick => ScheduleStands(a);
    case Disk(c) =>
      if IsChannel(a.locks, c) && a.locks[c].channel.value.expecting {
        assert WaitersExist(a.locks[c], a.tasks);
        UpStands(a.(locks := SetExpecting(a.locks, c, false)), DoneSem(c));
      }
    case GiveUp => YieldStands(a);
  }

  lemma YieldStands(a: Kernel)
    requires Inv(a)
    ensures AllStand(a.tasks, Yield(a).tasks)
  {
    QueueStands(a);
  }

  lemma QueueStands(a: Kernel)
    requires QueueIn(a)
    ensures AllStand(a.tasks, Yield(a).tasks)
  {
    if a.cur !in a.ready { ScheduleStands(SetStatus(a, a.cur, Ready).(ready := a.ready + [a.cur])); }
  }

  /** Where the current thread stands after its own step, and what it has noted. */
  ghost function Next(a: Kernel, call: Call): Task
    requires Shape(a)
  {
    var t := a.cur;
    var task := a.tasks[t];
    match task.pc
    case Outside =>
      (match call
       case Acquire(k) => if k in a.locks then task.(pc := AtLock(AcquireEntry, k)) else task
       case Release(k) => if k in a.locks then task.(pc := AtLock(ReleaseEntry, k)) else task
       case Io(c, n) => if IsChannel(a.locks, c) then task.(pc := AtLock(AcquireEntry, c), io := Some(n)) else task
       case Start(_, _) => task)
    case IdleLoop => task
    case DownEntry(s) => AfterPass(a.locks, s, task)
    case DownRetry(s) => AfterPass(a.locks, s, task)
    case AtLock(stage, k) =>
      assert TaskOk(a.locks, task);
      LockStatement(stage, k, t, a.locks[k], task).task
    case AtIo(step, c) =>
      assert TaskOk(a.locks, task);
      IoStatement(step, c, a.locks[c].channel.value.expecting, task).task
  }

  ghost function AfterPass(locks: Locks, s: SemId, task: Task): Task {
    if HasSem(locks, s) && SemAt(locks, s).value > 0 then task.(pc := AfterDown(s)) else task.(pc := DownRetry(s))
  }

  ghost predicate Moves(a: Kernel, call: Call, b: Kernel)
    requires Shape(a)
  {
    a.cur in b.tasks && Stands(Next(a, call), b.tasks[a.cur]) && OthersStand(a.tasks, b.tasks, a.cur)
  }

  lemma SleepMoves(a: Kernel, s: SemId)
    requires Inv(a) && AtDown(a, s) && HasSem(a.locks, s)
    ensures QueueIn(Queued(a, s))
    ensures var b := Block(Queued(a, s));
            && a.cur in b.tasks && Stands(a.tasks[a.cur].(pc := DownRetry(s)), b.tasks[a.cur])
            && OthersStand(a.tasks, b.tasks, a.cur) && b.locks == Queued(a, s).locks
  {
    QueuedIs(a, s);
    QueuedSched(a, s);
    var q := SetStatus(Queued(a, s), a.cur, Blocked);
    ScheduleStands(q);
    OneMoved(a.tasks, q.tasks, Schedule(q).tasks, a.cur);
  }

  /** A change of one thread, and then none. */
  lemma OneMoved(a: Tasks, m: Tasks, b: Tasks, t: Tid)
    requires t in a && t in m && m == a[t := m[t]] && AllStand(m, b)
    ensures t in b && Stands(m[t], b[t]) && OthersStand(a, b, t)
  {
  }

  lemma TakeMoves(a: Kernel, s: SemId)
    requires AtDown(a, s) && HasSem(a.locks, s)
    ensures var b := Taken(a, s);
            && a.cur in b.tasks && Stands(a.tasks[a.cur].(pc := AfterDown(s)), b.tasks[a.cur])
            && OthersStand(a.tasks, b.tasks, a.cur)
  {
  }

  lemma DownMoves(a: Kernel, call: Call, s: SemId)
    requires Inv(a) && Shape(a) && AtDown(a, s)
    ensures Moves(a, call, DownPass(a, s))
  {
    assert TaskOk(a.locks, a.tasks[a.cur]);
    DownPassIs(a, s);
    if SemAt(a.locks, s).value == 0 { SleepMoves(a, s); } else { TakeMoves(a, s); }
  }

  lemma IdleMoves(a: Kernel, call: Call)
    requires Inv(a) && Shape(a) && a.tasks[a.cur].pc == IdleLoop
    ensures Moves(a, call, Block(a))
  {
    var b := SetStatus(a, a.cur, Blocked);
    BlockingFrame(a.tasks, a.ready, a.cur, b.tasks[a.cur]);
    TasksFrame(a.locks, a.tasks, b.tasks);
    forall k | k in a.locks ensures WaitersAt(a.locks[k], b.tasks, k) {
      assert WaitersAt(a.locks[k], a.tasks, k);
    }
    assert BlockedOk(b.tasks, b.idle, b.locks);
    ScheduleStands(b);
  }

  lemma LockMoves(a: Kernel, call: Call, stage: LockStage, k: nat)
    requires Inv(a) && Shape(a) && a.tasks[a.cur].pc == AtLock(stage, k) && !BadRelease(a)
    ensures Moves(a, call, Act(a, call))
  {
    assert TaskOk(a.locks, a.tasks[a.cur]);
    if stage == UpEntry { LeaveMoves(a, call, k); } else { StatementMoves(a, call, stage, k); }
  }

  lemma StatementMoves(a: Kernel, call: Call, stage: LockStage, k: nat)
    requires Inv(a) && Shape(a) && k in a.locks && a.tasks[a.cur].pc == AtLock(stage, k) && stage != UpEntry
    requires !BadRelease(a)
    ensures Moves(a, call, Act(a, call))
  {
    var e := LockStatement(stage, k, a.cur, a.locks[k], a.tasks[a.cur]);
    GoodStatement(a, stage, k, e);
    AtLockIs(a, call, stage, k, e);
  }

  lemma GoodStatement(a: Kernel, stage: LockStage, k: nat, e: LockEffect)
    requires Inv(a) && k in a.locks && a.tasks[a.cur].pc == AtLock(stage, k) && stage != UpEntry && !BadRelease(a)
    requires e == LockStatement(stage, k, a.cur, a.locks[k], a.tasks[a.cur])
    ensures e.failed.None?
  {
    AtLockFacts(a, k);
    LockStatementMoves(stage, k, a.cur, a.locks[k], a.tasks[a.cur]);
  }

  lemma LeaveMoves(a: Kernel, call: Call, k: nat)
    requires Shape(a) && k in a.locks && a.tasks[a.cur].pc == AtLock(UpEntry, k)
    ensures Moves(a, call, Act(a, call))
  {
    assert WaitersExist(a.locks[k], a.tasks);
    var task := a.tasks[a.cur].(pc := Outside);
    UpStands(a.(tasks := a.tasks[a.cur := task], locks := a.locks[k := a.locks[k].(owner := None)]), LockSem(k));
  }

  lemma IoMoves(a: Kernel, call: Call, step: IoStage, c: nat)
    requires Inv(a) && Shape(a) && a.tasks[a.cur].pc == AtIo(step, c)
    ensures Moves(a, call, Act(a, call))
  {
    assert TaskOk(a.locks, a.tasks[a.cur]);
    AtIoIs(a, call, step, c, IoStatement(step, c, a.locks[c].channel.value.expecting, a.tasks[a.cur]));
  }

  lemma OutsideMoves(a: Kernel, call: Call)
    requires Shape(a) && a.tasks[a.cur].pc == Outside
    ensures Moves(a, call, Act(a, call))
  {
    match call
    case Acquire(k) => EnterMoves(a, Next(a, call));
    case Release(k) => EnterMoves(a, Next(a, call));
    case Io(c, n) => EnterMoves(a, Next(a, call));
    case Start(t, p) => StartMoves(a, t, p);
  }

  lemma EnterMoves(a: Kernel, task: Task)
    requires a.cur in a.tasks
    ensures OthersStand(a.tasks, a.tasks[a.cur := task], a.cur) && OthersStand(a.tasks, a.tasks, a.cur)
  {
  }

  lemma StartMoves(a: Kernel, t: Tid, p: nat)
    requires Shape(a) && a.tasks[a.cur].pc == Outside
    ensures Moves(a, Start(t, p), Act(a, Start(t, p)))
  {
  }

  lemma ActMoves(a: Kernel, call: Call)
    requires Inv(a) && Shape(a) && !BadRelease(a)
    ensures Moves(a, call, Act(a, call))
  {
    match a.tasks[a.cur].pc
    case Outside => OutsideMoves(a, call);
    case IdleLoop => IdleMoves(a, call);
    case DownEntry(s) => DownMoves(a, call, s);
    case DownRetry(s) => DownMoves(a, call, s);
    case AtLock(stage, k) => LockMoves(a, call, stage, k);
    case AtIo(step, c) => IoMoves(a, call, step, c);
  }

  // ---------------------------------------------------------------- records and positions agree

  ghost predicate IsAcquire(stage: LockStage) {
    stage in {AcquireEntry, SetHolder, SetRepeat, IncRepeat}
  }

  /** The call that a thread is in, as its position shows it. */
  ghost predicate DoingAgrees(r: Record, task: Task) {
    match task.pc
    case Outside => r.doing == Nothing && task.io == None
    case IdleLoop => r.doing == Nothing && task.io == None
    case AtLock(stage, k) =>
      if IsAcquire(stage) then Enters(r, task.io, k) else r.doing == Releasing(k) && task.io == None
    case DownEntry(s) => if s.LockSem? then Enters(r, task.io, s.k) else Counts(r, task.io, s.c, 1, 1)
    case DownRetry(s) => if s.LockSem? then Enters(r, task.io, s.k) else Counts(r, task.io, s.c, 1, 1)
    case AtIo(step, c) =>
      match step
      case IoLoop => Counts(r, task.io, c, 0, 0)
      case CmdFlag => Counts(r, task.io, c, 0, 0) && task.io.value > 0
      case CmdOut => Counts(r, task.io, c, 1, 0) && task.io.value > 0
      case Issued => Counts(r, task.io, c, 1, 1) && task.io.value > 0
      case Awaited =>
        && task.io.Some? && task.io.value > 0
        && Counts(r, Some(task.io.value - 1), c, 0, 0)
  }

  ghost predicate Enters(r: Record, io: Option<nat>, k: nat) {
    match io
    case None => r.doing == Acquiring(k)
    case Some(n) => r.doing == Opening(k, n) && r.announced == r.sent == r.awaited == 0
  }

  /** `io` commands are left of the n, and this much of one is under way. */
  ghost predicate Counts(r: Record, io: Option<nat>, c: nat, announced: nat, sent: nat) {
    && io.Some? && r.doing.Transferring? && r.doing.c == c && io.value + r.awaited == r.doing.n
    && r.announced == r.awaited + announced && r.sent == r.awaited + sent && (announced > 0 ==> io.value > 0)
  }

  /** Between lock_release's first statement on the outermost level and its end. */
  ghost predicate Leaving(pc: Pc, k: nat) {
    pc.AtLock? && pc.k == k && pc.stage in {ClearHolder, ZeroRepeat, UpEntry}
  }

  /** Completed acquires less completed releases. */
  ghost function Depth(r: Record, k: nat): int {
    var acquired: int, released: int := r.acquired[k], r.released[k];
    acquired - released
  }

  ghost predicate DepthIs(r: Record, task: Task, k: nat) {
    Depth(r, k) == Held(task, k) + if Leaving(task.pc, k) then 1 else 0
  }

  ghost predicate DepthAgrees(r: Record, task: Task) {
    forall k: nat :: DepthIs(r, task, k)
  }

  ghost predicate Agrees(r: Record, task: Task) {
    DoingAgrees(r, task) && DepthAgrees(r, task)
  }

  // ---------------------------------------------------------------- one step of the thread

  /** A statement of ide_read or ide_write announces at CmdFlag only and awaits nothing. */
  lemma IoChannel(a: Kernel, call: Call, step: IoStage, c: nat)
    requires Inv(a) && Shape(a) && IsChannel(a.locks, c) && a.tasks[a.cur].pc == AtIo(step, c)
    ensures Announces(a.locks, Act(a, call).locks, c) <==> step == CmdFlag
    ensures !Awaits(a.locks, Act(a, call).locks, c)
  {
    AtLockFacts(a, c);
    HandshakeOf(a.locks[c], a.tasks, a.cur, c);
    AtIoIs(a, call, step, c, IoStatement(step, c, a.locks[c].channel.value.expecting, a.tasks[a.cur]));
  }

  /** A pass of sema_down on disk_done announces nothing and awaits a completion exactly when it gets through. */
  lemma DoneChannel(a: Kernel, c: nat)
    requires Inv(a) && Shape(a) && IsChannel(a.locks, c) && AtDown(a, DoneSem(c))
    ensures var b := DownPass(a, DoneSem(c));
            && !Announces(a.locks, b.locks, c)
            && (Awaits(a.locks, b.locks, c) <==> a.locks[c].channel.value.done.value > 0)
  {
    DownPassIs(a, DoneSem(c));
    if SemAt(a.locks, DoneSem(c)).value == 0 { SleepMoves(a, DoneSem(c)); }
  }

  lemma DepthFrame(r: Record, x: Task, r': Record, y: Task)
    requires DepthAgrees(r, x) && r'.acquired == r.acquired && r'.released == r.released && y.held == x.held
    requires forall k: nat :: Leaving(x.pc, k) <==> Leaving(y.pc, k)
    ensures DepthAgrees(r', y)
  {
    forall k: nat ensures DepthIs(r', y, k) {
      assert DepthIs(r, x, k);
    }
  }

  lemma AgreesOutside(r: Record, a: Kernel, call: Call, b: Kernel, r': Record)
    requires Shape(a) && a.tasks[a.cur].pc == Outside && Agrees(r, a.tasks[a.cur]) && Moves(a, call, b)
    requires r' == Observe(r, a.locks, Outside, call, b.locks, b.tasks[a.cur].pc)
    ensures Agrees(r', b.tasks[a.cur])
  {
    DepthFrame(r, a.tasks[a.cur], r', b.tasks[a.cur]);
  }

  /** A statement of lock_acquire or lock_release. */
  lemma AgreesAtLock(r: Record, l: Lock, t: Tid, task: Task, stage: LockStage, k: nat, task': Task,
                     a: Locks, call: Call, b: Locks)
    requires task.pc == AtLock(stage, k) && Agrees(r, task)
    requires if l.owner == Some(t) then OwnerOk(l, t, task, k)
             else l.holder != Some(t) && Held(task, k) == 0 && !NeedsOwner(task.pc, k)
    requires !(stage == ReleaseEntry && Held(task, k) == 0)
    requires Stands(LockStatement(stage, k, t, l, task).task, task')
    ensures Agrees(Observe(r, a, task.pc, call, b, task'.pc), task')
  {
    forall j: nat ensures DepthIs(Observe(r, a, task.pc, call, b, task'.pc), task', j) {
      DepthAtLock(r, l, t, task, stage, k, task', a, call, b, j);
    }
  }

  lemma DepthAtLock(r: Record, l: Lock, t: Tid, task: Task, stage: LockStage, k: nat, task': Task,
                    a: Locks, call: Call, b: Locks, j: nat)
    requires task.pc == AtLock(stage, k) && Agrees(r, task)
    requires if l.owner == Some(t) then OwnerOk(l, t, task, k)
             else l.holder != Some(t) && Held(task, k) == 0 && !NeedsOwner(task.pc, k)
    requires !(stage == ReleaseEntry && Held(task, k) == 0)
    requires Stands(LockStatement(stage, k, t, l, task).task, task')
    ensures DepthIs(Observe(r, a, task.pc, call, b, task'.pc), task', j)
  {
    assert DepthIs(r, task, j);
    assert Held(task', j) == Held(LockStatement(stage, k, t, l, task).task, j);
  }

  lemma AgreesAtDown(r: Record, task: Task, k: nat, task': Task, a: Locks, call: Call, b: Locks)
    requires task.pc in {DownEntry(LockSem(k)), DownRetry(LockSem(k))} && Agrees(r, task)
    requires task'.pc in {AtLock(SetHolder, k), DownRetry(LockSem(k))} && task'.io == task.io && task'.held == task.held
    ensures Agrees(Observe(r, a, task.pc, call, b, task'.pc), task')
  {
    DepthFrame(r, task, Observe(r, a, task.pc, call, b, task'.pc), task');
  }

  lemma AgreesAtIo(r: Record, e: bool, task: Task, step: IoStage, c: nat, task': Task, a: Locks, call: Call, b: Locks)
    requires task.pc == AtIo(step, c) && Agrees(r, task)
    requires Stands(IoStatement(step, c, e, task).task, task')
    requires (Announces(a, b, c) <==> step == CmdFlag) && !Awaits(a, b, c)
    ensures Agrees(Observe(r, a, task.pc, call, b, task'.pc), task')
  {
    DepthFrame(r, task, Observe(r, a, task.pc, call, b, task'.pc), task');
  }

  lemma AgreesAtDone(r: Record, task: Task, c: nat, task': Task, a: Locks, call: Call, b: Locks)
    requires task.pc in {DownEntry(DoneSem(c)), DownRetry(DoneSem(c))} && Agrees(r, task)
    requires task'.pc in {AtIo(Awaited, c), DownRetry(DoneSem(c))} && task'.io == task.io && task'.held == task.held
    requires !Announces(a, b, c) && (Awaits(a, b, c) <==> task'.pc == AtIo(Awaited, c))
    ensures Agrees(Observe(r, a, task.pc, call, b, task'.pc), task')
  {
    DepthFrame(r, task, Observe(r, a, task.pc, call, b, task'.pc), task');
  }

  /** The record agrees with the position after every step of the thread. */
  lemma AgreesAfter(r: Record, a: Kernel, call: Call, b: Kernel)
    requires Inv(a) && Shape(a) && !BadRelease(a) && b == Act(a, call) && Agrees(r, a.tasks[a.cur])
    ensures Moves(a, call, b)
    ensures Agrees(Observe(r, a.locks, a.tasks[a.cur].pc, call, b.locks, b.tasks[a.cur].pc), b.tasks[a.cur])
  {
    var t := a.cur;
    ActMoves(a, call);
    assert TaskOk(a.locks, a.tasks[t]);
    match a.tasks[t].pc
    case Outside =>
      AgreesOutside(r, a, call, b, Observe(r, a.locks, Outside, call, b.locks, b.tasks[t].pc));
    case IdleLoop => DepthFrame(r, a.tasks[t], r, b.tasks[t]);
    case DownEntry(s) => AgreesAfterPass(r, a, call, b, s);
    case DownRetry(s) => AgreesAfterPass(r, a, call, b, s);
    case AtLock(stage, k) =>
      AtLockFacts(a, k);
      AgreesAtLock(r, a.locks[k], t, a.tasks[t], stage, k, b.tasks[t], a.locks, call, b.locks);
    case AtIo(step, c) =>
      IoChannel(a, call, step, c);
      AgreesAtIo(r, a.locks[c].channel.value.expecting, a.tasks[t], step, c, b.tasks[t], a.locks, call, b.locks);
  }

  lemma PassMoves(a: Kernel, call: Call, b: Kernel, s: SemId)
    requires Shape(a) && AtDown(a, s) && HasSem(a.locks, s) && Moves(a, call, b)
    ensures var x, y := a.tasks[a.cur], b.tasks[a.cur];
            && y.pc == (if SemAt(a.locks, s).value > 0 then AfterDown(s) else DownRetry(s))
            && y.io == x.io && y.held == x.held && x.pc in {DownEntry(s), DownRetry(s)}
  {
  }

  lemma AgreesAfterPass(r: Record, a: Kernel, call: Call, b: Kernel, s: SemId)
    requires Inv(a) && Shape(a) && AtDown(a, s) && HasSem(a.locks, s) && b == DownPass(a, s)
    requires Agrees(r, a.tasks[a.cur])
    requires Moves(a, call, b)
    ensures Agrees(Observe(r, a.locks, a.tasks[a.cur].pc, call, b.locks, b.tasks[a.cur].pc), b.tasks[a.cur])
  {
    PassMoves(a, call, b, s);
    if s.LockSem? {
      AgreesAtDown(r, a.tasks[a.cur], s.k, b.tasks[a.cur], a.locks, call, b.locks);
    } else {
      DoneChannel(a, s.c);
      AgreesAtDone(r, a.tasks[a.cur], s.c, b.tasks[a.cur], a.locks, call, b.locks);
    }
  }

  // ---------------------------------------------------------------- over every run

  lemma ReachedBefore(states: seq<Kernel>, events: seq<Event>, i: nat)
    requires Reached(states, events, i) && i > 0
    ensures Reached(states, events, i - 1) && Inv(states[i - 1]) && Shape(states[i - 1])
    ensures Enabled(states[i - 1], events[i - 1]) && states[i] == Step(states[i - 1], events[i - 1])
    ensures events[i - 1].Go? ==> !BadRelease(states[i - 1])
  {
    StepOf(states, events, i);
    ReachedInv(states, events, i - 1);
    GoodStep(states[i - 1], events[i - 1]);
  }

  lemma StepOf(states: seq<Kernel>, events: seq<Event>, i: nat)
    requires Reached(states, events, i) && i > 0
    ensures Reached(states, events, i - 1)
    ensures Enabled(states[i - 1], events[i - 1]) && states[i] == Step(states[i - 1], events[i - 1])
  {
    assert Enabled(states[i - 1], events[i - 1]);
  }

  lemma GoodStep(a: Kernel, ev: Event)
    requires Inv(a) && Enabled(a, ev) && Step(a, ev).panic.None?
    ensures ev.Go? ==> !BadRelease(a)
  {
    StepKeeps(a, ev);
  }

  ghost predicate RecordsAgree(states: seq<Kernel>, events: seq<Event>, i: nat)
    requires i < |states| && i <= |events|
  {
    && (forall t :: t in states[i].tasks ==> Agrees(RecordOf(states, events, i, t), states[i].tasks[t]))
    && (forall t :: t !in states[i].tasks ==> RecordOf(states, events, i, t) == BLANK)
  }

  lemma {:induction false} RecordsKeep(states: seq<Kernel>, events: seq<Event>, i: nat)
    requires Reached(states, events, i)
    ensures RecordsAgree(states, events, i)
  {
    if i > 0 {
      ReachedBefore(states, events, i);
      RecordsKeep(states, events, i - 1);
      if events[i - 1].Go? { OwnStep(states, events, i); } else { OtherStep(states, events, i); }
    }
  }

  lemma OtherStep(states: seq<Kernel>, events: seq<Event>, i: nat)
    requires 0 < i < |states| && i <= |events| && Inv(states[i - 1]) && Enabled(states[i - 1], events[i - 1])
    requires states[i] == Step(states[i - 1], events[i - 1]) && !events[i - 1].Go?
    requires RecordsAgree(states, events, i - 1)
    ensures RecordsAgree(states, events, i)
  {
    InterruptStands(states[i - 1], events[i - 1]);
    forall t | t in states[i].tasks ensures Agrees(RecordOf(states, events, i, t), states[i].tasks[t]) {
      StandsAgree(RecordOf(states, events, i - 1, t), states[i - 1].tasks[t], states[i].tasks[t]);
    }
  }

  lemma StandsAgree(r: Record, x: Task, y: Task)
    requires Agrees(r, x) && Stands(x, y)
    ensures Agrees(r, y)
  {
    forall k: nat ensures DepthIs(r, y, k) {
      assert DepthIs(r, x, k);
    }
  }

  lemma OwnStep(states: seq<Kernel>, events: seq<Event>, i: nat)
    requires Reached(states, events, i) && i > 0 && events[i - 1].Go? && RecordsAgree(states, events, i - 1)
    ensures RecordsAgree(states, events, i)
  {
    ReachedBefore(states, events, i);
    var a, b := states[i - 1], states[i];
    AgreesAfter(RecordOf(states, events, i - 1, a.cur), a, events[i - 1].call, b);
    forall t | t in b.tasks ensures Agrees(RecordOf(states, events, i, t), b.tasks[t]) {
      if t != a.cur && t in a.tasks { StandsAgree(RecordOf(states, events, i - 1, t), a.tasks[t], b.tasks[t]); }
    }
  }

  // ---------------------------------------------------------------- locks, in terms of completed calls

  /** What a thread holds is its completed lock_acquire calls less its completed lock_release calls; the recorded
      depth runs ahead of them only inside the outermost lock_release. */
  lemma DepthIsCalls(states: seq<Kernel>, events: seq<Event>, i: nat, t: Tid, k: nat)
    requires Reached(states, events, i) && t in states[i].tasks
    ensures Depth(RecordOf(states, events, i, t), k)
            == Held(states[i].tasks[t], k) + if Leaving(states[i].tasks[t].pc, k) then 1 else 0
  {
    RecordsKeep(states, events, i);
    assert DepthIs(RecordOf(states, events, i, t), states[i].tasks[t], k);
  }

  /** Two threads never both have more completed acquires of a lock than completed releases. */
  lemma CallsExclude(states: seq<Kernel>, events: seq<Event>, i: nat, t: Tid, u: Tid, k: nat)
    requires Reached(states, events, i) && k in states[i].locks && t in states[i].tasks && u in states[i].tasks
    requires Depth(RecordOf(states, events, i, t), k) > 0 && Depth(RecordOf(states, events, i, u), k) > 0
    ensures t == u
  {
    DepthIsCalls(states, events, i, t, k);
    DepthIsCalls(states, events, i, u, k);
    ReachedInv(states, events, i);
    assert SyncAt(states[i].locks[k], states[i].tasks, k);
  }

  /** For a thread outside the kernel code the lock's fields are its calls: it is the holder, as deep as it has
      acquires to release, exactly when it has any. */
  lemma LockShowsCalls(states: seq<Kernel>, events: seq<Event>, i: nat, t: Tid, k: nat)
    requires Reached(states, events, i) && k in states[i].locks && t in states[i].tasks
    requires states[i].tasks[t].pc == Outside
    ensures var l, d := states[i].locks[k], Depth(RecordOf(states, events, i, t), k);
            && (l.holder == Some(t) <==> d > 0) && (l.owner == Some(t) <==> d > 0)
            && (d > 0 ==> l.repeat == d && l.sem.value == 0) && d >= 0
  {
    DepthIsCalls(states, events, i, t, k);
    ReachedInv(states, events, i);
    assert SyncAt(states[i].locks[k], states[i].tasks, k);
  }

  /** A thread that neither holds lock k nor is acquiring it. */
  ghost predicate Apart(r: Record, k: nat) {
    Depth(r, k) == 0 && r.doing != Acquiring(k) && !(r.doing.Opening? && r.doing.c == k)
  }

  /** A lock that all threads are apart from is free. */
  lemma FreeWhenApart(states: seq<Kernel>, events: seq<Event>, i: nat, k: nat)
    requires Reached(states, events, i) && k in states[i].locks
    requires forall t :: t in states[i].tasks ==> Apart(RecordOf(states, events, i, t), k)
    ensures var l := states[i].locks[k]; l.holder == None && l.repeat == 0 && l.sem.value == 1 && l.owner == None
  {
    ReachedInv(states, events, i);
    var l := states[i].locks[k];
    assert SyncAt(l, states[i].tasks, k);
    RecordsKeep(states, events, i);
    if l.owner.Some? {
      var t := l.owner.value;
      OwnerIsIn(RecordOf(states, events, i, t), l, t, states[i].tasks[t], k);
    }
  }

  lemma OwnerIsIn(r: Record, l: Lock, t: Tid, task: Task, k: nat)
    requires OwnerOk(l, t, task, k) && Agrees(r, task)
    ensures !Apart(r, k)
  {
    assert DepthIs(r, task, k);
  }

  /** A step fails an assertion exactly when a thread enters lock_release with no acquire left to release. */
  lemma PanicIsOverRelease(states: seq<Kernel>, events: seq<Event>, i: nat)
    requires Reached(states, events, i) && i < |events|
    ensures states[i].cur in states[i].tasks
    ensures var t := states[i].cur;
            var pc := states[i].tasks[t].pc;
            states[i + 1].panic.Some? <==>
              events[i].Go? && pc.AtLock? && pc.stage == ReleaseEntry
                  && Depth(RecordOf(states, events, i, t), pc.k) == 0
  {
    assert Enabled(states[i], events[i]);
    ReachedInv(states, events, i);
    StepKeeps(states[i], events[i]);
    var t := states[i].cur;
    if states[i].tasks[t].pc.AtLock? { DepthIsCalls(states, events, i, t, states[i].tasks[t].pc.k); }
  }

  // ---------------------------------------------------------------- lock_release

  /** The statements of the outermost lock_release, one after the other. */
  ghost predicate OnRelease(task: Task, k: nat) {
    && task.pc in {AtLock(ReleaseEntry, k), AtLock(ClearHolder, k), AtLock(ZeroRepeat, k), AtLock(UpEntry, k)}
    && Held(task, k) == if task.pc == AtLock(ReleaseEntry, k) then 1 else 0
  }

  /** Thread t is inside the kernel code from state i to before state j. */
  ghost predicate Within(states: seq<Kernel>, i: nat, j: nat, t: Tid) {
    j < |states| && forall m :: i <= m < j ==> t in states[m].tasks && states[m].tasks[t].pc != Outside
  }

  lemma ReleaseStep(a: Kernel, ev: Event, b: Kernel, t: Tid, k: nat)
    requires Inv(a) && Enabled(a, ev) && b == Step(a, ev) && t in a.tasks && OnRelease(a.tasks[t], k)
    requires k in a.locks && (ev.Go? ==> !BadRelease(a))
    ensures t in b.tasks && (b.tasks[t].pc != Outside ==> OnRelease(b.tasks[t], k))
    ensures b.tasks[t].pc == Outside ==> ev.Go? && a.cur == t && a.tasks[t].pc == AtLock(UpEntry, k)
  {
    if !ev.Go? {
      InterruptStands(a, ev);
    } else {
      ActMoves(a, ev.call);
      if a.cur == t { ReleaseMoves(a, ev.call, b, k); } else { assert Stands(a.tasks[t], b.tasks[t]); }
    }
  }

  lemma ReleaseMoves(a: Kernel, call: Call, b: Kernel, k: nat)
    requires Inv(a) && Shape(a) && k in a.locks && OnRelease(a.tasks[a.cur], k) && Moves(a, call, b)
    ensures a.cur in b.tasks && (b.tasks[a.cur].pc != Outside ==> OnRelease(b.tasks[a.cur], k))
    ensures b.tasks[a.cur].pc == Outside ==> a.tasks[a.cur].pc == AtLock(UpEntry, k)
  {
    AtLockFacts(a, k);
    ReleaseStatement(a.locks[k], a.cur, a.tasks[a.cur], k, b.tasks[a.cur]);
  }

  lemma ReleaseStatement(l: Lock, t: Tid, x: Task, k: nat, y: Task)
    requires OnRelease(x, k) && Stands(LockStatement(x.pc.stage, k, t, l, x).task, y)
    requires x.pc == AtLock(ReleaseEntry, k) ==> l.holder == Some(t) && l.repeat == 1
    ensures y.pc != Outside ==> OnRelease(y, k)
    ensures y.pc == Outside ==> x.pc == AtLock(UpEntry, k)
  {
  }

  /** What ReleaseStep says of the step to state m. */
  ghost predicate ReleaseGoesOn(states: seq<Kernel>, events: seq<Event>, m: nat, t: Tid, k: nat)
    requires 0 < m < |states| && m <= |events|
  {
    t in states[m - 1].tasks && OnRelease(states[m - 1].tasks[t], k) ==>
      && t in states[m].tasks && (states[m].tasks[t].pc != Outside ==> OnRelease(states[m].tasks[t], k))
      && (states[m].tasks[t].pc == Outside ==>
            events[m - 1].Go? && states[m - 1].cur == t && states[m - 1].tasks[t].pc == AtLock(UpEntry, k))
  }

  lemma ReleaseNext(states: seq<Kernel>, events: seq<Event>, m: nat, t: Tid, k: nat)
    requires Reached(states, events, m) && m > 0
    ensures ReleaseGoesOn(states, events, m, t, k)
  {
    ReachedBefore(states, events, m);
    if t in states[m - 1].tasks && OnRelease(states[m - 1].tasks[t], k) {
      assert TaskOk(states[m - 1].locks, states[m - 1].tasks[t]);
      ReleaseStep(states[m - 1], events[m - 1], states[m], t, k);
    }
  }

  lemma {:induction false} ReleasePath(states: seq<Kernel>, events: seq<Event>, i: nat, j: nat, t: Tid, k: nat)
    requires i < j < |states| && j <= |events| && forall m :: i < m <= j ==> ReleaseGoesOn(states, events, m, t, k)
    requires t in states[i].tasks && OnRelease(states[i].tasks[t], k) && Within(states, i, j, t)
    ensures t in states[j - 1].tasks && OnRelease(states[j - 1].tasks[t], k)
    decreases j
  {
    if i < j - 1 {
      ReleasePath(states, events, i, j - 1, t, k);
      assert ReleaseGoesOn(states, events, j - 1, t, k);
    }
  }

  /** sema_up at the end of lock_release. */
  lemma UpEntryGives(a: Kernel, call: Call, k: nat, b: Kernel)
    requires Inv(a) && Shape(a) && k in a.locks && a.tasks[a.cur].pc == AtLock(UpEntry, k) && b == Act(a, call)
    ensures k in b.locks && GivenBack(a, b, a.cur, k)
  {
    UpEntryIsFree(a, k);
    if a.locks[k].sem.waiters == [] {
      LastLeaves(a, call, k, b);
    } else {
      PoppedFirst(a, b, call, k);
      LeftFields(a, b, call, k);
    }
  }

  lemma UpEntryIsFree(a: Kernel, k: nat)
    requires Inv(a) && k in a.locks && a.tasks[a.cur].pc == AtLock(UpEntry, k)
    ensures a.locks[k].holder == None && a.locks[k].repeat == 0 && a.locks[k].sem.value == 0
  {
    AtLockFacts(a, k);
  }

  lemma LastLeaves(a: Kernel, call: Call, k: nat, b: Kernel)
    requires Shape(a) && k in a.locks && a.tasks[a.cur].pc == AtLock(UpEntry, k) && b == Act(a, call)
    requires a.locks[k].holder == None && a.locks[k].repeat == 0 && a.locks[k].sem.value == 0
    requires a.locks[k].sem.waiters == []
    ensures k in b.locks && GivenBack(a, b, a.cur, k)
  {
    assert WaitersExist(a.locks[k], a.tasks);
  }

  lemma LeftFields(a: Kernel, b: Kernel, call: Call, k: nat)
    requires Shape(a) && k in a.locks && a.tasks[a.cur].pc == AtLock(UpEntry, k) && b == Act(a, call)
    ensures k in b.locks && b.locks[k] == a.locks[k].(owner := None, sem := b.locks[k].sem)
  {
    assert WaitersExist(a.locks[k], a.tasks);
    var m := SetPc(a, a.cur, Outside).(locks := a.locks[k := a.locks[k].(owner := None)]);
    if m.locks[k].sem.value == 0 && m.locks[k].sem.waiters != [] {
      var w := m.locks[k].sem.waiters;
      assert w[0] in w;
      UnblockStands(m.(locks := SetSem(m.locks, LockSem(k), Sem(1, w[1..]))), w[0]);
    }
  }

  /** The lock is free and nobody's, and its first waiter, if it had any, is the next thread to run. */
  ghost predicate GivenBack(a: Kernel, b: Kernel, t: Tid, k: nat)
    requires k in a.locks && k in b.locks
  {
    var w := a.locks[k].sem.waiters;
    && b.locks[k].holder == None && b.locks[k].repeat == 0 && b.locks[k].sem.value == 1 && b.locks[k].owner == None
    && b.locks[k].sem.waiters == (if w == [] then [] else w[1..])
    && b.ready == (if w == [] then a.ready else [w[0]] + a.ready)
  }

  lemma ReleaseGoesOnAll(states: seq<Kernel>, events: seq<Event>, i: nat, j: nat, t: Tid, k: nat)
    requires Reached(states, events, j)
    ensures forall m :: i < m <= j ==> ReleaseGoesOn(states, events, m, t, k)
  {
    forall m | i < m <= j ensures ReleaseGoesOn(states, events, m, t, k) {
      ReachedEarlier(states, events, m, j);
      ReleaseNext(states, events, m, t, k);
    }
  }

  lemma ReleaseEnds(states: seq<Kernel>, events: seq<Event>, i: nat, j: nat, t: Tid, k: nat)
    requires i < j < |states| && j <= |events| && forall m :: i < m <= j ==> ReleaseGoesOn(states, events, m, t, k)
    requires t in states[i].tasks && OnRelease(states[i].tasks[t], k) && Within(states, i, j, t)
    requires t in states[j].tasks && states[j].tasks[t].pc == Outside
    ensures t in states[j - 1].tasks && OnRelease(states[j - 1].tasks[t], k)
    ensures states[j - 1].tasks[t].pc == AtLock(UpEntry, k) && states[j - 1].cur == t && events[j - 1].Go?
  {
    ReleasePath(states, events, i, j, t, k);
    assert ReleaseGoesOn(states, events, j, t, k);
  }

  /** A thread that enters lock_release with one acquire to release, and is next outside in state j, has given the
      lock back by its own last step. */
  lemma ReleaseGivesBack(states: seq<Kernel>, events: seq<Event>, i: nat, j: nat, t: Tid, k: nat)
    requires Reached(states, events, j) && i < j && t in states[i].tasks && t in states[j].tasks
    requires states[i].tasks[t].pc == AtLock(ReleaseEntry, k) && Depth(RecordOf(states, events, i, t), k) == 1
    requires Within(states, i, j, t) && states[j].tasks[t].pc == Outside
    ensures states[j - 1].cur == t && events[j - 1].Go? && k in states[j - 1].locks && k in states[j].locks
    ensures GivenBack(states[j - 1], states[j], t, k)
    ensures Held(states[j].tasks[t], k) == 0 && Depth(RecordOf(states, events, j, t), k) == 0
  {
    ReleaseBegins(states, events, i, j, t, k);
    ReleaseGoesOnAll(states, events, i, j, t, k);
    ReleaseEnds(states, events, i, j, t, k);
    LastStepGives(states, events, j, t, k);
    LastStepDepth(states, events, j, t, k);
  }

  lemma LastStepGives(states: seq<Kernel>, events: seq<Event>, j: nat, t: Tid, k: nat)
    requires Reached(states, events, j) && j > 0 && states[j - 1].cur == t && events[j - 1].Go?
    requires t in states[j - 1].tasks && OnRelease(states[j - 1].tasks[t], k)
    requires states[j - 1].tasks[t].pc == AtLock(UpEntry, k)
    ensures k in states[j - 1].locks && k in states[j].locks && GivenBack(states[j - 1], states[j], t, k)
  {
    ReachedBefore(states, events, j);
    StepGives(states[j - 1], events[j - 1], states[j], t, k);
  }

  lemma StepGives(a: Kernel, ev: Event, b: Kernel, t: Tid, k: nat)
    requires Inv(a) && Shape(a) && b == Step(a, ev) && ev.Go? && a.cur == t && a.tasks[t].pc == AtLock(UpEntry, k)
    ensures k in a.locks && k in b.locks && GivenBack(a, b, t, k)
  {
    assert TaskOk(a.locks, a.tasks[t]);
    UpEntryGives(a, ev.call, k, b);
  }

  lemma LastStepDepth(states: seq<Kernel>, events: seq<Event>, j: nat, t: Tid, k: nat)
    requires Reached(states, events, j) && k in states[j].locks && t in states[j].tasks
    requires states[j].tasks[t].pc == Outside && states[j].locks[k].owner == None
    ensures Held(states[j].tasks[t], k) == 0 && Depth(RecordOf(states, events, j, t), k) == 0
  {
    LockShowsCalls(states, events, j, t, k);
    DepthIsCalls(states, events, j, t, k);
  }

  lemma ReleaseBegins(states: seq<Kernel>, events: seq<Event>, i: nat, j: nat, t: Tid, k: nat)
    requires Reached(states, events, j) && i < j && t in states[i].tasks
    requires states[i].tasks[t].pc == AtLock(ReleaseEntry, k) && Depth(RecordOf(states, events, i, t), k) == 1
    ensures OnRelease(states[i].tasks[t], k)
  {
    ReachedEarlier(states, events, i, j);
    DepthIsCalls(states, events, i, t, k);
  }

  lemma {:induction false} ReachedEarlier(states: seq<Kernel>, events: seq<Event>, i: nat, j: nat)
    requires Reached(states, events, j) && i <= j
    ensures Reached(states, events, i)
    decreases j - i
  {
    if i < j {
      ReachedBefore(states, events, j);
      ReachedEarlier(states, events, i, j - 1);
    }
  }

  // ---------------------------------------------------------------- ide_read and ide_write

  /** A transfer with n commands on channel c, up to its last command. */
  ghost predicate InTransfer(r: Record, c: nat, n: nat) {
    r.doing == Opening(c, n) || r.doing == Transferring(c, n)
  }

  /** All n commands have been announced, sent and awaited. */
  ghost predicate AllIssued(r: Record, c: nat, n: nat) {
    r.doing == Releasing(c) && r.announced == r.sent == r.awaited == n
  }

  /** A step of a thread in a transfer keeps it there or is the last one, after the n-th command. */
  lemma TransferStep(r: Record, a: Kernel, call: Call, b: Kernel, c: nat, n: nat)
    requires Inv(a) && Shape(a) && !BadRelease(a) && b == Act(a, call) && Agrees(r, a.tasks[a.cur])
    requires InTransfer(r, c, n)
    ensures a.cur in b.tasks
    ensures var pc := b.tasks[a.cur].pc; GoesOn(Observe(r, a.locks, a.tasks[a.cur].pc, call, b.locks, pc), pc, c, n)
  {
    var t := a.cur;
    AgreesAfter(r, a, call, b);
    assert TaskOk(a.locks, a.tasks[t]);
    match a.tasks[t].pc
    case Outside =>
    case IdleLoop =>
    case DownEntry(s) => TransferAtDown(r, a.tasks[t], s, b.tasks[t], a.locks, call, b.locks, c, n);
    case DownRetry(s) => TransferAtDown(r, a.tasks[t], s, b.tasks[t], a.locks, call, b.locks, c, n);
    case AtLock(stage, k) => TransferAtLock(r, a.locks[k], t, a.tasks[t], stage, b.tasks[t], a.locks, call, b.locks, c,
        n);
    case AtIo(step, d) =>
      IoChannel(a, call, step, d);
      TransferAtIo(r, a.locks[d].channel.value.expecting, a.tasks[t], step, b.tasks[t], a.locks, call, b.locks, c, n);
  }

  /** The record after a step: at the end of the transfer all commands are issued, before it they are being issued. */
  ghost predicate GoesOn(r: Record, pc: Pc, c: nat, n: nat) {
    if pc == AtLock(ReleaseEntry, c) then AllIssued(r, c, n) else InTransfer(r, c, n)
  }

  lemma TransferAtDown(r: Record, x: Task, s: SemId, y: Task, a: Locks, call: Call, b: Locks, c: nat, n: nat)
    requires x.pc in {DownEntry(s), DownRetry(s)} && Agrees(r, x) && InTransfer(r, c, n)
    requires y.pc in {AfterDown(s), DownRetry(s)}
    ensures GoesOn(Observe(r, a, x.pc, call, b, y.pc), y.pc, c, n)
  {
  }

  lemma TransferAtLock(r: Record, l: Lock, t: Tid, x: Task, stage: LockStage, y: Task, a: Locks, call: Call, b: Locks,
                       c: nat, n: nat)
    requires x.pc.AtLock? && x.pc.stage == stage && Agrees(r, x) && InTransfer(r, c, n)
    requires Stands(LockStatement(stage, x.pc.k, t, l, x).task, y)
    ensures GoesOn(Observe(r, a, x.pc, call, b, y.pc), y.pc, c, n)
  {
  }

  lemma TransferAtIo(r: Record, e: bool, x: Task, step: IoStage, y: Task, a: Locks, call: Call, b: Locks, c: nat,
                     n: nat)
    requires x.pc.AtIo? && x.pc.step == step && Agrees(r, x) && InTransfer(r, c, n)
    requires Stands(IoStatement(step, x.pc.c, e, x).task, y)
    requires (Announces(a, b, x.pc.c) <==> step == CmdFlag) && !Awaits(a, b, x.pc.c)
    ensures GoesOn(Observe(r, a, x.pc, call, b, y.pc), y.pc, c, n)
  {
  }

  /** What TransferStep says of the step to state m. */
  ghost predicate TransferGoesOn(states: seq<Kernel>, events: seq<Event>, m: nat, t: Tid, c: nat, n: nat)
    requires 0 < m < |states| && m <= |events|
  {
    t in states[m - 1].tasks && InTransfer(RecordOf(states, events, m - 1, t), c, n) ==>
      t in states[m].tasks && GoesOn(RecordOf(states, events, m, t), states[m].tasks[t].pc, c, n)
  }

  lemma TransferNext(states: seq<Kernel>, events: seq<Event>, m: nat, t: Tid, c: nat, n: nat)
    requires Reached(states, events, m) && m > 0
    ensures TransferGoesOn(states, events, m, t, c, n)
  {
    ReachedBefore(states, events, m);
    RecordsKeep(states, events, m - 1);
    var a, r := states[m - 1], RecordOf(states, events, m - 1, t);
    if t in a.tasks && InTransfer(r, c, n) {
      if events[m - 1].Go? && a.cur == t {
        TransferStep(r, a, events[m - 1].call, states[m], c, n);
      } else {
        OthersWait(states, events, m, t);
        NotAtRelease(r, a.tasks[t], c, n);
      }
    }
  }

  lemma NotAtRelease(r: Record, task: Task, c: nat, n: nat)
    requires Agrees(r, task) && InTransfer(r, c, n)
    ensures task.pc != AtLock(ReleaseEntry, c)
  {
  }

  /** A step that is not the thread's own. */
  lemma OthersWait(states: seq<Kernel>, events: seq<Event>, m: nat, t: Tid)
    requires Reached(states, events, m) && m > 0 && t in states[m - 1].tasks
    requires !(events[m - 1].Go? && states[m - 1].cur == t)
    ensures t in states[m].tasks && states[m].tasks[t].pc == states[m - 1].tasks[t].pc
    ensures RecordOf(states, events, m, t) == RecordOf(states, events, m - 1, t)
  {
    ReachedBefore(states, events, m);
    if events[m - 1].Go? {
      ActMoves(states[m - 1], events[m - 1].call);
      assert Stands(states[m - 1].tasks[t], states[m].tasks[t]);
    } else {
      InterruptStands(states[m - 1], events[m - 1]);
    }
  }

  lemma {:induction false} TransferPath(states: seq<Kernel>, events: seq<Event>, i: nat, j: nat, t: Tid, c: nat, n: nat)
    requires i <= j < |states| && j <= |events|
    requires forall m :: i < m <= j ==> TransferGoesOn(states, events, m, t, c, n)
    requires forall m :: i <= m <= j ==> t in states[m].tasks
    requires forall m :: i < m < j ==> states[m].tasks[t].pc != AtLock(ReleaseEntry, c)
    requires InTransfer(RecordOf(states, events, i, t), c, n)
    ensures i < j ==> GoesOn(RecordOf(states, events, j, t), states[j].tasks[t].pc, c, n)
    decreases j
  {
    if i < j {
      TransferPath(states, events, i, j - 1, t, c, n);
      assert TransferGoesOn(states, events, j, t, c, n);
    }
  }

  /** ide_read and ide_write with n commands: between the call in state i and the thread's next arrival at the release
      of the channel's lock, in state j, it has announced, sent and awaited exactly n commands on the channel. */
  lemma TransferIssuesAll(states: seq<Kernel>, events: seq<Event>, i: nat, j: nat, t: Tid, c: nat, n: nat)
    requires Reached(states, events, j) && i + 1 < j && states[i].cur == t && IsChannel(states[i].locks, c)
    requires forall m :: i <= m <= j ==> t in states[m].tasks
    requires states[i].tasks[t].pc == Outside && events[i] == Go(Io(c, n))
    requires states[j].tasks[t].pc == AtLock(ReleaseEntry, c)
    requires forall m :: i < m < j ==> states[m].tasks[t].pc != AtLock(ReleaseEntry, c)
    ensures var r := RecordOf(states, events, j, t); r.announced == n && r.sent == n && r.awaited == n
  {
    TransferBegins(states, events, i, j, t, c, n);
    forall m | i + 1 < m <= j ensures TransferGoesOn(states, events, m, t, c, n) {
      ReachedEarlier(states, events, m, j);
      TransferNext(states, events, m, t, c, n);
    }
    TransferPath(states, events, i + 1, j, t, c, n);
  }

  lemma TransferBegins(states: seq<Kernel>, events: seq<Event>, i: nat, j: nat, t: Tid, c: nat, n: nat)
    requires Reached(states, events, j) && i < j && states[i].cur == t && IsChannel(states[i].locks, c)
    requires t in states[i].tasks && t in states[i + 1].tasks
    requires states[i].tasks[t].pc == Outside && events[i] == Go(Io(c, n))
    ensures RecordOf(states, events, i + 1, t).doing == Opening(c, n)
    ensures var r := RecordOf(states, events, i + 1, t); r.announced == r.sent == r.awaited == 0
  {
    ReachedEarlier(states, events, i + 1, j);
    ReachedBefore(states, events, i + 1);
    OpensRecord(RecordOf(states, events, i, t), states[i], states[i + 1], c, n);
  }

  /** The step of the call begins a new record. */
  lemma OpensRecord(r: Record, a: Kernel, b: Kernel, c: nat, n: nat)
    requires Shape(a) && IsChannel(a.locks, c) && a.tasks[a.cur].pc == Outside && b == Act(a, Io(c, n))
    ensures a.cur in b.tasks
    ensures var r' := Observe(r, a.locks, Outside, Io(c, n), b.locks, b.tasks[a.cur].pc);
            r'.doing == Opening(c, n) && r'.announced == r'.sent == r'.awaited == 0
  {
  }
}
