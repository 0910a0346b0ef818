/** Every step of the machine keeps the invariant of ThreadsInv. */
module ThreadsStep {
  import opened Threads
  import opened ThreadsInv

  // ---------------------------------------------------------------- one thread moves at one lock

  /** The code point concerns lock or channel k only. */
  ghost predicate Concerns(pc: Pc, k: nat) {
    match pc
    case Outside => true
    case IdleLoop => false
    case DownEntry(s) => s == LockSem(k) || s == DoneSem(k)
    case DownRetry(s) => s == LockSem(k) || s == DoneSem(k)
    case AtLock(_, j) => j == k
    case AtIo(_, c) => c == k
  }

  /** A thread moves between points that concern k and changes its claim on k at most. */
  ghost predicate MovesAt(a: Task, b: Task, k: nat) {
    a == b || (Concerns(a.pc, k) && Concerns(b.pc, k) && forall j :: j != k ==> Held(a, j) == Held(b, j))
  }

  lemma OtherWakes(sem: Sem, tasks: Tasks, t: Tid, task: Task, s: SemId)
    requires t in tasks && (task == tasks[t] || tasks[t].pc != DownRetry(s)) && Wakes(sem, tasks, s)
    ensures Wakes(sem, tasks[t := task], s)
  {
    if sem.value > 0 && sem.waiters != [] {
      var u :| Woken(tasks, sem.waiters, s, u);
      assert Woken(tasks[t := task], sem.waiters, s, u);
    }
  }

  /** Every other lock is untouched by the move. */
  lemma OtherLock(l: Lock, tasks: Tasks, t: Tid, task: Task, k: nat, j: nat)
    requires t in tasks && MovesAt(tasks[t], task, k) && j != k && SyncAt(l, tasks, j)
    ensures SyncAt(l, tasks[t := task], j)
  {
    OtherWakes(l.sem, tasks, t, task, LockSem(j));
    if l.channel.Some? { OtherWakes(l.channel.value.done, tasks, t, task, DoneSem(j)); }
  }

  lemma LocalSync(locks: Locks, tasks: Tasks, t: Tid, task: Task, k: nat, l: Lock)
    requires SyncOk(locks, tasks) && t in tasks && MovesAt(tasks[t], task, k)
    requires SyncAt(l, tasks[t := task], k)
    ensures SyncOk(locks[k := l], tasks[t := task])
  {
    forall j | j in locks && j != k ensures SyncAt(locks[j], tasks[t := task], j) {
      OtherLock(locks[j], tasks, t, task, k, j);
    }
  }

  /** The owner moves on; the lock's fields follow. */
  lemma OwnerMoves(l: Lock, l': Lock, tasks: Tasks, t: Tid, task: Task, k: nat)
    requires Claims(l, tasks, k) && l.owner == Some(t) && l'.owner == Some(t) && l'.sem.value == 0
    requires OwnerOk(l', t, task, k)
    ensures Claims(l', tasks[t := task], k)
  {
  }

  /** A thread that does not own the lock moves between points open to anybody. */
  lemma StrangerMoves(l: Lock, l': Lock, tasks: Tasks, t: Tid, task: Task, k: nat)
    requires Claims(l, tasks, k) && l.owner != Some(t) && l' == l.(sem := l'.sem, channel := l'.channel)
    requires l'.sem.value == l.sem.value
    requires Held(task, k) == 0 && !NeedsOwner(task.pc, k)
    ensures Claims(l', tasks[t := task], k)
  {
  }

  // ---------------------------------------------------------------- and the scheduler's part

  ghost predicate SameKind(a: Lock, b: Lock) {
    a.channel.Some? == b.channel.Some?
  }

  lemma TasksLocal(locks: Locks, tasks: Tasks, t: Tid, task: Task, k: nat, l: Lock)
    requires TasksOk(tasks, locks) && k in locks && SameKind(locks[k], l) && TaskOk(locks, task)
    ensures TasksOk(tasks[t := task], locks[k := l])
  {
    var tasks', locks' := tasks[t := task], locks[k := l];
    forall u | u in tasks' ensures TaskOk(locks', tasks'[u]) {
      assert u != t ==> TaskOk(locks, tasks[u]);
    }
  }

  ghost predicate SameWaiters(a: Lock, b: Lock) {
    && a.sem.waiters == b.sem.waiters && SameKind(a, b)
    && (a.channel.Some? ==> a.channel.value.done.waiters == b.channel.value.done.waiters)
  }

  /** The running thread moves within its program: run states and waiters are untouched. */
  lemma RunningMoves(locks: Locks, tasks: Tasks, t: Tid, task: Task, idle: Tid, k: nat, l: Lock)
    requires t in tasks && tasks[t].status == Running == task.status && k in locks && SameWaiters(locks[k], l)
    requires task == tasks[t] || (tasks[t].pc != IdleLoop && task.pc != IdleLoop)
    requires IdleOk(tasks, idle) && BlockedOk(tasks, idle, locks) && WaitersOk(tasks, locks)
    ensures IdleOk(tasks[t := task], idle) && BlockedOk(tasks[t := task], idle, locks[k := l])
    ensures WaitersOk(tasks[t := task], locks[k := l])
  {
    var locks' := locks[k := l];
    forall j | j in locks' ensures WaitersAt(locks'[j], tasks[t := task], j) {
      assert WaitersAt(locks[j], tasks, j);
    }
  }

  lemma LocalSched(a: Kernel, task: Task, k: nat, l: Lock)
    requires SchedOk(a) && k in a.locks && SameWaiters(a.locks[k], l) && TaskOk(a.locks, task) && task.status == Running
    requires task == a.tasks[a.cur] || (a.cur != a.idle && task.pc != IdleLoop)
    ensures SchedOk(a.(tasks := a.tasks[a.cur := task], locks := a.locks[k := l]))
  {
    RunningMoves(a.locks, a.tasks, a.cur, task, a.idle, k, l);
    TasksLocal(a.locks, a.tasks, a.cur, task, k, l);
  }

  /** A step of the current thread at lock k, with nobody put to sleep or woken. */
  lemma LocalKeeps(a: Kernel, task: Task, k: nat, l: Lock)
    requires Inv(a) && k in a.locks && SameWaiters(a.locks[k], l) && TaskOk(a.locks, task) && task.status == Running
    requires task == a.tasks[a.cur] || (a.cur != a.idle && task.pc != IdleLoop)
    requires MovesAt(a.tasks[a.cur], task, k) && SyncAt(l, a.tasks[a.cur := task], k)
    ensures Inv(a.(tasks := a.tasks[a.cur := task], locks := a.locks[k := l]))
  {
    LocalSched(a, task, k, l);
    LocalSync(a.locks, a.tasks, a.cur, task, k, l);
  }

  // ---------------------------------------------------------------- lock_acquire and lock_release

  /** The owner moves (and updates the lock) or a stranger moves (and does not). */
  ghost predicate LockMove(l: Lock, l': Lock, t: Tid, task: Task, k: nat) {
    && l'.sem == l.sem && l'.channel == l.channel && l'.owner == l.owner
    && (if l.owner == Some(t) then OwnerOk(l', t, task, k)
        else l' == l && Held(task, k) == 0 && !NeedsOwner(task.pc, k))
  }

  /** The lock's protocol, statement by statement: no statement but a release by a thread that
      does not hold the lock fails an assertion. */
  lemma LockStatementMoves(stage: LockStage, k: nat, t: Tid, l: Lock, task: Task)
    requires task.pc == AtLock(stage, k) && stage != UpEntry
    requires if l.owner == Some(t) then OwnerOk(l, t, task, k)
             else l.holder != Some(t) && Held(task, k) == 0 && !NeedsOwner(task.pc, k)
    ensures var e := LockStatement(stage, k, t, l, task);
            && (e.failed.None? ==> LockMove(l, e.l, t, e.task, k))
            && (e.failed.Some? <==> stage == ReleaseEntry && Held(task, k) == 0)
            && (e.failed.Some? ==> e.failed.value == HolderAssert)
            && !Pending(e.task.pc, k) && MovesAt(task, e.task, k) && e.task.status == task.status
            && e.task.pc != IdleLoop
  {
  }

  lemma LockMoveSync(l: Lock, l': Lock, tasks: Tasks, t: Tid, task: Task, k: nat)
    requires SyncAt(l, tasks, k) && t in tasks && LockMove(l, l', t, task, k)
    requires !tasks[t].pc.DownRetry? && !Pending(tasks[t].pc, k) && !Pending(task.pc, k)
    ensures SyncAt(l', tasks[t := task], k)
  {
    if l.owner == Some(t) { OwnerMoves(l, l', tasks, t, task, k); } else { StrangerMoves(l, l', tasks, t, task, k); }
    OtherWakes(l.sem, tasks, t, task, LockSem(k));
    if l.channel.Some? { OtherWakes(l.channel.value.done, tasks, t, task, DoneSem(k)); }
  }

  lemma AtLockIs(a: Kernel, call: Call, stage: LockStage, k: nat, e: LockEffect)
    requires Shape(a) && a.panic.None? && a.tasks[a.cur].pc == AtLock(stage, k) && stage != UpEntry && k in a.locks
    requires e == LockStatement(stage, k, a.cur, a.locks[k], a.tasks[a.cur])
    ensures Act(a, call) == if e.failed.Some? then a.(panic := e.failed)
                            else a.(tasks := a.tasks[a.cur := e.task], locks := a.locks[k := e.l])
  {
  }

  lemma LockTaskOk(locks: Locks, stage: LockStage, k: nat, t: Tid, task: Task)
    requires TaskOk(locks, task) && task.pc == AtLock(stage, k)
    ensures TaskOk(locks, LockStatement(stage, k, t, locks[k], task).task)
  {
  }

  /** The current thread's record and the lock it stands at, before a statement on that lock. */
  lemma AtLockFacts(a: Kernel, k: nat)
    requires Inv(a) && k in a.locks
    ensures Shape(a) && TaskOk(a.locks, a.tasks[a.cur]) && SyncAt(a.locks[k], a.tasks, k)
    ensures a.tasks[a.cur].pc == IdleLoop <==> a.cur == a.idle
    ensures if a.locks[k].owner == Some(a.cur) then OwnerOk(a.locks[k], a.cur, a.tasks[a.cur], k)
            else a.locks[k].holder != Some(a.cur) && Held(a.tasks[a.cur], k) == 0 && !NeedsOwner(a.tasks[a.cur].pc, k)
  {
    CoreHasShape(a);
    assert SyncAt(a.locks[k], a.tasks, k);
  }

  lemma LockStatementKeeps(a: Kernel, call: Call)
    requires Inv(a) && Shape(a) && a.tasks[a.cur].pc.AtLock? && a.tasks[a.cur].pc.stage != UpEntry
    ensures var pc := a.tasks[a.cur].pc;
            if pc.stage == ReleaseEntry && Held(a.tasks[a.cur], pc.k) == 0
            then Act(a, call) == a.(panic := Some(HolderAssert)) else Inv(Act(a, call))
  {
    var t, task := a.cur, a.tasks[a.cur];
    var k, stage := task.pc.k, task.pc.stage;
    assert TaskOk(a.locks, task);
    AtLockFacts(a, k);
    LockStatementMoves(stage, k, t, a.locks[k], task);
    var e := LockStatement(stage, k, t, a.locks[k], task);
    AtLockIs(a, call, stage, k, e);
    if e.failed.None? {
      LockTaskOk(a.locks, stage, k, t, task);
      LockMoveSync(a.locks[k], e.l, a.tasks, t, e.task, k);
      LocalKeeps(a, e.task, k, e.l);
    }
  }

  // ---------------------------------------------------------------- ide_read and ide_write

  lemma IoStatementMoves(step: IoStage, c: nat, t: Tid, l: Lock, task: Task, e: bool, done: nat)
    requires task.pc == AtIo(step, c) && OwnerOk(l, t, task, c)
    requires (if e then 1 else 0) + done == (if Pending(task.pc, c) then 1 else 0)
    ensures var f := IoStatement(step, c, e, task);
            && OwnerOk(l, t, f.task, c) && MovesAt(task, f.task, c)
            && (if f.expecting then 1 else 0) + done == (if Pending(f.task.pc, c) then 1 else 0)
            && f.task.status == task.status && f.task.pc != IdleLoop
  {
  }

  /** What Handshake says once the owner is known. */
  lemma HandshakeOf(l: Lock, tasks: Tasks, t: Tid, c: nat)
    requires SyncAt(l, tasks, c) && t in tasks && l.owner == Some(t) && l.channel.Some?
    ensures (if l.channel.value.expecting then 1 else 0) + l.channel.value.done.value ==
              if Pending(tasks[t].pc, c) then 1 else 0
  {
  }

  lemma IoMoveSync(l: Lock, l': Lock, tasks: Tasks, t: Tid, task: Task, c: nat)
    requires SyncAt(l, tasks, c) && t in tasks && l.owner == Some(t) && OwnerOk(l', t, task, c) && l.channel.Some?
    requires l'.channel.Some? && l' == l.(channel := Some(l.channel.value.(expecting := l'.channel.value.expecting)))
    requires (if l'.channel.value.expecting then 1 else 0) + l.channel.value.done.value == if Pending(task.pc, c) then 1
              else 0
    requires !tasks[t].pc.DownRetry?
    ensures SyncAt(l', tasks[t := task], c)
  {
    OwnerMoves(l, l', tasks, t, task, c);
    OtherWakes(l.sem, tasks, t, task, LockSem(c));
    OtherWakes(l.channel.value.done, tasks, t, task, DoneSem(c));
  }

  lemma AtIoIs(a: Kernel, call: Call, step: IoStage, c: nat, f: IoEffect)
    requires Shape(a) && a.tasks[a.cur].pc == AtIo(step, c) && IsChannel(a.locks, c)
    requires f == IoStatement(step, c, a.locks[c].channel.value.expecting, a.tasks[a.cur])
    ensures Act(a, call) == a.(tasks := a.tasks[a.cur := f.task], locks := SetExpecting(a.locks, c, f.expecting))
  {
  }

  lemma IoTaskOk(locks: Locks, step: IoStage, c: nat, e: bool, task: Task)
    requires TaskOk(locks, task) && task.pc == AtIo(step, c)
    ensures TaskOk(locks, IoStatement(step, c, e, task).task)
  {
  }

  lemma IoStatementKeeps(a: Kernel, call: Call)
    requires Inv(a) && Shape(a) && a.tasks[a.cur].pc.AtIo?
    ensures Inv(Act(a, call))
  {
    var t, task := a.cur, a.tasks[a.cur];
    var c, step := task.pc.c, task.pc.step;
    assert TaskOk(a.locks, task);
    AtLockFacts(a, c);
    var l := a.locks[c];
    HandshakeOf(l, a.tasks, t, c);
    IoStatementMoves(step, c, t, l, task, l.channel.value.expecting, l.channel.value.done.value);
    var f := IoStatement(step, c, l.channel.value.expecting, task);
    AtIoIs(a, call, step, c, f);
    IoTaskOk(a.locks, step, c, l.channel.value.expecting, task);
    var l' := SetExpecting(a.locks, c, f.expecting)[c];
    IoMoveSync(l, l', a.tasks, t, f.task, c);
    LocalKeeps(a, f.task, c, l');
  }

  // ---------------------------------------------------------------- sema_down

  /** The lock record that carries semaphore s, and that record with another semaphore. */
  ghost function KeyOf(s: SemId): nat {
    match s
    case LockSem(k) => k
    case DoneSem(c) => c
  }

  /** A thread that finds a lock's semaphore 0 waits: it is not the owner. */
  lemma QueuedOnLock(l: Lock, l': Lock, tasks: Tasks, t: Tid, task: Task, k: nat)
    requires SyncAt(l, tasks, k) && t in tasks && tasks[t].pc in {DownEntry(LockSem(k)), DownRetry(LockSem(k))}
    requires l.sem.value == 0 && l' == l.(sem := l.sem.(waiters := l.sem.waiters + [t]))
    requires task == tasks[t].(pc := DownRetry(LockSem(k)))
    ensures SyncAt(l', tasks[t := task], k)
  {
    StrangerMoves(l, l', tasks, t, task, k);
    if l.channel.Some? { OtherWakes(l.channel.value.done, tasks, t, task, DoneSem(k)); }
  }

  /** A driver that finds disk_done 0 waits: its interrupt is still expected. */
  lemma QueuedOnDone(l: Lock, l': Lock, tasks: Tasks, t: Tid, task: Task, c: nat)
    requires SyncAt(l, tasks, c) && t in tasks && tasks[t].pc in {DownEntry(DoneSem(c)), DownRetry(DoneSem(c))}
    requires l.channel.Some? && l.channel.value.done.value == 0 && l'.channel.Some?
    requires var done := l.channel.value.done;
             l' == l.(channel := Some(l.channel.value.(done := done.(waiters := done.waiters + [t]))))
    requires task == tasks[t].(pc := DownRetry(DoneSem(c)))
    ensures SyncAt(l', tasks[t := task], c) && l.channel.value.expecting
  {
    OwnerMoves(l, l', tasks, t, task, c);
    OtherWakes(l.sem, tasks, t, task, LockSem(c));
  }

  lemma QueuedSync(a: Kernel, s: SemId)
    requires Inv(a) && AtDown(a, s) && HasSem(a.locks, s) && SemAt(a.locks, s).value == 0
    ensures SyncOk(Queued(a, s).locks, Queued(a, s).tasks)
  {
    var task, k := a.tasks[a.cur].(pc := DownRetry(s)), KeyOf(s);
    var l' := Queued(a, s).locks[k];
    assert SyncAt(a.locks[k], a.tasks, k);
    if s.LockSem? {
      QueuedOnLock(a.locks[k], l', a.tasks, a.cur, task, k);
    } else {
      QueuedOnDone(a.locks[k], l', a.tasks, a.cur, task, k);
    }
    LocalSync(a.locks, a.tasks, a.cur, task, k, l');
  }

  lemma JoinOne(sem: Sem, tasks: Tasks, t: Tid, task: Task, s: SemId)
    requires WaitersOf(sem, tasks, s) && t in tasks && tasks[t].status == Running
    requires task.status == Blocked && task.pc == DownRetry(s)
    ensures WaitersOf(sem.(waiters := sem.waiters + [t]), tasks[t := task], s)
  {
  }

  /** The running thread blocks at the end of the waiters of s. */
  lemma JoinWaiters(locks: Locks, tasks: Tasks, t: Tid, task: Task, idle: Tid, s: SemId)
    requires t in tasks && tasks[t].status == Running && t != idle && HasSem(locks, s)
    requires task.status == Blocked && task.pc == DownRetry(s)
    requires IdleOk(tasks, idle) && BlockedOk(tasks, idle, locks) && WaitersOk(tasks, locks)
    ensures var locks' := SetSem(locks, s, SemAt(locks, s).(waiters := SemAt(locks, s).waiters + [t]));
            IdleOk(tasks[t := task], idle) && BlockedOk(tasks[t := task], idle, locks')
                && WaitersOk(tasks[t := task], locks')
  {
    var locks' := SetSem(locks, s, SemAt(locks, s).(waiters := SemAt(locks, s).waiters + [t]));
    forall j | j in locks' ensures WaitersAt(locks'[j], tasks[t := task], j) {
      assert WaitersAt(locks[j], tasks, j);
      if j == KeyOf(s) { JoinOne(SemAt(locks, s), tasks, t, task, s); }
    }
  }

  lemma BlockingFrame(tasks: Tasks, ready: seq<Tid>, t: Tid, task: Task)
    requires t in tasks && tasks[t].status == Running && task.status == Blocked
    requires QueueOk(tasks, ready) && StatesOk(tasks, t)
    ensures QueueOk(tasks[t := task], ready) && StatesOk(tasks[t := task], t)
  {
  }

  lemma QueuedIs(a: Kernel, s: SemId)
    requires a.cur in a.tasks && HasSem(a.locks, s)
    ensures var sem := SemAt(a.locks, s);
            SetStatus(Queued(a, s), a.cur, Blocked) ==
              a.(tasks := a.tasks[a.cur := a.tasks[a.cur].(pc := DownRetry(s), status := Blocked)],
                 locks := SetSem(a.locks, s, sem.(waiters := sem.waiters + [a.cur])))
  {
    var q := Queued(a, s);
    assert SetStatus(q, a.cur, Blocked).tasks ==
        a.tasks[a.cur := a.tasks[a.cur].(pc := DownRetry(s), status := Blocked)];
  }

  lemma QueuedTasks(locks: Locks, tasks: Tasks, t: Tid, task: Task, s: SemId)
    requires TasksOk(tasks, locks) && t in tasks && HasSem(locks, s) && tasks[t].pc in {DownEntry(s), DownRetry(s)}
    requires task == tasks[t].(pc := DownRetry(s), status := Blocked)
    ensures TasksOk(tasks[t := task], SetSem(locks, s, SemAt(locks, s).(waiters := SemAt(locks, s).waiters + [t])))
  {
    assert TaskOk(locks, tasks[t]);
    assert TaskOk(locks, task);
    var l := SetSem(locks, s, SemAt(locks, s).(waiters := SemAt(locks, s).waiters + [t]))[KeyOf(s)];
    TasksLocal(locks, tasks, t, task, KeyOf(s), l);
  }

  lemma QueuedSched(a: Kernel, s: SemId)
    requires Inv(a) && AtDown(a, s) && HasSem(a.locks, s)
    ensures SchedCore(SetStatus(Queued(a, s), a.cur, Blocked))
  {
    var task := a.tasks[a.cur].(pc := DownRetry(s), status := Blocked);
    QueuedIs(a, s);
    JoinWaiters(a.locks, a.tasks, a.cur, task, a.idle, s);
    BlockingFrame(a.tasks, a.ready, a.cur, task);
    QueuedTasks(a.locks, a.tasks, a.cur, task, s);
  }

  lemma TakenLock(l: Lock, l': Lock, tasks: Tasks, t: Tid, task: Task, k: nat)
    requires SyncAt(l, tasks, k) && t in tasks && tasks[t].pc in {DownEntry(LockSem(k)), DownRetry(LockSem(k))}
    requires l.sem.value > 0 && l' == l.(sem := l.sem.(value := 0), owner := Some(t))
    requires task == tasks[t].(pc := AtLock(SetHolder, k))
    ensures SyncAt(l', tasks[t := task], k)
  {
    assert OwnerOk(l', t, task, k);
    if l.channel.Some? { OtherWakes(l.channel.value.done, tasks, t, task, DoneSem(k)); }
  }

  lemma TakenDone(l: Lock, l': Lock, tasks: Tasks, t: Tid, task: Task, c: nat)
    requires SyncAt(l, tasks, c) && t in tasks && tasks[t].pc in {DownEntry(DoneSem(c)), DownRetry(DoneSem(c))}
    requires l.channel.Some? && l.channel.value.done.value > 0
    requires l' == l.(channel := Some(l.channel.value.(done := l.channel.value.done.(value := 0))))
    requires task == tasks[t].(pc := AtIo(Awaited, c))
    ensures SyncAt(l', tasks[t := task], c)
  {
    OwnerMoves(l, l', tasks, t, task, c);
    OtherWakes(l.sem, tasks, t, task, LockSem(c));
  }

  lemma TakenIs(a: Kernel, s: SemId, task: Task, l': Lock)
    requires AtDown(a, s) && HasSem(a.locks, s) && task == a.tasks[a.cur].(pc := AfterDown(s))
    requires KeyOf(s) in Taken(a, s).locks && l' == Taken(a, s).locks[KeyOf(s)]
    ensures Taken(a, s) == a.(tasks := a.tasks[a.cur := task], locks := a.locks[KeyOf(s) := l'])
  {
    assert Taken(a, s).locks == a.locks[KeyOf(s) := l'];
  }

  lemma TakenSync(a: Kernel, s: SemId, task: Task, l': Lock)
    requires SyncOk(a.locks, a.tasks) && AtDown(a, s) && HasSem(a.locks, s) && SemAt(a.locks, s).value > 0
    requires task == a.tasks[a.cur].(pc := AfterDown(s)) && KeyOf(s) in Taken(a, s).locks
    requires l' == Taken(a, s).locks[KeyOf(s)]
    ensures SyncAt(l', a.tasks[a.cur := task], KeyOf(s))
  {
    var k := KeyOf(s);
    assert SyncAt(a.locks[k], a.tasks, k);
    if s.LockSem? {
      TakenLock(a.locks[k], l', a.tasks, a.cur, task, k);
    } else {
      TakenDone(a.locks[k], l', a.tasks, a.cur, task, k);
    }
  }

  lemma TakenKeeps(a: Kernel, s: SemId)
    requires Inv(a) && AtDown(a, s) && HasSem(a.locks, s) && SemAt(a.locks, s).value > 0
    ensures Inv(Taken(a, s))
  {
    var task, l' := a.tasks[a.cur].(pc := AfterDown(s)), Taken(a, s).locks[KeyOf(s)];
    assert TaskOk(a.locks, a.tasks[a.cur]);
    TakenSync(a, s, task, l');
    TakenIs(a, s, task, l');
    LocalKeeps(a, task, KeyOf(s), l');
  }

  /** Semaphores never leave {0, 1}. */
  lemma BinarySemaphores(a: Kernel, s: SemId)
    requires SyncOk(a.locks, a.tasks) && HasSem(a.locks, s)
    ensures SemAt(a.locks, s).value <= 1
  {
    assert SyncAt(a.locks[KeyOf(s)], a.tasks, KeyOf(s));
  }

  lemma QueuedKeeps(a: Kernel, s: SemId)
    requires Inv(a) && AtDown(a, s) && HasSem(a.locks, s) && SemAt(a.locks, s).value == 0
    ensures QueueIn(Queued(a, s)) && Inv(Block(Queued(a, s)))
  {
    QueuedSync(a, s);
    QueuedSched(a, s);
    BlockKeeps(Queued(a, s));
  }

  lemma BlockKeeps(q: Kernel)
    requires q.cur in q.tasks && SyncOk(q.locks, q.tasks) && SchedCore(SetStatus(q, q.cur, Blocked))
    ensures QueueIn(q) && Inv(Block(q))
  {
    var b := SetStatus(q, q.cur, Blocked);
    SyncFrame(q.locks, q.tasks, b.tasks);
    ScheduleKeeps(b);
  }

  lemma DownPassIs(a: Kernel, s: SemId)
    requires SyncOk(a.locks, a.tasks) && Shape(a) && AtDown(a, s) && HasSem(a.locks, s)
    ensures SemAt(a.locks, s).value <= 1 && QueueIn(Queued(a, s))
    ensures DownPass(a, s) == if SemAt(a.locks, s).value == 0 then Block(Queued(a, s)) else Taken(a, s)
  {
    BinarySemaphores(a, s);
  }

  /** One pass of sema_down's loop keeps the invariant; neither of its assertions fires. */
  lemma DownPassKeeps(a: Kernel, s: SemId)
    requires Inv(a) && Shape(a) && AtDown(a, s)
    ensures Inv(DownPass(a, s))
  {
    assert TaskOk(a.locks, a.tasks[a.cur]);
    DownPassIs(a, s);
    if SemAt(a.locks, s).value == 0 {
      QueuedKeeps(a, s);
    } else {
      TakenKeeps(a, s);
    }
  }

  // ---------------------------------------------------------------- sema_up and the interrupt handler

  lemma LeaveOne(sem: Sem, tasks: Tasks, s: SemId, task: Task)
    requires WaitersOf(sem, tasks, s) && sem.waiters != []
    ensures var t := sem.waiters[0];
            t in tasks && tasks[t].status == Blocked && tasks[t].pc == DownRetry(s) && t !in sem.waiters[1..]
            && WaitersOf(Sem(1, sem.waiters[1..]), tasks[t := task], s)
  {
    assert sem.waiters[0] in sem.waiters;
    forall u | u in sem.waiters[1..] ensures u in sem.waiters && u != sem.waiters[0] {
    }
  }

  /** The first waiter leaves the list and becomes ready. */
  lemma LeaveWaiters(locks: Locks, tasks: Tasks, idle: Tid, s: SemId)
    requires HasSem(locks, s) && SemAt(locks, s).waiters != []
    requires IdleOk(tasks, idle) && BlockedOk(tasks, idle, locks) && WaitersOk(tasks, locks)
    ensures var sem := SemAt(locks, s);
            var t := sem.waiters[0];
            var locks' := SetSem(locks, s, Sem(1, sem.waiters[1..]));
            t in tasks && tasks[t].status == Blocked && tasks[t].pc == DownRetry(s) && t !in sem.waiters[1..]
            && var tasks' := tasks[t := tasks[t].(status := Ready)];
               IdleOk(tasks', idle) && BlockedOk(tasks', idle, locks') && WaitersOk(tasks', locks')
  {
    var sem := SemAt(locks, s);
    var t := sem.waiters[0];
    var locks' := SetSem(locks, s, Sem(1, sem.waiters[1..]));
    assert WaitersAt(locks[KeyOf(s)], tasks, KeyOf(s));
    assert t in sem.waiters;
    var task := tasks[t].(status := Ready);
    LeaveOne(sem, tasks, s, task);
    forall j | j in locks' ensures WaitersAt(locks'[j], tasks[t := task], j) {
      assert WaitersAt(locks[j], tasks, j);
    }
    forall u | u in tasks && tasks[u].status == Blocked && u != idle && u != t
      ensures tasks[u].pc.DownRetry? && HasSem(locks', tasks[u].pc.s) && u in SemAt(locks', tasks[u].pc.s).waiters
    {
      assert forall v :: v in sem.waiters <==> v == t || v in sem.waiters[1..];
    }
  }

  /** sema_up after the caller's own bookkeeping: `a` satisfies everything except that lock k is
      as SyncAt wants it only once the value is 1 and the first waiter is off the list. */
  lemma UpKeeps(a: Kernel, s: SemId)
    requires SchedOk(a) && HasSem(a.locks, s) && SemAt(a.locks, s).value == 0
    requires forall t :: t in SemAt(a.locks, s).waiters ==> t in a.tasks
    requires var w := SemAt(a.locks, s).waiters;
             SyncOk(SetSem(a.locks, s, Sem(1, if w == [] then [] else w[1..])), a.tasks)
    ensures Inv(Up(a, s))
  {
    var sem, k := SemAt(a.locks, s), KeyOf(s);
    if sem.waiters == [] {
      RunningMoves(a.locks, a.tasks, a.cur, a.tasks[a.cur], a.idle, k, Up(a, s).locks[k]);
      TasksLocal(a.locks, a.tasks, a.cur, a.tasks[a.cur], k, Up(a, s).locks[k]);
      assert a.tasks[a.cur := a.tasks[a.cur]] == a.tasks;
    } else {
      var t := sem.waiters[0];
      LeaveWaiters(a.locks, a.tasks, a.idle, s);
      var locks' := SetSem(a.locks, s, Sem(1, sem.waiters[1..]));
      UnblockWaiter(a, t, locks');
      assert TaskOk(a.locks, a.tasks[t]);
      TasksLocal(a.locks, a.tasks, t, a.tasks[t].(status := Ready), k, locks'[k]);
      SyncFrame(locks', a.tasks, a.tasks[t := a.tasks[t].(status := Ready)]);
    }
  }

  lemma UnblockWaiter(a: Kernel, t: Tid, locks': Locks)
    requires SchedOk(a) && t in a.tasks && a.tasks[t].status == Blocked
    ensures Unblock(a.(locks := locks'), t)
            == a.(locks := locks', tasks := a.tasks[t := a.tasks[t].(status := Ready)], ready := [t] + a.ready)
    ensures QueueOk(a.tasks[t := a.tasks[t].(status := Ready)], [t] + a.ready)
    ensures StatesOk(a.tasks[t := a.tasks[t].(status := Ready)], a.cur) && t != a.cur
  {
    Enqueue(a.tasks, a.ready, t, a.tasks[t].(status := Ready), [t] + a.ready);
  }

  lemma UpEntrySync(l: Lock, l': Lock, tasks: Tasks, t: Tid, task: Task, k: nat)
    requires SyncAt(l, tasks, k) && WaitersOf(l.sem, tasks, LockSem(k)) && t in tasks
    requires tasks[t].pc == AtLock(UpEntry, k)
    requires task == tasks[t].(pc := Outside)
    requires l' == l.(owner := None, sem := Sem(1, if l.sem.waiters == [] then [] else l.sem.waiters[1..]))
    ensures l.sem.value == 0 && SyncAt(l', tasks[t := task], k)
  {
    assert Held(task, k) == Held(tasks[t], k);
    assert l.owner == Some(t);
    if l.sem.waiters != [] {
      LeaveOne(l.sem, tasks, LockSem(k), tasks[l.sem.waiters[0]]);
      assert Woken(tasks[t := task], l'.sem.waiters, LockSem(k), l.sem.waiters[0]);
    }
    if l.channel.Some? { OtherWakes(l.channel.value.done, tasks, t, task, DoneSem(k)); }
  }

  /** Between giving up the ownership and sema_up's own update. */
  lemma UpEntryMid(a: Kernel, k: nat, task: Task, m: Kernel, sem: Sem)
    requires Inv(a) && k in a.locks && a.tasks[a.cur].pc == AtLock(UpEntry, k)
    requires task == a.tasks[a.cur].(pc := Outside) && TaskOk(a.locks, task)
    requires m == a.(tasks := a.tasks[a.cur := task], locks := a.locks[k := a.locks[k].(owner := None)])
    requires var w := a.locks[k].sem.waiters; sem == Sem(1, if w == [] then [] else w[1..])
    ensures SchedOk(m) && m.locks[k].sem.value == 0 && SyncOk(SetSem(m.locks, LockSem(k), sem), m.tasks)
  {
    var l := a.locks[k];
    LocalSched(a, task, k, l.(owner := None));
    UpEntryAfter(a.locks, a.tasks, a.cur, task, k, l.(owner := None, sem := sem));
  }

  lemma UpEntryAfter(locks: Locks, tasks: Tasks, t: Tid, task: Task, k: nat, l': Lock)
    requires SyncOk(locks, tasks) && WaitersOk(tasks, locks) && k in locks && t in tasks
    requires tasks[t].pc == AtLock(UpEntry, k)
    requires task == tasks[t].(pc := Outside)
    requires var w := locks[k].sem.waiters;
             l' == locks[k].(owner := None, sem := Sem(1, if w == [] then [] else w[1..]))
    ensures locks[k].sem.value == 0
    ensures SyncOk(SetSem(locks[k := locks[k].(owner := None)], LockSem(k), l'.sem), tasks[t := task])
  {
    assert SyncAt(locks[k], tasks, k) && WaitersAt(locks[k], tasks, k);
    UpEntrySync(locks[k], l', tasks, t, task, k);
    LocalSync(locks, tasks, t, task, k, l');
    assert SetSem(locks[k := locks[k].(owner := None)], LockSem(k), l'.sem) == locks[k := l'];
  }

  lemma UpEntryKeeps(a: Kernel, call: Call)
    requires Inv(a) && Shape(a) && a.tasks[a.cur].pc.AtLock? && a.tasks[a.cur].pc.stage == UpEntry
    ensures Inv(Act(a, call))
  {
    var k, task := a.tasks[a.cur].pc.k, a.tasks[a.cur].(pc := Outside);
    assert TaskOk(a.locks, a.tasks[a.cur]);
    var l := a.locks[k];
    var m := a.(tasks := a.tasks[a.cur := task], locks := a.locks[k := l.(owner := None)]);
    var sem := Sem(1, if l.sem.waiters == [] then [] else l.sem.waiters[1..]);
    UpEntryMid(a, k, task, m, sem);
    assert WaitersExist(l, a.tasks);
    UpKeeps(m, LockSem(k));
  }

  lemma DiskSync(l: Lock, l': Lock, tasks: Tasks, c: nat)
    requires SyncAt(l, tasks, c) && l.channel.Some? && l.channel.value.expecting
    requires WaitersOf(l.channel.value.done, tasks, DoneSem(c))
    requires var done := l.channel.value.done;
             l' == l.(channel := Some(Channel(false, Sem(1, if done.waiters == [] then [] else done.waiters[1..]))))
    ensures l.channel.value.done.value == 0 && SyncAt(l', tasks, c)
  {
    var done := l.channel.value.done;
    if done.waiters != [] {
      LeaveOne(done, tasks, DoneSem(c), tasks[done.waiters[0]]);
      assert Woken(tasks, done.waiters[1..], DoneSem(c), done.waiters[0]);
    }
  }

  /** The interrupt handler, whenever it comes and whether or not it was asked for. */
  lemma DiskKeeps(a: Kernel, c: nat)
    requires Inv(a) && Shape(a)
    ensures Inv(DiskInterrupt(a, c))
  {
    if IsChannel(a.locks, c) && a.locks[c].channel.value.expecting {
      var l, task := a.locks[c], a.tasks[a.cur];
      assert SyncAt(l, a.tasks, c) && WaitersAt(l, a.tasks, c);
      var m := a.(locks := SetExpecting(a.locks, c, false));
      assert a.tasks[a.cur := task] == a.tasks;
      assert TaskOk(a.locks, task);
      LocalSched(a, task, c, m.locks[c]);
      var done := l.channel.value.done;
      var sem := Sem(1, if done.waiters == [] then [] else done.waiters[1..]);
      var l' := l.(channel := Some(Channel(false, sem)));
      DiskSync(l, l', a.tasks, c);
      LocalSync(a.locks, a.tasks, a.cur, task, c, l');
      assert SetSem(m.locks, DoneSem(c), sem) == a.locks[c := l'];
      UpKeeps(m, DoneSem(c));
    }
  }

  // ---------------------------------------------------------------- outside, idle, timer and yield

  lemma EnterSync(l: Lock, tasks: Tasks, t: Tid, task: Task, k: nat)
    requires SyncAt(l, tasks, k) && t in tasks && tasks[t].pc == Outside
    requires task == tasks[t].(pc := task.pc, io := task.io)
    requires task.pc == AtLock(AcquireEntry, k) || task.pc == AtLock(ReleaseEntry, k)
    ensures SyncAt(l, tasks[t := task], k)
  {
    assert Held(task, k) == Held(tasks[t], k);
    assert LockMove(l, l, t, task, k);
    LockMoveSync(l, l, tasks, t, task, k);
  }

  lemma EnterKeeps(a: Kernel, k: nat, task: Task)
    requires Inv(a) && k in a.locks && a.tasks[a.cur].pc == Outside
    requires task == a.tasks[a.cur].(pc := task.pc, io := task.io) && TaskOk(a.locks, task)
    requires task.pc == AtLock(AcquireEntry, k) || task.pc == AtLock(ReleaseEntry, k)
    ensures Inv(a.(tasks := a.tasks[a.cur := task]))
  {
    EnterSync(a.locks[k], a.tasks, a.cur, task, k);
    LocalKeeps(a, task, k, a.locks[k]);
    assert a.locks[k := a.locks[k]] == a.locks;
  }

  lemma StartSync(l: Lock, tasks: Tasks, t: Tid, task: Task, k: nat)
    requires SyncAt(l, tasks, k) && WaitersAt(l, tasks, k) && t !in tasks && task.pc == Outside && task.held == map[]
    ensures SyncAt(l, tasks[t := task], k) && WaitersAt(l, tasks[t := task], k)
  {
    StartWakes(l.sem, tasks, t, task, LockSem(k));
    if l.channel.Some? { StartWakes(l.channel.value.done, tasks, t, task, DoneSem(k)); }
  }

  lemma StartWakes(sem: Sem, tasks: Tasks, t: Tid, task: Task, s: SemId)
    requires Wakes(sem, tasks, s) && t !in tasks
    ensures Wakes(sem, tasks[t := task], s)
  {
    if sem.value > 0 && sem.waiters != [] {
      var u :| Woken(tasks, sem.waiters, s, u);
      assert Woken(tasks[t := task], sem.waiters, s, u);
    }
  }

  lemma StartKeeps(a: Kernel, t: Tid, task: Task)
    requires Inv(a) && t !in a.tasks && task.status == Ready && task.pc == Outside && task.io == None
    requires task.held == map[]
    ensures Inv(a.(tasks := a.tasks[t := task], ready := a.ready + [t]))
  {
    var tasks' := a.tasks[t := task];
    Enqueue(a.tasks, a.ready, t, task, a.ready + [t]);
    forall k | k in a.locks ensures SyncAt(a.locks[k], tasks', k) && WaitersAt(a.locks[k], tasks', k) {
      assert SyncAt(a.locks[k], a.tasks, k) && WaitersAt(a.locks[k], a.tasks, k);
      StartSync(a.locks[k], a.tasks, t, task, k);
    }
    forall u | u in tasks' ensures TaskOk(a.locks, tasks'[u]) {
      assert u != t ==> TaskOk(a.locks, a.tasks[u]);
    }
    assert BlockedOk(tasks', a.idle, a.locks);
  }

  lemma IdleKeeps(a: Kernel)
    requires Inv(a) && a.tasks[a.cur].pc == IdleLoop
    ensures Inv(Block(a))
  {
    var b := SetStatus(a, a.cur, Blocked);
    BlockingFrame(a.tasks, a.ready, a.cur, b.tasks[a.cur]);
    TasksFrame(a.locks, a.tasks, b.tasks);
    SyncFrame(a.locks, a.tasks, b.tasks);
    forall k | k in a.locks ensures WaitersAt(a.locks[k], b.tasks, k) {
      assert WaitersAt(a.locks[k], a.tasks, k);
    }
    assert BlockedOk(b.tasks, b.idle, b.locks);
    ScheduleKeeps(b);
  }

  lemma SliceKeeps(a: Kernel, task: Task)
    requires Inv(a) && task == a.tasks[a.cur].(ticks := task.ticks)
    ensures Inv(a.(tasks := a.tasks[a.cur := task]))
  {
    RunStateFrame(a.tasks, a.cur, task, a.idle, a.locks);
    SyncFrame(a.locks, a.tasks, a.tasks[a.cur := task]);
  }

  lemma TimerIs(a: Kernel)
    requires QueueIn(a)
    ensures var task := a.tasks[a.cur];
            Timer(a) == if task.ticks == 0 then Schedule(a)
                else a.(tasks := a.tasks[a.cur := task.(ticks := task.ticks - 1)])
  {
  }

  lemma TimerKeeps(a: Kernel)
    requires Inv(a) && QueueIn(a)
    ensures Inv(Timer(a))
  {
    TimerIs(a);
    ScheduleKeeps(a);
    SliceKeeps(a, a.tasks[a.cur].(ticks := Pred(a.tasks[a.cur].ticks)));
  }

  lemma YieldKeeps(a: Kernel)
    requires Inv(a)
    ensures Inv(Yield(a))
  {
    assert a.cur !in a.ready;
    var task := a.tasks[a.cur].(status := Ready);
    var b := SetStatus(a, a.cur, Ready).(ready := a.ready + [a.cur]);
    Enqueue(a.tasks, a.ready, a.cur, task, a.ready + [a.cur]);
    RunStateFrame(a.tasks, a.cur, task, a.idle, a.locks);
    SyncFrame(a.locks, a.tasks, b.tasks);
    ScheduleKeeps(b);
  }

  // ---------------------------------------------------------------- all steps, all runs

  lemma OutsideKeeps(a: Kernel, call: Call)
    requires Inv(a) && Shape(a) && a.tasks[a.cur].pc == Outside
    ensures Inv(Act(a, call))
  {
    var task := a.tasks[a.cur];
    assert TaskOk(a.locks, task);
    match call
    case Acquire(k) => if k in a.locks { EnterKeeps(a, k, task.(pc := AtLock(AcquireEntry, k))); }
    case Release(k) => if k in a.locks { EnterKeeps(a, k, task.(pc := AtLock(ReleaseEntry, k))); }
    case Io(c, n) => if IsChannel(a.locks, c) { EnterKeeps(a, c, task.(pc := AtLock(AcquireEntry, c), io := Some(n))); }
    case Start(t, p) => if t !in a.tasks { StartKeeps(a, t, Task(Ready, p, p, Outside, None, map[])); }
  }

  /** The one assertion a program can trip: lock_release by a thread that does not hold the lock. */
  ghost predicate BadRelease(st: Kernel) {
    && st.cur in st.tasks && st.tasks[st.cur].pc.AtLock? && st.tasks[st.cur].pc.stage == ReleaseEntry
    && Held(st.tasks[st.cur], st.tasks[st.cur].pc.k) == 0
  }

  lemma ActKeeps(a: Kernel, call: Call)
    requires Inv(a) && Shape(a)
    ensures if BadRelease(a) then Act(a, call) == a.(panic := Some(HolderAssert)) else Inv(Act(a, call))
  {
    match a.tasks[a.cur].pc
    case Outside => OutsideKeeps(a, call);
    case IdleLoop => IdleKeeps(a);
    case DownEntry(s) => DownPassKeeps(a, s);
    case DownRetry(s) => DownPassKeeps(a, s);
    case AtLock(stage, k) => if stage == UpEntry { UpEntryKeeps(a, call); } else { LockStatementKeeps(a, call); }
    case AtIo(step, c) => IoStatementKeeps(a, call);
  }

  /** Every step keeps the invariant; a step fails an assertion exactly when the current thread
      releases a lock it does not hold, and then it is the holder assertion. */
  lemma StepKeeps(a: Kernel, ev: Event)
    requires Inv(a) && Enabled(a, ev)
    ensures if ev.Go? && BadRelease(a) then Step(a, ev) == a.(panic := Some(HolderAssert)) else Inv(Step(a, ev))
  {
    match ev
    case Tick => TimerKeeps(a);
    case Disk(c) => DiskKeeps(a, c);
    case GiveUp => YieldKeeps(a);
    case Go(call) => ActKeeps(a, call);
  }

  lemma BootInv(st: Kernel)
    requires Boot(st)
    ensures Inv(st)
  {
    assert forall t :: t in st.tasks <==> t == st.cur || t == st.idle;
    forall k | k in st.locks ensures SyncAt(st.locks[k], st.tasks, k) && WaitersAt(st.locks[k], st.tasks, k) {
      var l := st.locks[k];
      assert l.(channel := None) == Lock(None, 0, Sem(1, []), None, None);
    }
  }
}
