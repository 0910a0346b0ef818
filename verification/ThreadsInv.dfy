/** What every step of the machine in Threads keeps: the scheduler's bookkeeping and, lock by
    lock, who owns it, who waits for it and who is on the way. */
module ThreadsInv {
  import opened Threads

  ghost predicate NoDup<T>(s: seq<T>) {
    forall i, j :: 0 <= i < j < |s| ==> s[i] != s[j]
  }

  // ---------------------------------------------------------------- the scheduler's part

  /** The ready list holds each ready thread once and nothing else. */
  ghost predicate QueueOk(tasks: Tasks, ready: seq<Tid>) {
    && NoDup(ready)
    && (forall t :: t in ready ==> t in tasks && tasks[t].status == Ready)
    && (forall t :: t in tasks && tasks[t].status == Ready ==> t in ready)
  }

  ghost predicate StatesOk(tasks: Tasks, cur: Tid) {
    && (forall t :: t in tasks ==> tasks[t].status in {Running, Ready, Blocked})
    && (forall t :: t in tasks && tasks[t].status == Running ==> t == cur)
  }

  /** Idle is the one thread at the idle loop. */
  ghost predicate IdleOk(tasks: Tasks, idle: Tid) {
    forall t :: t in tasks ==> (tasks[t].pc == IdleLoop <==> t == idle)
  }

  /** Nobody but idle is blocked outside sema_down, and a blocked thread is on the waiters of the
      semaphore it is downing. */
  ghost predicate BlockedOk(tasks: Tasks, idle: Tid, locks: Locks) {
    forall t :: t in tasks && tasks[t].status == Blocked && t != idle ==>
      tasks[t].pc.DownRetry? && HasSem(locks, tasks[t].pc.s) && t in SemAt(locks, tasks[t].pc.s).waiters
  }

  /** Waiters are blocked inside sema_down on that very semaphore. */
  ghost predicate WaitersOf(sem: Sem, tasks: Tasks, s: SemId) {
    && NoDup(sem.waiters)
    && (forall t :: t in sem.waiters ==> t in tasks && tasks[t].status == Blocked && tasks[t].pc == DownRetry(s))
  }

  ghost predicate WaitersAt(l: Lock, tasks: Tasks, k: nat) {
    && WaitersOf(l.sem, tasks, LockSem(k))
    && (l.channel.Some? ==> WaitersOf(l.channel.value.done, tasks, DoneSem(k)))
  }

  ghost predicate TasksOk(tasks: Tasks, locks: Locks) {
    forall t :: t in tasks ==> TaskOk(locks, tasks[t])
  }

  ghost predicate WaitersOk(tasks: Tasks, locks: Locks) {
    forall k :: k in locks ==> WaitersAt(locks[k], tasks, k)
  }

  /** The bookkeeping, also in the middle of an atomic section: the current thread may already be
      marked ready or blocked. */
  ghost predicate SchedCore(st: Kernel) {
    && st.panic.None? && st.cur in st.tasks && st.idle in st.tasks
    && QueueOk(st.tasks, st.ready) && StatesOk(st.tasks, st.cur) && IdleOk(st.tasks, st.idle)
    && BlockedOk(st.tasks, st.idle, st.locks) && WaitersOk(st.tasks, st.locks) && TasksOk(st.tasks, st.locks)
  }

  ghost predicate SchedOk(st: Kernel) {
    SchedCore(st) && st.tasks[st.cur].status == Running
  }

  lemma CoreHasShape(st: Kernel)
    requires SchedCore(st)
    ensures Shape(st)
  {
    forall k | k in st.locks ensures WaitersExist(st.locks[k], st.tasks) {
      assert WaitersAt(st.locks[k], st.tasks, k);
    }
  }

  // ---------------------------------------------------------------- one lock

  /** Points at which the thread must be the owner of lock k. */
  ghost predicate NeedsOwner(pc: Pc, k: nat) {
    match pc
    case AtLock(stage, j) => j == k && stage != AcquireEntry && stage != ReleaseEntry
    case AtIo(_, c) => c == k
    case DownEntry(s) => s == DoneSem(k)
    case DownRetry(s) => s == DoneSem(k)
    case _ => false
  }

  /** The fields of lock k as its owner's position dictates. */
  ghost predicate OwnerOk(l: Lock, t: Tid, task: Task, k: nat) {
    && task.pc != DownEntry(LockSem(k)) && task.pc != DownRetry(LockSem(k))
    && (if task.pc == AtLock(SetHolder, k) || task.pc == AtLock(UpEntry, k) then l.holder == None && l.repeat == 0
          && Held(task, k) == 0
        else if task.pc == AtLock(SetRepeat, k) then l.holder == Some(t) && l.repeat == 0 && Held(task, k) == 0
        else if task.pc == AtLock(ClearHolder, k) then l.holder == Some(t) && l.repeat == 1 && Held(task, k) == 0
        else if task.pc == AtLock(ZeroRepeat, k) then l.holder == None && l.repeat == 1 && Held(task, k) == 0
        else l.holder == Some(t) && l.repeat == Held(task, k) > 0 && (task.pc == AtLock(DecRepeat, k) ==> l.repeat > 1))
  }

  /** Nobody but the owner holds the lock or stands at a point reserved for the owner; the fields
      are as the owner's position dictates. */
  ghost predicate Claims(l: Lock, tasks: Tasks, k: nat) {
    && (match l.owner
        case None => l.sem.value == 1 && l.holder == None && l.repeat == 0
        case Some(t) => l.sem.value == 0 && t in tasks && OwnerOk(l, t, tasks[t], k))
    && (forall t :: t in tasks && l.owner != Some(t) ==> Held(tasks[t], k) == 0 && !NeedsOwner(tasks[t].pc, k))
  }

  /** A command has been announced (expecting_intr set) and its completion not yet awaited. */
  ghost predicate Pending(pc: Pc, c: nat) {
    pc == AtIo(CmdOut, c) || pc == AtIo(Issued, c) || pc == DownEntry(DoneSem(c)) || pc == DownRetry(DoneSem(c))
  }

  ghost function PendingCount(owner: Option<Tid>, tasks: Tasks, c: nat): nat {
    if owner.Some? && owner.value in tasks && Pending(tasks[owner.value].pc, c) then 1 else 0
  }

  /** The interrupt still expected plus the completion already signalled. */
  ghost predicate Handshake(l: Lock, tasks: Tasks, c: nat) {
    l.channel.Some? ==>
      (if l.channel.value.expecting then 1 else 0) + l.channel.value.done.value == PendingCount(l.owner, tasks, c)
  }

  /** A thread inside sema_down(s) that has been taken off the waiters. */
  ghost predicate Woken(tasks: Tasks, waiters: seq<Tid>, s: SemId, t: Tid) {
    t in tasks && tasks[t].pc == DownRetry(s) && t !in waiters
  }

  ghost predicate Wakes(sem: Sem, tasks: Tasks, s: SemId) {
    sem.value > 0 && sem.waiters != [] ==> exists t :: Woken(tasks, sem.waiters, s, t)
  }

  ghost predicate SyncAt(l: Lock, tasks: Tasks, k: nat) {
    && Claims(l, tasks, k) && Handshake(l, tasks, k) && Wakes(l.sem, tasks, LockSem(k))
    && (l.channel.Some? ==> Wakes(l.channel.value.done, tasks, DoneSem(k)))
  }

  ghost predicate SyncOk(locks: Locks, tasks: Tasks) {
    forall k :: k in locks ==> SyncAt(locks[k], tasks, k)
  }

  ghost predicate Inv(st: Kernel) {
    SchedOk(st) && SyncOk(st.locks, st.tasks)
  }

  // ---------------------------------------------------------------- run states change

  /** The threads stand where they stood and hold what they held. */
  ghost predicate SameProgram(a: Tasks, b: Tasks) {
    a.Keys == b.Keys
    && forall t :: t in a ==> b[t] == a[t].(status := b[t].status, ticks := b[t].ticks)
  }

  lemma WakesFrame(sem: Sem, a: Tasks, b: Tasks, s: SemId)
    requires SameProgram(a, b) && Wakes(sem, a, s)
    ensures Wakes(sem, b, s)
  {
    if sem.value > 0 && sem.waiters != [] {
      var t :| Woken(a, sem.waiters, s, t);
      assert Woken(b, sem.waiters, s, t);
    }
  }

  lemma SyncFrame(locks: Locks, a: Tasks, b: Tasks)
    requires SameProgram(a, b) && SyncOk(locks, a)
    ensures SyncOk(locks, b)
  {
    forall k | k in locks ensures SyncAt(locks[k], b, k) {
      assert SyncAt(locks[k], a, k);
      WakesFrame(locks[k].sem, a, b, LockSem(k));
      if locks[k].channel.Some? { WakesFrame(locks[k].channel.value.done, a, b, DoneSem(k)); }
    }
  }

  lemma TasksFrame(locks: Locks, a: Tasks, b: Tasks)
    requires SameProgram(a, b) && TasksOk(a, locks)
    ensures TasksOk(b, locks)
  {
    forall t | t in b ensures TaskOk(locks, b[t]) {
      assert TaskOk(locks, a[t]);
    }
  }

  /** Entering the ready list, at either end. */
  lemma Enqueue(tasks: Tasks, ready: seq<Tid>, t: Tid, task: Task, ready': seq<Tid>)
    requires QueueOk(tasks, ready) && t !in ready && task.status == Ready
    requires ready' == ready + [t] || ready' == [t] + ready
    ensures QueueOk(tasks[t := task], ready')
  {
    assert forall u :: u in ready' <==> u == t || u in ready;
  }

  /** Leaving it from the head. */
  lemma Dequeue(tasks: Tasks, ready: seq<Tid>, task: Task)
    requires QueueOk(tasks, ready) && ready != [] && task.status != Ready
    ensures ready[0] in tasks && tasks[ready[0]].status == Ready
    ensures QueueOk(tasks[ready[0] := task], ready[1..])
  {
    assert ready[0] in ready;
    assert forall u :: u in ready <==> u == ready[0] || u in ready[1..];
  }

  /** A change of run state that neither blocks nor unblocks anybody leaves the waiters alone. */
  lemma RunStateFrame(tasks: Tasks, t: Tid, task: Task, idle: Tid, locks: Locks)
    requires t in tasks && tasks[t].status != Blocked && task.status != Blocked && SameProgram(tasks, tasks[t := task])
    requires IdleOk(tasks, idle) && BlockedOk(tasks, idle, locks) && WaitersOk(tasks, locks) && TasksOk(tasks, locks)
    ensures IdleOk(tasks[t := task], idle) && BlockedOk(tasks[t := task], idle, locks)
    ensures WaitersOk(tasks[t := task], locks) && TasksOk(tasks[t := task], locks)
  {
    TasksFrame(locks, tasks, tasks[t := task]);
    forall k | k in locks ensures WaitersAt(locks[k], tasks[t := task], k) {
      assert WaitersAt(locks[k], tasks, k);
    }
  }

  // ---------------------------------------------------------------- schedule

  /** The part of schedule that puts a still running thread back in line. */
  ghost function Requeued(st: Kernel): Kernel
    requires st.cur in st.tasks
  {
    var task := st.tasks[st.cur];
    if task.status == Running
    then SetTask(st, st.cur, task.(ticks := task.priority, status := Ready)).(ready := st.ready + [st.cur])
    else st
  }

  ghost predicate SameButSched(a: Kernel, b: Kernel) {
    SameProgram(a.tasks, b.tasks) && a.idle == b.idle && a.locks == b.locks
  }

  lemma RequeuedOk(st: Kernel)
    requires SchedCore(st)
    ensures SchedCore(Requeued(st)) && SameButSched(st, Requeued(st))
    ensures Requeued(st).cur == st.cur && Requeued(st).tasks[st.cur].status != Running
  {
    var task := st.tasks[st.cur];
    if task.status == Running {
      var task' := task.(ticks := task.priority, status := Ready);
      RunStateFrame(st.tasks, st.cur, task', st.idle, st.locks);
      Enqueue(st.tasks, st.ready, st.cur, task', st.ready + [st.cur]);
    }
  }

  lemma DispatchOk(st: Kernel, b: Kernel)
    requires SchedCore(st) && st.tasks[st.cur].status != Running && st.ready != []
    requires st.ready[0] in st.tasks
    requires b == SetStatus(st, st.ready[0], Running).(ready := st.ready[1..], cur := st.ready[0])
    ensures SchedOk(b) && SameButSched(st, b)
  {
    var next := st.ready[0];
    var task := st.tasks[next].(status := Running);
    Dequeue(st.tasks, st.ready, task);
    RunStateFrame(st.tasks, next, task, st.idle, st.locks);
  }

  /** With an empty ready list and the current thread not running, idle is blocked, so that
      waking it succeeds. */
  lemma WithIdle(st: Kernel) returns (b: Kernel)
    requires SchedCore(st) && st.tasks[st.cur].status != Running
    ensures st.ready == [] ==> st.tasks[st.idle].status == Blocked
    ensures b == if st.ready == [] then Unblock(st, st.idle) else st
    ensures SchedCore(b) && b.ready != [] && b.tasks[b.cur].status != Running && SameButSched(st, b)
  {
    b := st;
    if st.ready == [] {
      b := Unblock(st, st.idle);
      var task := st.tasks[st.idle].(status := Ready);
      assert b == SetTask(st, st.idle, task).(ready := [st.idle]);
      Enqueue(st.tasks, st.ready, st.idle, task, [st.idle]);
      TasksFrame(st.locks, st.tasks, b.tasks);
      forall k | k in st.locks ensures WaitersAt(st.locks[k], b.tasks, k) {
        assert WaitersAt(st.locks[k], st.tasks, k);
      }
    }
  }

  /** schedule in three moves: requeue, wake idle if nobody is ready, dispatch the head. */
  lemma ScheduleMoves(st: Kernel, st1: Kernel, st2: Kernel)
    requires SchedCore(st) && SchedCore(st1) && SchedCore(st2) && st1 == Requeued(st)
    requires st2 == if st1.ready == [] then Unblock(st1, st1.idle) else st1
    requires st2.ready != []
    ensures st2.ready[0] in st2.tasks
    ensures Schedule(st) == SetStatus(st2, st2.ready[0], Running).(ready := st2.ready[1..], cur := st2.ready[0])
  {
    assert st2.ready[0] in st2.ready;
  }

  /** schedule never pops an empty list, finds idle blocked when it needs it, and leaves exactly
      one running thread. */
  lemma ScheduleOk(st: Kernel)
    requires SchedCore(st)
    ensures SchedOk(Schedule(st)) && SameButSched(st, Schedule(st))
  {
    var st1 := Requeued(st);
    RequeuedOk(st);
    var st2 := WithIdle(st1);
    ScheduleMoves(st, st1, st2);
    DispatchOk(st2, Schedule(st));
  }

  lemma ScheduleKeeps(st: Kernel)
    requires SchedCore(st) && SyncOk(st.locks, st.tasks)
    ensures Inv(Schedule(st))
  {
    ScheduleOk(st);
    SyncFrame(st.locks, st.tasks, Schedule(st).tasks);
  }
}
