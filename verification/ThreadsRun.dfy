/** What holds in every state of every run from boot. */
module ThreadsRun {
  import opened Threads
  import opened ThreadsInv
  import opened ThreadsStep

  /** Every state of every run satisfies the invariant; a run that panics does so in its last
      step, by releasing a lock that the thread does not hold. */
  lemma {:induction false} RunKeeps(states: seq<Kernel>, events: seq<Event>, n: nat)
    requires IsRun(states, events) && Boot(states[0]) && n <= |events|
    ensures forall i :: 0 <= i < n ==> Inv(states[i])
    ensures Inv(states[n])
              || (n > 0 && BadRelease(states[n - 1]) && states[n] == states[n - 1].(panic := Some(HolderAssert)))
  {
    if n == 0 {
      BootInv(states[0]);
    } else {
      RunKeeps(states, events, n - 1);
      assert Enabled(states[n - 1], events[n - 1]);
      StepKeeps(states[n - 1], events[n - 1]);
    }
  }

  /** A state of a run from boot in which the kernel has not stopped. */
  ghost predicate Reached(states: seq<Kernel>, events: seq<Event>, i: nat) {
    IsRun(states, events) && Boot(states[0]) && i <= |events| && states[i].panic.None?
  }

  lemma ReachedInv(states: seq<Kernel>, events: seq<Event>, i: nat)
    requires Reached(states, events, i)
    ensures Inv(states[i]) && Shape(states[i])
  {
    RunKeeps(states, events, i);
    CoreHasShape(states[i]);
  }

  // ---------------------------------------------------------------- mutual exclusion

  /** Two threads are never both between lock_acquire and the matching outermost lock_release. */
  lemma MutualExclusion(states: seq<Kernel>, events: seq<Event>, i: nat, t: Tid, u: Tid, k: nat)
    requires Reached(states, events, i)
    requires k in states[i].locks && t in states[i].tasks && u in states[i].tasks
    requires Held(states[i].tasks[t], k) > 0 && Held(states[i].tasks[u], k) > 0
    ensures t == u
  {
    ReachedInv(states, events, i);
    assert SyncAt(states[i].locks[k], states[i].tasks, k);
  }

  /** The lock's fields show who holds it and how deep, except between the statements of one call. */
  lemma RepeatIsDepth(states: seq<Kernel>, events: seq<Event>, i: nat, t: Tid, k: nat)
    requires Reached(states, events, i) && k in states[i].locks && t in states[i].tasks
    ensures var l := states[i].locks[k];
            var task := states[i].tasks[t];
            && (Held(task, k) > 0 ==> l.holder == Some(t) && l.repeat == Held(task, k) && l.sem.value == 0)
            && (l.holder == Some(t) ==> Held(task, k) > 0 || task.pc in {AtLock(SetRepeat, k), AtLock(ClearHolder, k)})
  {
    ReachedInv(states, events, i);
    assert SyncAt(states[i].locks[k], states[i].tasks, k);
  }

  /** The value, repeat, ready-list and blocked-state assertions never fire, whatever the programs
      do; the holder assertion fires only for a thread that does not hold the lock. */
  lemma OnlyBadReleasesPanic(states: seq<Kernel>, events: seq<Event>, i: nat)
    requires IsRun(states, events) && Boot(states[0]) && i <= |events| && states[i].panic.Some?
    ensures i == |events| > 0 && states[i].panic == Some(HolderAssert) && BadRelease(states[i - 1])
  {
    RunKeeps(states, events, |events|);
  }

  // ---------------------------------------------------------------- scheduler consistency

  ghost predicate Waiting(st: Kernel, t: Tid, s: SemId) {
    HasSem(st.locks, s) && t in SemAt(st.locks, s).waiters
  }

  /** Exactly one thread runs; the ready list is the ready threads; the one list tag of a thread is
      on one list at most; idle, when not running or ready, is blocked. */
  lemma SchedulerConsistent(states: seq<Kernel>, events: seq<Event>, i: nat)
    requires Reached(states, events, i)
    ensures var st := states[i];
            && (forall t :: t in st.tasks ==> (st.tasks[t].status == Running <==> t == st.cur))
            && NoDup(st.ready) && (forall t :: t in st.ready <==> t in st.tasks && st.tasks[t].status == Ready)
            && (forall t, s :: Waiting(st, t, s) ==>
                  t in st.tasks && t !in st.ready && t != st.cur && st.tasks[t].status == Blocked)
            && (forall t, s, s' :: Waiting(st, t, s) && Waiting(st, t, s') ==> s == s')
            && (forall s :: HasSem(st.locks, s) ==> NoDup(SemAt(st.locks, s).waiters))
            && st.idle in st.tasks
            && (st.idle !in st.ready && st.idle != st.cur ==> st.tasks[st.idle].status == Blocked)
  {
    ReachedInv(states, events, i);
    var st := states[i];
    forall s | HasSem(st.locks, s) ensures WaitersOf(SemAt(st.locks, s), st.tasks, s) {
      assert WaitersAt(st.locks[KeyOf(s)], st.tasks, KeyOf(s));
    }
  }

  // ---------------------------------------------------------------- no lost wakeup

  /** Interrupts are on: the current thread is outside sema_down's loop. */
  ghost predicate Preemptible(st: Kernel) {
    st.cur in st.tasks && !st.tasks[st.cur].pc.DownRetry?
  }

  /** With the semaphore free and threads waiting, a thread already taken off the waiters is ready
      and still inside sema_down: whoever barges in, somebody is on the way. */
  lemma NoLostWakeup(states: seq<Kernel>, events: seq<Event>, i: nat, s: SemId) returns (t: Tid)
    requires Reached(states, events, i) && HasSem(states[i].locks, s)
    requires Preemptible(states[i])
    requires SemAt(states[i].locks, s).value == 1 && SemAt(states[i].locks, s).waiters != []
    ensures t in states[i].ready && t in states[i].tasks && states[i].tasks[t].pc == DownRetry(s)
    ensures t !in SemAt(states[i].locks, s).waiters
  {
    ReachedInv(states, events, i);
    var st := states[i];
    assert SyncAt(st.locks[KeyOf(s)], st.tasks, KeyOf(s));
    t :| Woken(st.tasks, SemAt(st.locks, s).waiters, s, t);
  }

  /** A thread asleep on a lock has somebody to wake it: the lock's owner, who is still to run
      sema_up, or a woken thread that will take the lock and then does. */
  lemma SleeperHasWaker(states: seq<Kernel>, events: seq<Event>, i: nat, t: Tid, k: nat) returns (u: Tid)
    requires Reached(states, events, i) && Preemptible(states[i])
    requires Waiting(states[i], t, LockSem(k))
    ensures u in states[i].tasks && u != t
    ensures if states[i].locks[k].sem.value == 0
            then Held(states[i].tasks[u], k) > 0 || NeedsOwner(states[i].tasks[u].pc, k)
            else u in states[i].ready && states[i].tasks[u].pc == DownRetry(LockSem(k))
  {
    ReachedInv(states, events, i);
    var st := states[i];
    assert SyncAt(st.locks[k], st.tasks, k) && WaitersAt(st.locks[k], st.tasks, k);
    if st.locks[k].sem.value == 0 {
      u := OwnerIsAwake(st.locks[k], st.tasks, k, t);
    } else {
      u := NoLostWakeup(states, events, i, LockSem(k));
    }
  }

  lemma OwnerIsAwake(l: Lock, tasks: Tasks, k: nat, t: Tid) returns (u: Tid)
    requires SyncAt(l, tasks, k) && WaitersAt(l, tasks, k) && t in l.sem.waiters && l.sem.value == 0
    ensures u in tasks && u != t && (Held(tasks[u], k) > 0 || NeedsOwner(tasks[u].pc, k))
  {
    u := l.owner.value;
  }

  /** A ready thread is on no waiters list. */
  lemma ReadyWaitsNowhere(st: Kernel, t: Tid, s: SemId)
    requires Inv(st) && t in st.ready && HasSem(st.locks, s)
    ensures t !in SemAt(st.locks, s).waiters
  {
    assert WaitersAt(st.locks[KeyOf(s)], st.tasks, KeyOf(s));
  }

  lemma PoppedFirst(st: Kernel, b: Kernel, call: Call, k: nat)
    requires Inv(st) && st.tasks[st.cur].pc == AtLock(UpEntry, k) && k in st.locks && st.locks[k].sem.waiters != []
    requires Shape(st) && b == Act(st, call)
    ensures var w := st.locks[k].sem.waiters;
            && b.ready == [w[0]] + st.ready && k in b.locks && b.locks[k].sem == Sem(1, w[1..])
            && w[0] in b.tasks && b.tasks[w[0]].pc == DownRetry(LockSem(k)) && b.tasks[w[0]].status == Ready
  {
    FirstWaiter(st, k);
  }

  lemma FirstWaiter(st: Kernel, k: nat)
    requires Inv(st) && k in st.locks && st.tasks[st.cur].pc == AtLock(UpEntry, k) && st.locks[k].sem.waiters != []
    ensures var t := st.locks[k].sem.waiters[0];
            && t in st.tasks && st.tasks[t].status == Blocked && st.tasks[t].pc == DownRetry(LockSem(k))
            && t !in st.ready && t != st.cur
            && st.locks[k].sem.value == 0
  {
    assert SyncAt(st.locks[k], st.tasks, k) && WaitersAt(st.locks[k], st.tasks, k);
    var w := st.locks[k].sem.waiters;
    assert w[0] in w;
  }

  /** sema_up makes its first waiter the next thread to be dispatched, off every waiters list, and keeps the
      others in order; the woken thread goes back to the end if it finds the semaphore taken. */
  lemma WokenRunsNext(st: Kernel, b: Kernel, call: Call, k: nat)
    requires Inv(st) && st.tasks[st.cur].pc == AtLock(UpEntry, k) && k in st.locks && st.locks[k].sem.waiters != []
    requires Shape(st) && b == Act(st, call)
    ensures var w := st.locks[k].sem.waiters;
            && b.ready == [w[0]] + st.ready && k in b.locks && b.locks[k].sem == Sem(1, w[1..])
            && w[0] in b.tasks && b.tasks[w[0]].pc == DownRetry(LockSem(k)) && b.tasks[w[0]].status == Ready
            && forall s :: HasSem(b.locks, s) ==> w[0] !in SemAt(b.locks, s).waiters
  {
    PoppedFirst(st, b, call, k);
    UpEntryKeeps(st, call);
    forall s | HasSem(b.locks, s) ensures st.locks[k].sem.waiters[0] !in SemAt(b.locks, s).waiters {
      ReadyWaitsNowhere(b, st.locks[k].sem.waiters[0], s);
    }
  }

  lemma LoserRequeuesOnce(st: Kernel, s: SemId)
    requires Inv(st) && st.tasks[st.cur].pc == DownRetry(s) && HasSem(st.locks, s) && SemAt(st.locks, s).value == 0
    requires Shape(st)
    ensures var b := DownPass(st, s);
            && st.cur !in SemAt(st.locks, s).waiters && HasSem(b.locks, s)
            && SemAt(b.locks, s).waiters == SemAt(st.locks, s).waiters + [st.cur]
            && b.tasks[st.cur].pc == DownRetry(s) && b.tasks[st.cur].status == Blocked && b.cur != st.cur
  {
    assert WaitersAt(st.locks[KeyOf(s)], st.tasks, KeyOf(s));
    var q := SetStatus(Queued(st, s), st.cur, Blocked);
    QueuedSched(st, s);
    ScheduleOk(q);
    DownPassKeeps(st, s);
    assert DownPass(st, s) == Schedule(q);
    BlockedStays(q);
  }

  /** schedule leaves a blocked current thread blocked, unless it is idle. */
  lemma BlockedStays(st: Kernel)
    requires SchedCore(st) && st.tasks[st.cur].status == Blocked && st.cur != st.idle
    ensures Schedule(st).cur != st.cur && Schedule(st).tasks[st.cur].status == Blocked && Schedule(st).locks == st.locks
  {
    if st.ready != [] { assert st.ready[0] in st.ready; }
  }

  // ---------------------------------------------------------------- the disk handshake

  /** Expected interrupt plus signalled completion count exactly the one command that is issued
      and not yet awaited, and only the thread that holds the channel has one. */
  lemma DiskHandshake(states: seq<Kernel>, events: seq<Event>, i: nat, c: nat)
    requires Reached(states, events, i) && IsChannel(states[i].locks, c)
    ensures var ch := states[i].locks[c].channel.value;
            var tasks := states[i].tasks;
            && ch.done.value + (if ch.expecting then 1 else 0) <= 1
            && (ch.done.value + (if ch.expecting then 1 else 0) == 1 <==>
                  exists t :: t in tasks && Pending(tasks[t].pc, c))
            && (forall t :: t in tasks && Pending(tasks[t].pc, c) ==>
                  Held(tasks[t], c) > 0 && states[i].locks[c].holder == Some(t))
  {
    ReachedInv(states, events, i);
    var l, tasks := states[i].locks[c], states[i].tasks;
    assert SyncAt(l, tasks, c);
    forall t | t in tasks && Pending(tasks[t].pc, c)
      ensures l.owner == Some(t) && Held(tasks[t], c) > 0 && l.holder == Some(t)
    {
      assert NeedsOwner(tasks[t].pc, c);
    }
    if l.owner.Some? && Pending(tasks[l.owner.value].pc, c) {
      assert l.owner.value in tasks;
    }
  }

  /** A driver asleep on disk_done is still expecting its interrupt, and the interrupt, when it
      comes, puts it at the head of the ready list with the completion signalled. */
  lemma InterruptWakesDriver(states: seq<Kernel>, events: seq<Event>, i: nat, t: Tid, c: nat)
    requires Reached(states, events, i) && Waiting(states[i], t, DoneSem(c))
    ensures states[i].locks[c].channel.value.expecting
    ensures Shape(states[i])
    ensures var b := DiskInterrupt(states[i], c);
            b.panic.None? && b.ready == [t] + states[i].ready && IsChannel(b.locks, c)
                && b.locks[c].channel.value == Channel(false, Sem(1, []))
  {
    ReachedInv(states, events, i);
    var st := states[i];
    var l := st.locks[c];
    assert SyncAt(l, st.tasks, c) && WaitersAt(l, st.tasks, c);
    var w := l.channel.value.done.waiters;
    DiskHandshake(states, events, i, c);
    forall j | 0 <= j < |w| ensures w[j] == t {
      assert w[j] in w;
      assert NeedsOwner(st.tasks[w[j]].pc, c) && NeedsOwner(st.tasks[t].pc, c);
    }
    assert w[0] == w[|w| - 1] == t;
    assert w == [t];
    DiskKeeps(st, c);
  }

  /** A completion that comes before sema_down is not lost: the driver takes it without sleeping. */
  lemma EarlyCompletionIsTaken(st: Kernel, call: Call, c: nat)
    requires Inv(st) && Shape(st) && st.tasks[st.cur].pc == DownEntry(DoneSem(c))
    requires IsChannel(st.locks, c) && !st.locks[c].channel.value.expecting
    ensures var b := Act(st, call);
            b.cur == st.cur && b.tasks[st.cur].pc == AtIo(Awaited, c) && b.panic.None?
            && IsChannel(b.locks, c) && b.locks[c].channel.value.done.value == 0
  {
    AtLockFacts(st, c);
    HandshakeOf(st.locks[c], st.tasks, st.cur, c);
    ActKeeps(st, call);
  }

  /** A thread that comes to a free lock takes it and goes on, at its first try as after a sleep. */
  lemma FreeLockIsTaken(st: Kernel, call: Call, k: nat)
    requires Inv(st) && Shape(st) && st.tasks[st.cur].pc in {DownEntry(LockSem(k)), DownRetry(LockSem(k))}
    requires k in st.locks && st.locks[k].sem.value != 0
    ensures var b := Act(st, call);
            && b.cur == st.cur && b.ready == st.ready && b.panic.None? && b.tasks[st.cur].pc == AtLock(SetHolder, k)
            && k in b.locks && b.locks[k].sem == Sem(0, st.locks[k].sem.waiters)
  {
    BinarySemaphores(st, LockSem(k));
  }
}
