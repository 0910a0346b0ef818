/** The scheduler, semaphores, locks and the disk channel handshake as one step machine.

    A state is a snapshot between two atomic sections.  `Step` runs one atomic section: one
    statement of the current thread outside `intr_disable`, one whole `intr_disable` section, or
    one interrupt handler.  Everything that can be preempted is therefore a separate step. */
module Threads {

  type Tid = nat

  datatype Option<+T> = None | Some(value: T)

  datatype Status = Running | Ready | Blocked | Waiting | Hanging | Died

  /** A lock's own semaphore, or a disk channel's `disk_done`. */
  datatype SemId = LockSem(k: nat) | DoneSem(c: nat)

  /** Statements of lock_acquire and lock_release; each names what the thread does next. */
  datatype LockStage = AcquireEntry | SetHolder | SetRepeat | IncRepeat
                     | ReleaseEntry | DecRepeat | ClearHolder | ZeroRepeat | UpEntry

  /** Statements of ide_read and ide_write, with cmd_out split at its two writes. */
  datatype IoStage = IoLoop | CmdFlag | CmdOut | Issued | Awaited

  /** Where a thread stands in the code.  `DownRetry` is inside the loop of `sema_down`, with
      interrupts off; every other point is preemptible. */
  datatype Pc =
    | Outside
    | IdleLoop
    | DownEntry(s: SemId)
    | DownRetry(s: SemId)
    | AtLock(stage: LockStage, k: nat)
    | AtIo(step: IoStage, c: nat)

  /** `held` is history: how many completed `lock_acquire` calls of this thread on each lock are
      still unmatched.  `io` is the number of disk commands an ide_read/ide_write has left. */
  datatype Task = Task(status: Status, priority: nat, ticks: nat, pc: Pc, io: Option<nat>, held: map<nat, nat>)

  type Tasks = map<Tid, Task>

  datatype Sem = Sem(value: nat, waiters: seq<Tid>)

  /** The part of an ide_channel beside its lock. */
  datatype Channel = Channel(expecting: bool, done: Sem)

  /** `owner` is history: the thread that has finished `sema_down` on the lock and has not yet
      entered the matching `sema_up`.  The lock of an ide_channel carries the channel. */
  datatype Lock = Lock(holder: Option<Tid>, repeat: nat, sem: Sem, owner: Option<Tid>, channel: Option<Channel>)

  type Locks = map<nat, Lock>

  datatype Assertion = ReadyTwice | NotBlocked | ValueAssert | HolderAssert | RepeatAssert

  datatype Kernel = Kernel(cur: Tid, idle: Tid, tasks: Tasks, ready: seq<Tid>, locks: Locks, panic: Option<Assertion>)

  function Held(task: Task, k: nat): nat {
    if k in task.held then task.held[k] else 0
  }

  // ---------------------------------------------------------------- well-formedness

  predicate IsChannel(locks: Locks, c: nat) {
    c in locks && locks[c].channel.Some?
  }

  predicate HasSem(locks: Locks, s: SemId) {
    match s
    case LockSem(k) => k in locks
    case DoneSem(c) => IsChannel(locks, c)
  }

  function SemAt(locks: Locks, s: SemId): Sem
    requires HasSem(locks, s)
  {
    match s
    case LockSem(k) => locks[k].sem
    case DoneSem(c) => locks[c].channel.value.done
  }

  function SetSem(locks: Locks, s: SemId, sem: Sem): Locks
    requires HasSem(locks, s)
  {
    match s
    case LockSem(k) => locks[k := locks[k].(sem := sem)]
    case DoneSem(c) => locks[c := locks[c].(channel := Some(locks[c].channel.value.(done := sem)))]
  }

  ghost predicate PcOk(locks: Locks, pc: Pc) {
    match pc
    case Outside => true
    case IdleLoop => true
    case DownEntry(s) => HasSem(locks, s)
    case DownRetry(s) => HasSem(locks, s)
    case AtLock(_, k) => k in locks
    case AtIo(_, c) => IsChannel(locks, c)
  }

  /** Points inside ide_read or ide_write up to the last command. */
  ghost predicate IoPoint(locks: Locks, pc: Pc) {
    match pc
    case Outside => false
    case IdleLoop => false
    case DownEntry(s) => IsChannel(locks, if s.LockSem? then s.k else s.c)
    case DownRetry(s) => IsChannel(locks, if s.LockSem? then s.k else s.c)
    case AtLock(stage, k) => IsChannel(locks, k) && stage in {AcquireEntry, SetHolder, SetRepeat, IncRepeat}
    case AtIo(_, c) => IsChannel(locks, c)
  }

  ghost predicate TaskOk(locks: Locks, task: Task) {
    PcOk(locks, task.pc) && (task.io.Some? ==> IoPoint(locks, task.pc))
  }

  /** Every waiter of the lock and of its channel is a thread. */
  ghost predicate WaitersExist(l: Lock, tasks: Tasks) {
    && (forall t :: t in l.sem.waiters ==> t in tasks)
    && (l.channel.Some? ==> forall t :: t in l.channel.value.done.waiters ==> t in tasks)
  }

  ghost predicate QueueIn(st: Kernel) {
    && st.cur in st.tasks && st.idle in st.tasks
    && (forall t :: t in st.ready ==> t in st.tasks)
  }

  ghost predicate Shape(st: Kernel) {
    && QueueIn(st)
    && (forall t :: t in st.tasks ==> TaskOk(st.locks, st.tasks[t]))
    && (forall k :: k in st.locks ==> WaitersExist(st.locks[k], st.tasks))
  }

  // ---------------------------------------------------------------- thread/thread.c

  function SetTask(st: Kernel, t: Tid, task: Task): Kernel {
    st.(tasks := st.tasks[t := task])
  }

  function SetStatus(st: Kernel, t: Tid, status: Status): Kernel
    requires t in st.tasks
  {
    SetTask(st, t, st.tasks[t].(status := status))
  }

  function SetPc(st: Kernel, t: Tid, pc: Pc): Kernel
    requires t in st.tasks
  {
    SetTask(st, t, st.tasks[t].(pc := pc))
  }

  /** thread_unblock: the thread goes to the front of the ready list. */
  function Unblock(st: Kernel, t: Tid): Kernel
    requires t in st.tasks
  {
    if st.tasks[t].status !in {Blocked, Waiting, Hanging} then st.(panic := Some(NotBlocked))
    else if t in st.ready then st.(panic := Some(ReadyTwice))
    else SetStatus(st, t, Ready).(ready := [t] + st.ready)
  }

  /** schedule, with switch_to read as "current becomes next". */
  function Schedule(st: Kernel): Kernel
    requires QueueIn(st)
  {
    var task := st.tasks[st.cur];
    if task.status == Running && st.cur in st.ready then st.(panic := Some(ReadyTwice))
    else
      var st1 := if task.status == Running
                 then SetTask(st, st.cur, task.(ticks := task.priority, status := Ready)).(ready := st.ready + [st.cur])
                 else st;
      var st2 := if st1.ready == [] then Unblock(st1, st.idle) else st1;
      if st2.panic.Some? then st2
      else SetStatus(st2, st2.ready[0], Running).(ready := st2.ready[1..], cur := st2.ready[0])
  }

  /** thread_yield: the time slice is not refilled. */
  function Yield(st: Kernel): Kernel
    requires QueueIn(st)
  {
    if st.cur in st.ready then SetStatus(st, st.cur, Ready).(panic := Some(ReadyTwice))
    else Schedule(SetStatus(st, st.cur, Ready).(ready := st.ready + [st.cur]))
  }

  /** thread_block(TASK_BLOCKED) by the current thread. */
  function Block(st: Kernel): Kernel
    requires QueueIn(st)
  {
    Schedule(SetStatus(st, st.cur, Blocked))
  }

  /** intr_time_handle. */
  function Timer(st: Kernel): Kernel
    requires QueueIn(st)
  {
    var task := st.tasks[st.cur];
    if task.ticks == 0 then Schedule(st) else SetTask(st, st.cur, task.(ticks := task.ticks - 1))
  }

  // ---------------------------------------------------------------- thread/sync.c

  function AfterDown(s: SemId): Pc {
    match s
    case LockSem(k) => AtLock(SetHolder, k)
    case DoneSem(c) => AtIo(Awaited, c)
  }

  ghost predicate AtDown(st: Kernel, s: SemId) {
    st.cur in st.tasks && st.tasks[st.cur].pc in {DownEntry(s), DownRetry(s)}
  }

  /** One pass of the loop of sema_down. */
  function DownPass(st: Kernel, s: SemId): Kernel
    requires Shape(st) && AtDown(st, s)
  {
    assert TaskOk(st.locks, st.tasks[st.cur]);
    var sem := SemAt(st.locks, s);
    if sem.value == 0 then Block(Queued(st, s))
    else if sem.value != 1 then st.(panic := Some(ValueAssert))
    else Taken(st, s)
  }

  /** The current thread joins the waiters of s. */
  function Queued(st: Kernel, s: SemId): Kernel
    requires HasSem(st.locks, s) && st.cur in st.tasks
  {
    var sem := SemAt(st.locks, s);
    SetPc(st, st.cur, DownRetry(s)).(locks := SetSem(st.locks, s, sem.(waiters := sem.waiters + [st.cur])))
  }

  /** The current thread takes the semaphore: it now owns the lock, or has consumed the completion. */
  function Taken(st: Kernel, s: SemId): Kernel
    requires HasSem(st.locks, s) && st.cur in st.tasks
  {
    var locks := SetSem(st.locks, s, SemAt(st.locks, s).(value := 0));
    SetPc(st, st.cur, AfterDown(s))
      .(locks := if s.LockSem? then locks[s.k := locks[s.k].(owner := Some(st.cur))] else locks)
  }

  /** sema_up. */
  function Up(st: Kernel, s: SemId): Kernel
    requires HasSem(st.locks, s)
    requires forall t :: t in SemAt(st.locks, s).waiters ==> t in st.tasks
  {
    var sem := SemAt(st.locks, s);
    if sem.value != 0 then st.(panic := Some(ValueAssert))
    else if sem.waiters == [] then st.(locks := SetSem(st.locks, s, sem.(value := 1)))
    else
      assert sem.waiters[0] in sem.waiters;
      Unblock(st.(locks := SetSem(st.locks, s, Sem(1, sem.waiters[1..]))), sem.waiters[0])
  }

  function AfterAcquire(task: Task, k: nat): Pc {
    if task.io.Some? then AtIo(IoLoop, k) else Outside
  }

  function Pred(n: nat): nat {
    if n > 0 then n - 1 else 0
  }

  datatype LockEffect = LockEffect(l: Lock, task: Task, failed: Option<Assertion>)

  /** One statement of lock_acquire or lock_release by thread t on lock k, the calls of sema_down
      and sema_up apart. */
  function LockStatement(stage: LockStage, k: nat, t: Tid, l: Lock, task: Task): LockEffect {
    match stage
    case AcquireEntry =>
      LockEffect(l, task.(pc := if l.holder == Some(t) then AtLock(IncRepeat, k) else DownEntry(LockSem(k))), None)
    case SetHolder => LockEffect(l.(holder := Some(t)), task.(pc := AtLock(SetRepeat, k)), None)
    case SetRepeat => LockEffect(l.(repeat := 1), task.(pc := AfterAcquire(task, k), held := task.held[k := 1]), None)
    case IncRepeat =>
      LockEffect(l.(repeat := l.repeat + 1),
          task.(pc := AfterAcquire(task, k), held := task.held[k := Held(task, k) + 1]), None)
    case ReleaseEntry =>
      if l.holder != Some(t) then LockEffect(l, task, Some(HolderAssert))
      else if l.repeat > 1 then LockEffect(l, task.(pc := AtLock(DecRepeat, k)), None)
      else if l.repeat != 1 then LockEffect(l, task, Some(RepeatAssert))
      else LockEffect(l, task.(pc := AtLock(ClearHolder, k), held := task.held[k := 0]), None)
    case DecRepeat =>
      LockEffect(l.(repeat := Pred(l.repeat)), task.(pc := Outside, held := task.held[k := Pred(Held(task, k))]), None)
    case ClearHolder => LockEffect(l.(holder := None), task.(pc := AtLock(ZeroRepeat, k)), None)
    case ZeroRepeat => LockEffect(l.(repeat := Pred(l.repeat)), task.(pc := AtLock(UpEntry, k)), None)
    case UpEntry => LockEffect(l.(owner := None), task.(pc := Outside), None)
  }

  datatype IoEffect = IoEffect(expecting: bool, task: Task)

  /** One statement of ide_read or ide_write on channel c. */
  function IoStatement(step: IoStage, c: nat, expecting: bool, task: Task): IoEffect {
    match step
    case IoLoop =>
      if task.io.None? || task.io.value == 0
      then IoEffect(expecting, task.(pc := AtLock(ReleaseEntry, c), io := None))
      else IoEffect(expecting, task.(pc := AtIo(CmdFlag, c)))
    case CmdFlag => IoEffect(true, task.(pc := AtIo(CmdOut, c)))
    case CmdOut => IoEffect(expecting, task.(pc := AtIo(Issued, c)))
    case Issued => IoEffect(expecting, task.(pc := DownEntry(DoneSem(c))))
    case Awaited =>
      IoEffect(expecting, task.(pc := AtIo(IoLoop, c), io := Some(if task.io.Some? then Pred(task.io.value) else 0)))
  }

  /** What a thread outside the kernel code above may decide to do next. */
  datatype Call = Acquire(k: nat) | Release(k: nat) | Io(c: nat, commands: nat) | Start(t: Tid, priority: nat)

  /** The current thread executes its next statement; `call` is its choice when it is outside. */
  function Act(st: Kernel, call: Call): Kernel
    requires Shape(st)
  {
    var cur := st.cur;
    var task := st.tasks[cur];
    match task.pc
    case Outside =>
      (match call
       case Acquire(k) => if k in st.locks then SetPc(st, cur, AtLock(AcquireEntry, k)) else st
       case Release(k) => if k in st.locks then SetPc(st, cur, AtLock(ReleaseEntry, k)) else st
       case Io(c, n) => if IsChannel(st.locks, c) then SetTask(st, cur,
           task.(pc := AtLock(AcquireEntry, c), io := Some(n))) else st
       case Start(t, p) =>
         if t in st.tasks then st
         else SetTask(st, t, Task(Ready, p, p, Outside, None, map[])).(ready := st.ready + [t]))
    case IdleLoop => Block(st)
    case DownEntry(s) => DownPass(st, s)
    case DownRetry(s) => DownPass(st, s)
    case AtLock(stage, k) =>
      assert TaskOk(st.locks, task) && WaitersExist(st.locks[k], st.tasks);
      var e := LockStatement(stage, k, cur, st.locks[k], task);
      if e.failed.Some? then st.(panic := e.failed)
      else
        var st1 := SetTask(st, cur, e.task).(locks := st.locks[k := e.l]);
        if stage == UpEntry then Up(st1, LockSem(k)) else st1
    case AtIo(step, c) =>
      assert TaskOk(st.locks, task);
      var channel := st.locks[c].channel.value;
      var e := IoStatement(step, c, channel.expecting, task);
      SetTask(st, cur, e.task).(locks := SetExpecting(st.locks, c, e.expecting))
  }

  function SetExpecting(locks: Locks, c: nat, expecting: bool): Locks
    requires IsChannel(locks, c)
  {
    locks[c := locks[c].(channel := Some(locks[c].channel.value.(expecting := expecting)))]
  }

  /** intr_hd_handler for channel c. */
  function DiskInterrupt(st: Kernel, c: nat): Kernel
    requires Shape(st)
  {
    if IsChannel(st.locks, c) && st.locks[c].channel.value.expecting
    then assert WaitersExist(st.locks[c], st.tasks); Up(st.(locks := SetExpecting(st.locks, c, false)), DoneSem(c))
    else st
  }

  // ---------------------------------------------------------------- steps and runs

  datatype Event = Tick | Disk(c: nat) | GiveUp | Go(call: Call)

  /** Interrupts are off only inside sema_down's loop; there only the current thread moves.
      thread_yield is called from preemptible code, by any thread but idle. */
  ghost predicate Enabled(st: Kernel, ev: Event) {
    && Shape(st) && st.panic.None?
    && (match ev
        case Tick => !st.tasks[st.cur].pc.DownRetry?
        case Disk(_) => !st.tasks[st.cur].pc.DownRetry?
        case GiveUp => !st.tasks[st.cur].pc.DownRetry? && st.cur != st.idle
        case Go(_) => true)
  }

  function Step(st: Kernel, ev: Event): Kernel
    requires Shape(st)
  {
    match ev
    case Tick => Timer(st)
    case Disk(c) => DiskInterrupt(st, c)
    case GiveUp => Yield(st)
    case Go(call) => Act(st, call)
  }

  /** `states` is a run of the machine driven by `events`. */
  ghost predicate IsRun(states: seq<Kernel>, events: seq<Event>) {
    && |states| == |events| + 1
    && forall i :: 0 <= i < |events| ==> Enabled(states[i], events[i]) && states[i + 1] == Step(states[i], events[i])
  }

  /** thread_init: the main thread runs, the idle thread (priority 10) is ready. */
  ghost predicate Boot(st: Kernel) {
    && st.cur != st.idle
    && st.tasks == map[st.cur := Task(Running, 1, 1, Outside, None, map[]),
          st.idle := Task(Ready, 10, 10, IdleLoop, None, map[])]
    && st.ready == [st.idle]
    && st.panic == None
    && (forall k :: k in st.locks ==>
          && st.locks[k].(channel := None) == Lock(None, 0, Sem(1, []), None, None)
          && (st.locks[k].channel.Some? ==> st.locks[k].channel.value == Channel(false, Sem(0, []))))
  }
}
