/** How long a ready thread can be kept from the processor. */
module ThreadsBound {
  import opened Threads
  import opened ThreadsInv
  import opened ThreadsStep

  /** Timer interrupts the threads of q need to use up their slices and be switched away. */
  ghost function Slices(tasks: Tasks, q: seq<Tid>): nat {
    if q == [] then 0 else (if q[0] in tasks then tasks[q[0]].ticks + 1 else 0) + Slices(tasks, q[1..])
  }

  ghost function Position(q: seq<Tid>, t: Tid): (k: nat)
    requires t in q
    ensures k < |q| && q[k] == t
  {
    if q[0] == t then 0 else 1 + Position(q[1..], t)
  }

  /** The current thread's rest slice and the slices of the threads ahead of t. */
  ghost function Rank(st: Kernel, t: Tid): nat
    requires t in st.ready && st.cur in st.tasks
  {
    st.tasks[st.cur].ticks + 1 + Slices(st.tasks, st.ready[..Position(st.ready, t)])
  }

  /** The thread that this step takes off a waiters list. */
  ghost function WokenBy(st: Kernel, ev: Event): Option<Tid>
    requires Shape(st)
  {
    match ev
    case Disk(c) =>
      if IsChannel(st.locks, c) && st.locks[c].channel.value.expecting && st.locks[c].channel.value.done.waiters != []
      then Some(st.locks[c].channel.value.done.waiters[0]) else None
    case Go(_) =>
      var pc := st.tasks[st.cur].pc;
      if pc.AtLock? && pc.stage == UpEntry && pc.k in st.locks && st.locks[pc.k].sem.waiters != []
      then Some(st.locks[pc.k].sem.waiters[0]) else None
    case _ => None
  }

  ghost function WakeCost(st: Kernel, ev: Event): nat
    requires Shape(st)
  {
    var w := WokenBy(st, ev);
    if w.Some? then Slices(st.tasks, [w.value]) else 0
  }

  // ---------------------------------------------------------------- the four effects of a step

  ghost predicate SameTicks(a: Tasks, b: Tasks) {
    forall u :: u in a ==> u in b && b[u].ticks == a[u].ticks
  }

  /** No switch: at most a new thread, with a full slice, at the tail of the ready list. */
  ghost predicate Stays(a: Kernel, b: Kernel) {
    b.cur == a.cur && (b.ready == a.ready || Joins(a, b)) && SameTicks(a.tasks, b.tasks)
  }

  ghost predicate Joins(a: Kernel, b: Kernel) {
    exists u :: b.ready == a.ready + [u] && u !in a.tasks && u in b.tasks && b.tasks[u].ticks == b.tasks[u].priority
  }

  /** A timer interrupt inside the slice. */
  ghost predicate Ticks(a: Kernel, b: Kernel) {
    && a.cur in a.tasks && a.tasks[a.cur].ticks > 0 && b.cur == a.cur && b.ready == a.ready
    && b.tasks == a.tasks[a.cur := a.tasks[a.cur].(ticks := a.tasks[a.cur].ticks - 1)]
  }

  /** The head of the ready list takes over; the old current thread leaves or goes to the tail. */
  ghost predicate Switches(a: Kernel, b: Kernel) {
    && a.ready != [] && b.cur == a.ready[0] && (b.ready == a.ready[1..] || b.ready == a.ready[1..] + [a.cur])
    && (forall u :: u in a.tasks && u != a.cur ==> u in b.tasks && b.tasks[u].ticks == a.tasks[u].ticks)
  }

  /** The old current thread goes to the tail with so many ticks. */
  ghost predicate Requeues(a: Kernel, b: Kernel, ticks: nat) {
    Switches(a, b) && b.ready == a.ready[1..] + [a.cur] && a.cur in b.tasks && b.tasks[a.cur].ticks == ticks
  }

  /** A waiter becomes ready ahead of everybody. */
  ghost predicate WakesUp(a: Kernel, b: Kernel, w: Tid) {
    b.cur == a.cur && b.ready == [w] + a.ready && SameTicks(a.tasks, b.tasks)
  }

  ghost predicate Effect(a: Kernel, ev: Event, b: Kernel)
    requires Shape(a)
  {
    match WokenBy(a, ev)
    case Some(w) => WakesUp(a, b, w)
    case None =>
      if ev == Tick then
        if a.tasks[a.cur].ticks > 0 then Ticks(a, b) else Requeues(a, b, a.tasks[a.cur].priority)
      else if ev == GiveUp then Requeues(a, b, a.tasks[a.cur].ticks)
      else Stays(a, b) || Switches(a, b)
  }

  /** schedule with somebody ready. */
  lemma ScheduleSwitches(a: Kernel)
    requires SchedCore(a) && a.ready != []
    ensures a.ready[0] != a.cur || a.tasks[a.cur].status == Ready
    ensures var b := Schedule(a);
            && b.cur == a.ready[0]
            && b.ready == a.ready[1..] + (if a.tasks[a.cur].status == Running then [a.cur] else [])
            && (forall u :: u in a.tasks && u != a.cur ==> u in b.tasks && b.tasks[u].ticks == a.tasks[u].ticks)
            && a.cur in b.tasks
            && b.tasks[a.cur].ticks == (if a.tasks[a.cur].status == Running then a.tasks[a.cur].priority
                                        else a.tasks[a.cur].ticks)
  {
    assert a.ready[0] in a.ready;
  }

  lemma YieldEffect(a: Kernel)
    requires Inv(a) && a.ready != []
    ensures Requeues(a, Yield(a), a.tasks[a.cur].ticks)
  {
    var task := a.tasks[a.cur].(status := Ready);
    var q := SetStatus(a, a.cur, Ready).(ready := a.ready + [a.cur]);
    Enqueue(a.tasks, a.ready, a.cur, task, q.ready);
    RunStateFrame(a.tasks, a.cur, task, a.idle, a.locks);
    ScheduleSwitches(q);
    assert (a.ready + [a.cur])[1..] == a.ready[1..] + [a.cur];
  }

  lemma TimerEffect(a: Kernel)
    requires Inv(a) && a.ready != []
    ensures if a.tasks[a.cur].ticks > 0 then Ticks(a, Timer(a)) else Requeues(a, Timer(a), a.tasks[a.cur].priority)
  {
    ScheduleSwitches(a);
  }

  /** With nobody ready the current thread goes on, with a new slice. */
  lemma LoneThreadGoesOn(a: Kernel)
    requires Inv(a) && a.ready == [] && a.tasks[a.cur].ticks == 0
    ensures Timer(a) == SetTask(a, a.cur, a.tasks[a.cur].(ticks := a.tasks[a.cur].priority))
  {
    var task := a.tasks[a.cur];
    assert [] + [a.cur] == [a.cur];
    assert Schedule(a).ready == [];
    assert Schedule(a).tasks == a.tasks[a.cur := task.(ticks := task.priority)];
  }

  lemma QueuedEffect(a: Kernel, s: SemId)
    requires Inv(a) && AtDown(a, s) && HasSem(a.locks, s) && a.ready != []
    ensures Switches(a, Block(Queued(a, s)))
  {
    var q := SetStatus(Queued(a, s), a.cur, Blocked);
    QueuedSched(a, s);
    ScheduleSwitches(q);
  }

  lemma TakenEffect(a: Kernel, s: SemId)
    requires AtDown(a, s) && HasSem(a.locks, s)
    ensures Stays(a, Taken(a, s))
  {
  }

  lemma DownIs(a: Kernel, s: SemId)
    requires Shape(a) && AtDown(a, s) && HasSem(a.locks, s) && SemAt(a.locks, s).value <= 1
    ensures DownPass(a, s) == if SemAt(a.locks, s).value == 0 then Block(Queued(a, s)) else Taken(a, s)
  {
  }

  lemma DownEffect(a: Kernel, s: SemId)
    requires Inv(a) && Shape(a) && AtDown(a, s) && HasSem(a.locks, s) && a.ready != []
    ensures Stays(a, DownPass(a, s)) || Switches(a, DownPass(a, s))
  {
    BinarySemaphores(a, s);
    DownIs(a, s);
    QueuedEffect(a, s);
    TakenEffect(a, s);
  }

  lemma IdleEffect(a: Kernel)
    requires Inv(a) && a.ready != [] && a.tasks[a.cur].pc == IdleLoop
    ensures Switches(a, Block(a))
  {
    var b := SetStatus(a, a.cur, Blocked);
    BlockingFrame(a.tasks, a.ready, a.cur, b.tasks[a.cur]);
    TasksFrame(a.locks, a.tasks, b.tasks);
    forall k | k in a.locks ensures WaitersAt(a.locks[k], b.tasks, k) {
      assert WaitersAt(a.locks[k], a.tasks, k);
    }
    ScheduleSwitches(b);
  }

  lemma UpEffect(m: Kernel, s: SemId)
    requires HasSem(m.locks, s) && SemAt(m.locks, s).value == 0
    requires forall t :: t in SemAt(m.locks, s).waiters ==>
              t in m.tasks && m.tasks[t].status == Blocked && t !in m.ready
    ensures var w := SemAt(m.locks, s).waiters;
            if w == [] then Stays(m, Up(m, s)) else WakesUp(m, Up(m, s), w[0])
  {
    var w := SemAt(m.locks, s).waiters;
    if w != [] { assert w[0] in w; }
  }

  lemma WaitersBlocked(a: Kernel, s: SemId)
    requires Inv(a) && HasSem(a.locks, s)
    ensures forall t :: t in SemAt(a.locks, s).waiters ==>
              t in a.tasks && a.tasks[t].status == Blocked && t !in a.ready && t != a.cur
  {
    assert WaitersAt(a.locks[KeyOf(s)], a.tasks, KeyOf(s));
  }

  lemma UpEntryIs(a: Kernel, call: Call, k: nat, m: Kernel)
    requires Shape(a) && a.panic.None? && a.tasks[a.cur].pc == AtLock(UpEntry, k) && k in a.locks
    requires m == SetPc(a, a.cur, Outside).(locks := a.locks[k := a.locks[k].(owner := None)])
    ensures forall t :: t in SemAt(m.locks, LockSem(k)).waiters ==> t in m.tasks
    ensures Act(a, call) == Up(m, LockSem(k))
  {
    assert WaitersExist(a.locks[k], a.tasks);
  }

  lemma UpEntryFacts(a: Kernel, k: nat)
    requires Inv(a) && a.tasks[a.cur].pc == AtLock(UpEntry, k) && k in a.locks
    ensures a.locks[k].sem.value == 0
    ensures forall t :: t in a.locks[k].sem.waiters ==>
              t in a.tasks && a.tasks[t].status == Blocked && t !in a.ready && t != a.cur
  {
    WaitersBlocked(a, LockSem(k));
    assert SyncAt(a.locks[k], a.tasks, k);
  }

  lemma UpEntryEffect(a: Kernel, call: Call, k: nat)
    requires Inv(a) && Shape(a) && a.tasks[a.cur].pc == AtLock(UpEntry, k) && k in a.locks
    ensures Effect(a, Go(call), Act(a, call))
  {
    UpEntryFacts(a, k);
    UpEntryEffectOf(a, call, k);
  }

  lemma UpEntryEffectOf(a: Kernel, call: Call, k: nat)
    requires Shape(a) && a.panic.None? && a.tasks[a.cur].pc == AtLock(UpEntry, k) && k in a.locks
    requires a.locks[k].sem.value == 0
    requires forall t :: t in a.locks[k].sem.waiters ==>
              t in a.tasks && a.tasks[t].status == Blocked && t !in a.ready && t != a.cur
    ensures Effect(a, Go(call), Act(a, call))
  {
    var m := SetPc(a, a.cur, Outside).(locks := a.locks[k := a.locks[k].(owner := None)]);
    UpEntryIs(a, call, k, m);
    UpEffect(m, LockSem(k));
  }

  lemma DiskEffect(a: Kernel, c: nat)
    requires Inv(a) && Shape(a)
    ensures Effect(a, Disk(c), DiskInterrupt(a, c))
  {
    if IsChannel(a.locks, c) && a.locks[c].channel.value.expecting {
      var m := a.(locks := SetExpecting(a.locks, c, false));
      WaitersBlocked(a, DoneSem(c));
      assert SyncAt(a.locks[c], a.tasks, c);
      UpEffect(m, DoneSem(c));
    }
  }

  lemma AtLockEffect(a: Kernel, call: Call, stage: LockStage, k: nat)
    requires Shape(a) && a.panic.None? && a.tasks[a.cur].pc == AtLock(stage, k) && stage != UpEntry && k in a.locks
    ensures Stays(a, Act(a, call)) && WokenBy(a, Go(call)).None?
  {
    var e := LockStatement(stage, k, a.cur, a.locks[k], a.tasks[a.cur]);
    AtLockIs(a, call, stage, k, e);
    assert e.task.ticks == a.tasks[a.cur].ticks;
  }

  lemma AtIoEffect(a: Kernel, call: Call, step: IoStage, c: nat)
    requires Inv(a) && Shape(a) && a.tasks[a.cur].pc == AtIo(step, c) && IsChannel(a.locks, c)
    ensures Effect(a, Go(call), Act(a, call))
  {
    var f := IoStatement(step, c, a.locks[c].channel.value.expecting, a.tasks[a.cur]);
    AtIoIs(a, call, step, c, f);
    assert f.task.ticks == a.tasks[a.cur].ticks;
  }

  lemma OutsideEffect(a: Kernel, call: Call)
    requires Inv(a) && Shape(a) && a.tasks[a.cur].pc == Outside
    ensures Stays(a, Act(a, call))
  {
  }

  /** thread_start: the new thread is the last of the ready list, with the priority asked for as its slice. */
  lemma StartedIsLast(a: Kernel, t: Tid, p: nat)
    requires Inv(a) && Shape(a) && a.tasks[a.cur].pc == Outside && t !in a.tasks
    ensures var b := Act(a, Start(t, p));
            && b.ready == a.ready + [t] && b.cur == a.cur && t in b.tasks && b.tasks - {t} == a.tasks
            && b.tasks[t].priority == p && b.tasks[t].ticks == p && b.tasks[t].status == Ready && b.locks == a.locks
  {
    assert Act(a, Start(t, p)).tasks - {t} == a.tasks;
  }

  lemma ActEffect(a: Kernel, call: Call)
    requires Inv(a) && Shape(a) && a.ready != []
    ensures Effect(a, Go(call), Act(a, call))
  {
    assert TaskOk(a.locks, a.tasks[a.cur]);
    match a.tasks[a.cur].pc
    case Outside => OutsideEffect(a, call);
    case IdleLoop => IdleEffect(a);
    case DownEntry(s) => DownEffect(a, s);
    case DownRetry(s) => DownEffect(a, s);
    case AtLock(stage, k) => if stage == UpEntry { UpEntryEffect(a, call, k); }
        else { AtLockEffect(a, call, stage, k); }
    case AtIo(step, c) => AtIoEffect(a, call, step, c);
  }

  lemma StepEffect(a: Kernel, ev: Event)
    requires Inv(a) && Enabled(a, ev) && a.ready != []
    ensures Effect(a, ev, Step(a, ev))
  {
    match ev
    case Tick => TimerEffect(a);
    case Disk(c) => DiskEffect(a, c);
    case GiveUp => YieldEffect(a);
    case Go(call) => ActEffect(a, call);
  }

  // ---------------------------------------------------------------- the rank

  lemma {:induction false} SlicesFrame(a: Tasks, b: Tasks, q: seq<Tid>)
    requires forall u :: u in q ==> u in a && u in b && a[u].ticks == b[u].ticks
    ensures Slices(a, q) == Slices(b, q)
  {
    if q != [] {
      assert q[0] in q;
      SlicesFrame(a, b, q[1..]);
    }
  }

  lemma {:induction false} PositionOfPrefix(q: seq<Tid>, r: seq<Tid>, t: Tid)
    requires t in q
    ensures t in q + r && Position(q + r, t) == Position(q, t)
  {
    assert (q + r)[Position(q, t)] == t;
    if q[0] != t {
      assert (q + r)[1..] == q[1..] + r;
      PositionOfPrefix(q[1..], r, t);
    }
  }

  /** Everybody ahead of t, and t itself, is another thread than the current one. */
  lemma AheadIsReady(a: Kernel, t: Tid)
    requires Inv(a) && t in a.ready
    ensures a.cur !in a.ready && forall u :: u in a.ready ==> u in a.tasks
    ensures forall u :: u in a.ready[..Position(a.ready, t)] ==> u in a.ready
  {
  }

  lemma StayRank(a: Kernel, b: Kernel, t: Tid)
    requires t in a.ready && a.cur in a.tasks && Stays(a, b)
    requires forall u :: u in a.ready[..Position(a.ready, t)] ==> u in a.tasks
    ensures t in b.ready && b.cur in b.tasks && Rank(b, t) == Rank(a, t)
  {
    var k := Position(a.ready, t);
    SlicesFrame(a.tasks, b.tasks, a.ready[..k]);
    if b.ready != a.ready {
      var u :| b.ready == a.ready + [u];
      PositionOfPrefix(a.ready, [u], t);
    }
    assert b.ready[..k] == a.ready[..k];
  }

  lemma TickRank(a: Kernel, b: Kernel, t: Tid)
    requires t in a.ready && a.cur !in a.ready && Ticks(a, b)
    requires forall u :: u in a.ready[..Position(a.ready, t)] ==> u in a.tasks && u in a.ready
    ensures Rank(b, t) + 1 == Rank(a, t)
  {
    SlicesFrame(a.tasks, b.tasks, a.ready[..Position(a.ready, t)]);
  }

  /** One step pays for its own timer interrupt: until t runs, the rank falls by one at every
      tick and rises only by the slices of threads woken ahead of t. */
  lemma StepRank(a: Kernel, ev: Event, t: Tid)
    requires Inv(a) && Enabled(a, ev) && t in a.ready
    ensures var b := Step(a, ev);
            b.cur == t || (t in b.ready && b.cur in b.tasks
                           && Rank(b, t) + (if ev == Tick then 1 else 0) <= Rank(a, t) + WakeCost(a, ev))
  {
    StepEffect(a, ev);
    AheadIsReady(a, t);
    WokenExists(a, ev);
    EffectRank(a, ev, Step(a, ev), t);
  }

  lemma WokenExists(a: Kernel, ev: Event)
    requires Inv(a) && Shape(a)
    ensures WokenBy(a, ev).Some? ==> WokenBy(a, ev).value in a.tasks && WokenBy(a, ev).value !in a.ready
  {
    var w := WokenBy(a, ev);
    if w.Some? {
      var s := if ev.Disk? then DoneSem(ev.c) else LockSem(a.tasks[a.cur].pc.k);
      WaitersBlocked(a, s);
      assert w.value == SemAt(a.locks, s).waiters[0];
      assert w.value in SemAt(a.locks, s).waiters;
    }
  }

  lemma EffectRank(a: Kernel, ev: Event, b: Kernel, t: Tid)
    requires Shape(a) && Effect(a, ev, b) && t in a.ready && a.cur !in a.ready
    requires forall u :: u in a.ready ==> u in a.tasks
    requires forall u :: u in a.ready[..Position(a.ready, t)] ==> u in a.ready
    requires WokenBy(a, ev).Some? ==> WokenBy(a, ev).value in a.tasks && WokenBy(a, ev).value !in a.ready
    ensures b.cur == t || (t in b.ready && b.cur in b.tasks
                           && Rank(b, t) + (if ev == Tick then 1 else 0) <= Rank(a, t) + WakeCost(a, ev))
  {
    if WokenBy(a, ev).Some? {
      WokenRank(a, b, WokenBy(a, ev).value, t);
    } else if ev == Tick && Ticks(a, b) {
      TickRank(a, b, t);
    } else if Switches(a, b) {
      if Position(a.ready, t) > 0 { SwitchRank(a, b, t); }
    } else {
      StayRank(a, b, t);
    }
  }

  lemma WokenRank(a: Kernel, b: Kernel, w: Tid, t: Tid)
    requires t in a.ready && a.cur in a.tasks && w in a.tasks && WakesUp(a, b, w) && w != t
    requires forall u :: u in a.ready[..Position(a.ready, t)] ==> u in a.tasks
    ensures t in b.ready && b.cur in b.tasks && Rank(b, t) == Rank(a, t) + Slices(a.tasks, [w])
  {
    var k := Position(a.ready, t);
    assert b.ready[1..] == a.ready;
    assert b.ready[k + 1] == t;
    assert b.ready[..k + 1] == [w] + a.ready[..k];
    assert ([w] + a.ready[..k])[1..] == a.ready[..k];
    SlicesFrame(a.tasks, b.tasks, a.ready[..k]);
    assert Slices(a.tasks, [w]) == a.tasks[w].ticks + 1 + Slices(a.tasks, []) by { assert [w][1..] == []; }
  }

  lemma SwitchRank(a: Kernel, b: Kernel, t: Tid)
    requires t in a.ready && a.cur in a.tasks && Switches(a, b) && Position(a.ready, t) > 0 && a.cur !in a.ready
    requires forall u :: u in a.ready ==> u in a.tasks
    ensures t in b.ready && b.cur in b.tasks && Rank(b, t) + a.tasks[a.cur].ticks + 1 == Rank(a, t)
  {
    var k := Position(a.ready, t);
    var rest := a.ready[1..];
    assert rest[k - 1] == t;
    if b.ready != rest { PositionOfPrefix(rest, [a.cur], t); }
    assert b.ready[..k - 1] == rest[..k - 1] == a.ready[..k][1..];
    assert a.ready[0] in a.ready;
    forall u | u in rest[..k - 1] ensures u in a.ready && u != a.cur { }
    SlicesFrame(a.tasks, b.tasks, rest[..k - 1]);
  }

  // ---------------------------------------------------------------- runs

  ghost function TickCount(events: seq<Event>): nat {
    if events == [] then 0 else TickCount(events[..|events| - 1]) + (if events[|events| - 1] == Tick then 1 else 0)
  }

  /** The slices of all threads woken during the run. */
  ghost function WakeCosts(states: seq<Kernel>, events: seq<Event>): nat
    requires |states| == |events| + 1 && forall i :: 0 <= i < |events| ==> Shape(states[i])
  {
    if events == [] then 0
    else
      var n := |events| - 1;
      WakeCosts(states[..n + 1], events[..n]) + WakeCost(states[n], events[n])
  }

  lemma {:induction false} WaitingRank(states: seq<Kernel>, events: seq<Event>, t: Tid)
    requires IsRun(states, events) && Inv(states[0]) && t in states[0].ready
    requires forall i :: 0 <= i <= |events| ==> states[i].panic.None? && states[i].cur != t
    ensures forall i :: 0 <= i < |events| ==> Shape(states[i])
    ensures var last := states[|events|];
            Inv(last) && t in last.ready
                && Rank(last, t) + TickCount(events) <= Rank(states[0], t) + WakeCosts(states, events)
  {
    if events != [] {
      var n := |events| - 1;
      WaitingRank(states[..n + 1], events[..n], t);
      assert states[..n + 1][n] == states[n];
      assert Enabled(states[n], events[n]);
      StepKeeps(states[n], events[n]);
      StepRank(states[n], events[n], t);
    }
  }

  /** Round robin: a ready thread runs before more timer interrupts have come than the current
      thread and the threads ahead of it have slices for, plus the slices of threads woken in the
      meantime, whatever yields, blocks, creations and interrupts occur. */
  lemma RoundRobinBound(states: seq<Kernel>, events: seq<Event>, t: Tid) returns (i: nat)
    requires IsRun(states, events) && Inv(states[0]) && t in states[0].ready
    requires forall j :: 0 <= j <= |events| ==> states[j].panic.None?
    requires forall j :: 0 <= j < |events| ==> Shape(states[j])
    requires TickCount(events) >= Rank(states[0], t) + WakeCosts(states, events)
    ensures i <= |events| && states[i].cur == t
  {
    if forall j :: 0 <= j <= |events| ==> states[j].cur != t {
      WaitingRank(states, events, t);
      assert false;
    }
    i :| 0 <= i <= |events| && states[i].cur == t;
  }
}
