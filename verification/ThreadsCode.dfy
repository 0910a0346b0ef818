/** The kernel's own code over its variables, each atomic piece against the step it performs. */
module ThreadsCode {
  import opened Threads
  import opened ThreadsInv
  import opened ThreadsStep

  class Cpu {
    var cur: Tid
    var idle: Tid
    var tasks: Tasks
    var ready: seq<Tid>
    var locks: Locks
    var panic: Option<Assertion>

    ghost function State(): Kernel
      reads this
    {
      Kernel(cur, idle, tasks, ready, locks, panic)
    }

    /** thread_init, after make_main_thread and the start of the idle thread. */
    constructor (main: Tid, idleThread: Tid, locks: Locks)
      requires main != idleThread
      requires forall k :: k in locks ==>
                 && locks[k].(channel := None) == Lock(None, 0, Sem(1, []), None, None)
                 && (locks[k].channel.Some? ==> locks[k].channel.value == Channel(false, Sem(0, [])))
      ensures Boot(State()) && Inv(State()) && cur == main && idle == idleThread && this.locks == locks
    {
      cur := main;
      idle := idleThread;
      tasks := map[main := Task(Running, 1, 1, Outside, None, map[]),
          idleThread := Task(Ready, 10, 10, IdleLoop, None, map[])];
      ready := [idleThread];
      this.locks := locks;
      panic := None;
      new;
      BootInv(State());
    }

    method ThreadUnblock(t: Tid)
      requires t in tasks
      modifies this`tasks, this`ready, this`panic
      ensures State() == Unblock(old(State()), t)
    {
      if tasks[t].status != Blocked && tasks[t].status != Waiting && tasks[t].status != Hanging {
        panic := Some(NotBlocked);
        return;
      }
      if t in ready {
        panic := Some(ReadyTwice);
        return;
      }
      tasks := tasks[t := tasks[t].(status := Ready)];
      ready := [t] + ready;
    }

    method Dispatch()
      requires QueueIn(State())
      modifies this`cur, this`tasks, this`ready, this`panic
      ensures State() == Schedule(old(State()))
    {
      if tasks[cur].status == Running {
        if cur in ready {
          panic := Some(ReadyTwice);
          return;
        }
        tasks := tasks[cur := tasks[cur].(ticks := tasks[cur].priority)];
        tasks := tasks[cur := tasks[cur].(status := Ready)];
        ready := ready + [cur];
      }
      if ready == [] {
        ThreadUnblock(idle);
      }
      if panic.Some? { return; }
      var next := ready[0];
      ready := ready[1..];
      tasks := tasks[next := tasks[next].(status := Running)];
      cur := next;
    }

    /** Idle is blocked, the assertions hold and one thread runs afterwards. */
    method TimerInterrupt()
      requires Inv(State())
      modifies this`cur, this`tasks, this`ready, this`panic
      ensures State() == Timer(old(State())) && Inv(State())
    {
      TimerKeeps(State());
      if tasks[cur].ticks == 0 {
        Dispatch();
      } else {
        tasks := tasks[cur := tasks[cur].(ticks := tasks[cur].ticks - 1)];
      }
    }

    method ThreadYield()
      requires Inv(State())
      modifies this`cur, this`tasks, this`ready, this`panic
      ensures State() == Yield(old(State())) && Inv(State())
    {
      YieldKeeps(State());
      tasks := tasks[cur := tasks[cur].(status := Ready)];
      ready := ready + [cur];
      Dispatch();
    }

    method ThreadBlock()
      requires QueueIn(State())
      modifies this`cur, this`tasks, this`ready, this`panic
      ensures State() == Block(old(State()))
    {
      tasks := tasks[cur := tasks[cur].(status := Blocked)];
      Dispatch();
    }

    /** From the loop test of sema_down to the next time somebody else runs, or to its end. */
    method SemaDown(s: SemId)
      requires QueueIn(State()) && AtDown(State(), s) && HasSem(locks, s)
      modifies this
      ensures State() == (if SemAt(old(locks), s).value == 0 then Block(Queued(old(State()), s))
                          else if SemAt(old(locks), s).value == 1 then Taken(old(State()), s)
                          else old(State()).(panic := Some(ValueAssert)))
    {
      var sem := SemAt(locks, s);
      if sem.value == 0 {
        locks := SetSem(locks, s, sem.(waiters := sem.waiters + [cur]));
        tasks := tasks[cur := tasks[cur].(pc := DownRetry(s))];
        ThreadBlock();
      } else if sem.value - 1 != 0 {
        panic := Some(ValueAssert);
      } else {
        locks := SetSem(locks, s, sem.(value := sem.value - 1));
        tasks := tasks[cur := tasks[cur].(pc := AfterDown(s))];
        if s.LockSem? {
          locks := locks[s.k := locks[s.k].(owner := Some(cur))];
        }
      }
    }

    method SemaUp(s: SemId)
      requires HasSem(locks, s) && (forall t :: t in SemAt(locks, s).waiters ==> t in tasks)
      modifies this`locks, this`tasks, this`ready, this`panic
      ensures State() == Up(old(State()), s)
    {
      var sem := SemAt(locks, s);
      if sem.value != 0 {
        panic := Some(ValueAssert);
        return;
      }
      if sem.waiters != [] {
        var first := sem.waiters[0];
        assert first in sem.waiters;
        locks := SetSem(locks, s, Sem(1, sem.waiters[1..]));
        ThreadUnblock(first);
      } else {
        locks := SetSem(locks, s, sem.(value := 1));
      }
    }

    method DiskHandler(c: nat)
      requires Inv(State())
      modifies this`locks, this`tasks, this`ready, this`panic
      ensures Shape(old(State())) && State() == DiskInterrupt(old(State()), c) && Inv(State())
    {
      CoreHasShape(State());
      DiskKeeps(State(), c);
      if IsChannel(locks, c) && locks[c].channel.value.expecting {
        assert WaitersExist(locks[c], tasks);
        locks := SetExpecting(locks, c, false);
        SemaUp(DoneSem(c));
      }
    }
  }
}
