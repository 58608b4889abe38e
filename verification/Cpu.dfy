/** The kernel code of thread/thread.c, thread/sync.c and the timer handler, field by field, one
    method per stretch that other threads cannot interrupt; the ready list and the waiters lists are
    linked through the threads' tags. Each method is proved to be the step of module Sched it stands
    for; its ASSERTs are asserted in its body. */
module Cpus {
  import opened Sched
  import opened SchedRuns
  import opened ThreadQueues

  /** The fields of struct lock apart from the waiters list; of a bare semaphore only value is used. */
  datatype LockRec = LockRec(value: nat, holder: Maybe, nr: nat, bare: bool)

  /** The locks with their waiters: list l + 1 belongs to lock l, list 0 is the ready list. */
  ghost function LocksOf(q: Queues, locks: seq<LockRec>): (r: seq<Lock>)
    requires q.Valid() && |q.lists| == |locks| + 1
    reads q, q.repr
    ensures |r| == |locks|
    ensures forall l :: 0 <= l < |r| ==>
              r[l] == Lock(locks[l].value, q.Of(l + 1), locks[l].holder, locks[l].nr, locks[l].bare)
  {
    seq(|locks|, l requires 0 <= l < |locks| && q.Valid() && |q.lists| == |locks| + 1 reads q, q.repr =>
      Lock(locks[l].value, q.Of(l + 1), locks[l].holder, locks[l].nr, locks[l].bare))
  }

  /** The lists of main and idle: idle is ready, nobody waits. */
  method BootQueues(lockCnt: nat) returns (q: Queues)
    ensures q.Valid() && fresh(q) && fresh(q.repr) && |q.lists| == lockCnt + 1 && q.tags.Keys == {0, 1}
    ensures q.Of(0) == [1] && forall j :: 0 < j <= lockCnt ==> q.Of(j) == []
  {
    q := new Queues(lockCnt + 1);
    q.AddThread(0);
    q.AddThread(1);
    q.Append(0, 1);
  }

  lemma LocksUpdate(q: Queues, locks: seq<LockRec>, l: nat, k: LockRec)
    requires q.Valid() && |q.lists| == |locks| + 1 && l < |locks|
    ensures LocksOf(q, locks[l := k]) == LocksOf(q, locks)[l := Lock(k.value, q.Of(l + 1), k.holder, k.nr, k.bare)]
  {
  }

  lemma ListInvIntr(s: Sys)
    requires ListInv(s)
    ensures ListInv(s.(intrOn := false)) && WellFormed(s)
    ensures Sched.Schedule(s.(intrOn := false)) == Sched.Schedule(s)
  {
    var r := s.(intrOn := false);
    forall t | t in r.threads ensures ThreadOk(r, t) { assert ThreadOk(s, t); }
    forall l | 0 <= l < |r.locks| ensures WaitersOk(r, l) { assert WaitersOk(s, l); }
    ListInvWellFormed(s);
  }

  /** What idle's thread_block has written when it calls schedule. */
  function IdleOff(s: Sys): Sys
    requires WellFormed(s)
  {
    SetThread(s, s.cur, s.threads[s.cur].(pc := IdleBlock, status := Blocked)).(intrOn := false)
  }

  lemma IdleOffSwitch(s: Sys)
    requires Inv(s) && Enabled(s, Step.IdleBlocks)
    ensures ListInv(IdleOff(s)) && WellFormed(IdleOff(s))
    ensures Sched.Schedule(IdleOff(s)) == Next(s, Step.IdleBlocks) && Inv(Next(s, Step.IdleBlocks))
  {
    StepKeepsInv(s, Step.IdleBlocks);
    IdleBlockKeeps(s);
    ListInvIntr(SetThread(s, s.cur, s.threads[s.cur].(pc := IdleBlock, status := Blocked)));
  }

  /** What thread_yield has written when it calls schedule. */
  function YieldOff(s: Sys): Sys
    requires WellFormed(s)
  {
    SetThread(s, s.cur, s.threads[s.cur].(status := Ready)).(ready := s.ready + [s.cur], intrOn := false)
  }

  lemma YieldOffSwitch(s: Sys)
    requires Inv(s) && Enabled(s, Yield)
    ensures ListInv(YieldOff(s)) && WellFormed(YieldOff(s))
    ensures Sched.Schedule(YieldOff(s)) == Next(s, Yield) && Inv(Next(s, Yield))
  {
    StepKeepsInv(s, Yield);
    YieldKeeps(s);
    ListInvIntr(SetThread(s, s.cur, s.threads[s.cur].(status := Ready)).(ready := s.ready + [s.cur]));
  }

  lemma WaitingOffSwitch(s: Sys, l: nat)
    requires Core(s) && l < |s.locks| && AtTest(s, l) && s.locks[l].value == 0
    ensures var r := Waiting(s, l).(intrOn := false);
            ListInv(r) && WellFormed(r) && Sched.Schedule(r) == DownSection(s, l)
  {
    WaitingKeeps(s, l);
    ListInvIntr(Waiting(s, l));
  }

  /** What sema_up finds after its wake-up. */
  lemma WakeFirstUp(s: Sys, l: nat)
    requires SchedInv(s) && WellFormed(s) && l < |s.locks| && s.locks[l].value == 0
    ensures var w := WakeFirst(s, l);
            l < |w.locks| && w.locks[l] == s.locks[l].(waiters := w.locks[l].waiters) &&
            Raise(s, l) == SetLock(w, l, w.locks[l].(value := 1))
  {
  }

  lemma RaisedUp(s: Sys)
    requires Inv(s) && Enabled(s, Step.SemaUp)
    ensures var l := s.threads[s.cur].pc.l;
            l < |s.locks| && s.locks[l].value == 0 && Raise(s, l).cur == s.cur && s.cur in Raise(s, l).threads &&
            Next(s, Step.SemaUp) == SetPc(Raise(s, l), Out)
    ensures Inv(Next(s, Step.SemaUp))
  {
    StepKeepsInv(s, Step.SemaUp);
    RaiseSpares(s, s.threads[s.cur].pc.l);
  }

  /** The write to holder_repeat_nr that ends an acquire, or the release of an inner one. */
  function Counted(s: Sys, l: nat, nr: nat, depth: nat): Sys
    requires l < |s.locks| && s.cur in s.threads && l < |s.threads[s.cur].depth|
  {
    var c := s.threads[s.cur];
    SetThread(SetLock(s, l, s.locks[l].(nr := nr)), s.cur, c.(pc := Out, depth := c.depth[l := depth]))
  }

  lemma AgainCounted(s: Sys)
    requires Inv(s) && Enabled(s, DoIncNr)
    ensures var c := s.threads[s.cur];
            var l := c.pc.l;
            l < |s.locks| == |c.depth| && Next(s, DoIncNr) == Counted(s, l, s.locks[l].nr + 1, c.depth[l] + 1)
    ensures Inv(Next(s, DoIncNr))
  {
    StepKeepsInv(s, DoIncNr);
  }

  /** An inner release: the counter and the depth are both above 1. */
  lemma InnerCounted(s: Sys)
    requires Inv(s) && Enabled(s, DoDecNr)
    ensures var c := s.threads[s.cur];
            var l := c.pc.l;
            l < |s.locks| == |c.depth| && c.depth[l] > 1 && s.locks[l].nr > 1 &&
            Next(s, DoDecNr) == Counted(s, l, s.locks[l].nr - 1, c.depth[l] - 1)
    ensures Inv(Next(s, DoDecNr))
  {
    StepKeepsInv(s, DoDecNr);
    assert PcOk(s.threads[s.cur]);
  }

  class Cpu {
    var threads: map<Tid, Thread>
    const queues: Queues
    var cur: Tid
    const idle: Tid
    var intrOn: bool
    var locks: seq<LockRec>

    ghost predicate Linked()
      reads this, queues, queues.repr
    {
      queues.Valid() && this !in queues.repr &&
      |queues.lists| == |locks| + 1 && queues.tags.Keys == threads.Keys
    }

    ghost function Abs(): Sys
      requires Linked()
      reads this, queues, queues.repr
    {
      Sys(threads, queues.Of(0), cur, idle, intrOn, LocksOf(queues, locks))
    }

    /** A thread that is neither ready nor waiting has its tag on no list. */
    lemma OnNoQueue(t: Tid)
      requires Linked() && ListInv(Abs()) && t in threads && threads[t].status != Ready && !OnWaiters(Abs(), t)
      ensures forall j :: 0 <= j < |queues.lists| ==> t !in queues.Of(j)
    {
      assert ThreadOk(Abs(), t);
      forall j | 0 < j < |queues.lists| ensures t !in queues.Of(j) {
        assert WaitersOk(Abs(), j - 1);
      }
    }

    /** The running thread is on no list, whether or not interrupts are on. */
    lemma RunningOffLists(entry: Sys)
      requires Linked() && SchedInv(entry) && Abs() == entry.(intrOn := false)
      ensures cur in threads && forall j :: 0 <= j < |queues.lists| ==> cur !in queues.Of(j)
    {
      assert ThreadOk(entry, cur);
      forall j | 0 < j < |queues.lists| ensures cur !in queues.Of(j) {
        assert queues.Of(j) == entry.locks[j - 1].waiters;
        NotWaiting(entry, j - 1);
      }
    }

    constructor Init(bare: seq<bool>)
      ensures Linked() && Abs() == Boot(bare) && Inv(Abs())
      ensures fresh(queues) && fresh(queues.repr)
    {
      var none := seq(|bare|, _ => 0);
      threads := map[0 := Thread(Running, 31, 31, Out, none), 1 := Thread(Ready, 10, 10, Out, none)];
      var q := BootQueues(|bare|);
      queues, cur, idle, intrOn := q, 0, 1, true;
      locks := seq(|bare|, l requires 0 <= l < |bare| => LockRec(if bare[l] then 0 else 1, Nobody, 0, bare[l]));
      new;
      assert LocksOf(queues, locks) == Boot(bare).locks;
      BootInv(bare);
    }

    // ----- the writes -----

    /** A write to fields of one thread. */
    method StoreThread(t: Tid, c: Thread)
      requires Linked() && t in threads
      modifies this`threads
      ensures Linked() && threads == old(threads)[t := c] && Abs() == SetThread(old(Abs()), t, c)
    {
      threads := threads[t := c];
    }

    /** A write to fields of one lock. */
    method StoreLock(l: nat, k: LockRec)
      requires Linked() && l < |locks|
      modifies this`locks
      ensures Linked() && var s := old(Abs());
              Abs() == SetLock(s, l, Lock(k.value, s.locks[l].waiters, k.holder, k.nr, k.bare))
      ensures locks == old(locks)[l := k]
    {
      LocksUpdate(queues, locks, l, k);
      locks := locks[l := k];
    }

    method SetIntr(on: bool)
      requires Linked()
      modifies this`intrOn
      ensures Linked() && intrOn == on && Abs() == old(Abs()).(intrOn := on)
    {
      intrOn := on;
    }

    // ----- thread.c -----

    /** The blocked thread's tag is on no list: its waker has popped it. */
    method ThreadUnblock(pthread: Tid)
      requires Linked() && pthread in threads && UnblockAsserts(Abs(), pthread)
      requires forall j :: 0 <= j < |queues.lists| ==> pthread !in queues.Of(j)
      modifies this`threads, queues.repr
      ensures queues.repr == old(queues.repr)
      ensures Linked() && Abs() == Unblock(old(Abs()), pthread)
    {
      assert threads[pthread].status == Blocked;
      if threads[pthread].status != Ready {
        var found := queues.Find(0, pthread);
        assert !found;
        queues.Push(0, pthread);
        assert LocksOf(queues, locks) == old(LocksOf(queues, locks));
        StoreThread(pthread, threads[pthread].(status := Ready));
      }
    }

    /** The list_append of a thread to the ready list, behind its ASSERT. */
    method ReadyAppend(t: Tid)
      requires Linked() && t in threads
      requires forall j :: 0 <= j < |queues.lists| ==> t !in queues.Of(j)
      modifies queues.repr
      ensures queues.repr == old(queues.repr)
      ensures Linked() && Abs() == old(Abs()).(ready := old(Abs()).ready + [t])
    {
      var found := queues.Find(0, t);
      assert !found;
      queues.Append(0, t);
      assert LocksOf(queues, locks) == old(LocksOf(queues, locks));
    }

    /** The first half of schedule: a running thread goes back to the ready list. */
    method Preempt()
      requires Linked() && ListInv(Abs())
      modifies this`threads, queues.repr
      ensures queues.repr == old(queues.repr)
      ensures Linked() && Abs() == Requeue(old(Abs())) && ListInv(Abs()) && threads[cur].status != Running
    {
      ghost var entry := Abs();
      if threads[cur].status == Running {
        RequeueKeeps(entry);
        assert ThreadOk(entry, cur);
        OnNoQueue(cur);
        ReadyAppend(cur);
        StoreThread(cur, threads[cur].(ticks := threads[cur].priority, status := Ready));
      }
    }

    /** Then idle is woken if nobody is ready. */
    method WakeIdle()
      requires Linked() && ListInv(Abs()) && threads[cur].status != Running
      modifies this`threads, queues.repr
      ensures queues.repr == old(queues.repr)
      ensures Linked() && Abs().ready != []
      ensures Abs() == if old(Abs()).ready == [] then Unblock(old(Abs()), idle) else old(Abs())
    {
      var empty := queues.Empty(0);
      if empty {
        IdleIsBlocked(Abs());
        OnNoQueue(idle);
        ThreadUnblock(idle);
      }
    }

    /** The rest of schedule: the head of the ready list gets the processor. */
    method Switch()
      requires Linked() && Abs().ready != []
      modifies this`threads, this`cur, queues.repr
      ensures Linked() && var s := old(Abs());
              Abs() == SetThread(s, s.ready[0], s.threads[s.ready[0]].(status := Running))
                       .(ready := s.ready[1..], cur := s.ready[0])
    {
      var empty := queues.Empty(0);
      assert !empty;
      var next := queues.Pop(0);
      assert LocksOf(queues, locks) == old(LocksOf(queues, locks));
      StoreThread(next, threads[next].(status := Running));
      cur := next;   // switch_to
    }

    method Schedule()
      requires Linked() && ListInv(Abs()) && !intrOn
      modifies this, queues.repr
      ensures Linked() && WellFormed(old(Abs())) && Abs() == Sched.Schedule(old(Abs()))
      ensures old(cur) in threads && threads[old(cur)].ticks == old(
                if threads[cur].status == Running then threads[cur].priority else threads[cur].ticks)
    {
      ghost var entry := Abs();
      ListInvWellFormed(entry);
      assert !intrOn;
      Preempt();
      WakeIdle();
      Switch();
      assert Abs() == Dispatch(Requeue(entry));
      ScheduleTicks(entry, entry.cur);
    }

    /** thread_block of the idle loop, up to the switch. */
    method IdleBlocks()
      requires Linked() && Inv(Abs()) && Enabled(Abs(), Step.IdleBlocks)
      modifies this, queues.repr
      ensures Linked() && Abs() == Next(old(Abs()), Step.IdleBlocks) && Inv(Abs())
    {
      ghost var entry := Abs();
      IdleOffSwitch(entry);
      SetIntr(false);
      StoreThread(cur, threads[cur].(pc := IdleBlock, status := Blocked));
      assert Abs() == IdleOff(entry);
      Schedule();
    }

    method ThreadYield()
      requires Linked() && Inv(Abs()) && Enabled(Abs(), Yield)
      modifies this, queues.repr
      ensures Linked() && Abs() == Next(old(Abs()), Yield) && Inv(Abs())
    {
      ghost var entry := Abs();
      YieldOffSwitch(entry);
      SetIntr(false);
      RunningOffLists(entry);
      ReadyAppend(cur);
      StoreThread(cur, threads[cur].(status := Ready));
      assert Abs() == YieldOff(entry);
      Schedule();
    }

    /** A new PCB and its tag. */
    method NewThread(t: Tid, c: Thread)
      requires Linked() && t !in threads
      modifies this`threads, queues.repr
      ensures fresh(queues.repr - old(queues.repr))
      ensures Linked() && Abs() == SetThread(old(Abs()), t, c)
      ensures forall j :: 0 <= j < |queues.lists| ==> t !in queues.Of(j)
    {
      queues.AddThread(t);
      assert LocksOf(queues, locks) == old(LocksOf(queues, locks));
      threads := threads[t := c];
    }

    /** thread_start: the new thread goes to the back of the ready list. */
    method ThreadStart(t: Tid, prio: nat)
      requires Linked() && Inv(Abs()) && Enabled(Abs(), Spawn(t, prio))
      modifies this, queues.repr
      ensures Linked() && Abs() == Next(old(Abs()), Spawn(t, prio)) && Inv(Abs())
    {
      StepKeepsInv(Abs(), Spawn(t, prio));
      NewThread(t, Thread(Ready, prio, prio, Out, seq(|locks|, _ => 0)));
      ReadyAppend(t);
    }

    /** The slice has run out. */
    method EndSlice()
      requires Linked() && Inv(Abs()) && Enabled(Abs(), Tick) && threads[cur].ticks == 0
      modifies this, queues.repr
      ensures Linked() && Abs() == Next(old(Abs()), Tick)
      ensures old(cur) in threads && threads[old(cur)].ticks == old(threads[cur].priority)
    {
      ListInvIntr(Abs());
      SetIntr(false);
      Schedule();
    }

    /** intr_timer_handler, run on the interrupted thread with interrupts off. */
    method TimerHandler()
      requires Linked() && Inv(Abs()) && Enabled(Abs(), Tick)
      modifies this, queues.repr
      ensures Linked() && Abs() == Next(old(Abs()), Tick) && Inv(Abs())
      ensures old(cur) in threads && threads[old(cur)].ticks == old(
                if threads[cur].ticks == 0 then threads[cur].priority else threads[cur].ticks - 1)
    {
      StepKeepsInv(Abs(), Tick);
      if threads[cur].ticks == 0 {
        EndSlice();
      } else {
        StoreThread(cur, threads[cur].(ticks := threads[cur].ticks - 1));
      }
    }

    /** What the new thread does first: iret, or the intr_set_status that ends its own call. */
    method Resume()
      requires Linked() && Inv(Abs()) && Enabled(Abs(), Step.Resume)
      modifies this
      ensures Linked() && Abs() == Next(old(Abs()), Step.Resume) && Inv(Abs())
    {
      StepKeepsInv(Abs(), Step.Resume);
      StoreThread(cur, threads[cur].(pc := if threads[cur].pc.IdleBlock? then Out else threads[cur].pc));
      SetIntr(true);
    }

    // ----- sync.c -----

    /** The body of sema_down's loop before thread_block, with interrupts off. */
    method Enlist(l: nat)
      requires Linked() && l < |locks| && cur in threads && WellFormed(Abs())
      requires forall j :: 0 <= j < |queues.lists| ==> cur !in queues.Of(j)
      modifies this, queues.repr
      ensures queues.repr == old(queues.repr)
      ensures Linked() && Abs() == Waiting(old(Abs()), l)
    {
      var found := queues.Find(l + 1, cur);
      assert !found;
      ghost var entry := Abs();
      queues.Append(l + 1, cur);
      assert LocksOf(queues, locks) == entry.locks[l := entry.locks[l].(waiters := entry.locks[l].waiters + [cur])];
      StoreThread(cur, threads[cur].(pc := InDown(l), status := Blocked));
    }

    /** sema_down from its loop test to the take, or to the switch inside thread_block. */
    method SemaDown()
      requires Linked() && Inv(Abs()) && Enabled(Abs(), Step.SemaDown)
      modifies this, queues.repr
      ensures Linked() && Abs() == Next(old(Abs()), Step.SemaDown) && Inv(Abs())
    {
      StepKeepsInv(Abs(), Step.SemaDown);
      assert ThreadOk(Abs(), cur);
      DownAt(threads[cur].pc.l);
    }

    /** sema_down on a channel's disk_done, entered from ide_read or ide_write. */
    method DiskDown(l: nat)
      requires Linked() && Inv(Abs()) && Enabled(Abs(), BareDown(l))
      modifies this, queues.repr
      ensures Linked() && Abs() == Next(old(Abs()), BareDown(l)) && Inv(Abs())
    {
      StepKeepsInv(Abs(), BareDown(l));
      DownAt(l);
    }

    method DownAt(l: nat)
      requires Linked() && Core(Abs()) && l < |locks| && AtTest(Abs(), l)
      modifies this, queues.repr
      ensures Linked() && Abs() == DownSection(old(Abs()), l)
    {
      if locks[l].value == 0 {
        DownWaits(l);
      } else {
        DownTakes(l);
      }
    }

    /** A turn of its loop. */
    method DownWaits(l: nat)
      requires Linked() && Core(Abs()) && l < |locks| && AtTest(Abs(), l) && locks[l].value == 0
      modifies this, queues.repr
      ensures Linked() && Abs() == DownSection(old(Abs()), l)
    {
      ghost var entry := Abs();
      WaitingOffSwitch(entry, l);
      SetIntr(false);
      RunningOffLists(entry);
      Enlist(l);
      assert Abs() == Waiting(entry, l).(intrOn := false);
      Schedule();
    }

    /** The way out of its loop. */
    method DownTakes(l: nat)
      requires Linked() && Core(Abs()) && l < |locks| && AtTest(Abs(), l) && locks[l].value != 0
      modifies this
      ensures Linked() && Abs() == DownSection(old(Abs()), l)
    {
      TestKeeps(Abs(), l);
      SetIntr(false);
      var k := locks[l].(value := locks[l].value - 1);
      assert k.value == 0;
      StoreLock(l, k);
      StoreThread(cur, threads[cur].(pc := if k.bare then Out else SetHolder(l)));
      SetIntr(true);
    }

    /** The thread just popped by sema_up is on no list. */
    lemma PoppedOffLists(entry: Sys, l: nat)
      requires Linked() && SchedInv(entry) && WellFormed(entry) && l < |entry.locks| && entry.locks[l].waiters != []
      requires Abs() == SetLock(entry, l, entry.locks[l].(waiters := entry.locks[l].waiters[1..]))
      ensures forall j :: 0 <= j < |queues.lists| ==> entry.locks[l].waiters[0] !in queues.Of(j)
    {
      var t := entry.locks[l].waiters[0];
      WakeKeeps(entry, l);
      assert WaitersOk(entry, l);
      forall j | 0 < j < |queues.lists| ensures t !in queues.Of(j) {
        assert queues.Of(j) == Abs().locks[j - 1].waiters;
        assert WaitersOk(entry, j - 1);
      }
    }

    /** list_pop of the first waiter. */
    method PopWaiter(l: nat) returns (blocked: Tid)
      requires Linked() && l < |locks| && Abs().locks[l].waiters != []
      modifies queues.repr
      ensures queues.repr == old(queues.repr)
      ensures Linked() && var s := old(Abs());
              blocked == s.locks[l].waiters[0] && blocked in threads &&
              Abs() == SetLock(s, l, s.locks[l].(waiters := s.locks[l].waiters[1..]))
    {
      ghost var entry := Abs();
      blocked := queues.Pop(l + 1);
      assert LocksOf(queues, locks) == entry.locks[l := entry.locks[l].(waiters := entry.locks[l].waiters[1..])];
    }

    /** The wake-up of the first waiter. */
    method Wake(l: nat)
      requires Linked() && SchedInv(Abs()) && WellFormed(Abs()) && l < |locks|
      modifies this`threads, queues.repr
      ensures Linked() && Abs() == WakeFirst(old(Abs()), l)
    {
      ghost var entry := Abs();
      var empty := queues.Empty(l + 1);
      if !empty {
        WakeKeeps(entry, l);
        var blocked := PopWaiter(l);
        PoppedOffLists(entry, l);
        ThreadUnblock(blocked);
      }
    }

    /** sema_up, with interrupts off. */
    method RaiseAt(l: nat)
      requires Linked() && SchedInv(Abs()) && WellFormed(Abs()) && l < |locks| && locks[l].value == 0
      modifies this`threads, this`locks, queues.repr
      ensures Linked() && Abs() == Raise(old(Abs()), l)
    {
      WakeFirstUp(Abs(), l);
      assert locks[l].value == 0;
      Wake(l);
      var k := locks[l].(value := locks[l].value + 1);
      assert k.value == 1;
      StoreLock(l, k);
    }

    method SemaUp()
      requires Linked() && Inv(Abs()) && Enabled(Abs(), Step.SemaUp)
      modifies this, queues.repr
      ensures Linked() && Abs() == Next(old(Abs()), Step.SemaUp) && Inv(Abs())
    {
      RaisedUp(Abs());
      RaiseAt(threads[cur].pc.l);
      StoreThread(cur, threads[cur].(pc := Out));
    }

    /** The sema_up of intr_hd_handler, whatever thread was interrupted. */
    method DiskHandler(l: nat)
      requires Linked() && Inv(Abs()) && Enabled(Abs(), BareUp(l))
      modifies this, queues.repr
      ensures Linked() && Abs() == Next(old(Abs()), BareUp(l)) && Inv(Abs())
    {
      StepKeepsInv(Abs(), BareUp(l));
      ListInvWellFormed(Abs());
      RaiseAt(l);
    }

    /** The test of line 56: is the caller the holder already? */
    method AcquireTest(l: nat)
      requires Linked() && Inv(Abs()) && Enabled(Abs(), Step.AcquireTest(l))
      modifies this
      ensures Linked() && Abs() == Next(old(Abs()), Step.AcquireTest(l)) && Inv(Abs())
    {
      StepKeepsInv(Abs(), Step.AcquireTest(l));
      var pc := if locks[l].holder != Holder(cur) then Down(l) else IncNr(l);
      StoreThread(cur, threads[cur].(pc := pc));
    }

    method CountNr(l: nat, nr: nat, depth: nat)
      requires Linked() && l < |locks| && cur in threads && l < |threads[cur].depth|
      modifies this`threads, this`locks
      ensures Linked() && Abs() == Counted(old(Abs()), l, nr, depth)
    {
      var c := threads[cur];
      StoreLock(l, locks[l].(nr := nr));
      StoreThread(cur, c.(pc := Out, depth := c.depth[l := depth]));
    }

    method AcquireAgain()
      requires Linked() && Inv(Abs()) && Enabled(Abs(), DoIncNr)
      modifies this
      ensures Linked() && Abs() == Next(old(Abs()), DoIncNr) && Inv(Abs())
    {
      AgainCounted(Abs());
      var l := threads[cur].pc.l;
      CountNr(l, locks[l].nr + 1, threads[cur].depth[l] + 1);
    }

    method TakeHolder()
      requires Linked() && Inv(Abs()) && Enabled(Abs(), DoSetHolder)
      modifies this
      ensures Linked() && Abs() == Next(old(Abs()), DoSetHolder) && Inv(Abs())
    {
      StepKeepsInv(Abs(), DoSetHolder);
      var l := threads[cur].pc.l;
      StoreLock(l, locks[l].(holder := Holder(cur)));
      StoreThread(cur, threads[cur].(pc := SetNr(l)));
    }

    method TakeNr()
      requires Linked() && Inv(Abs()) && Enabled(Abs(), DoSetNr)
      modifies this
      ensures Linked() && Abs() == Next(old(Abs()), DoSetNr) && Inv(Abs())
    {
      StepKeepsInv(Abs(), DoSetNr);
      var l := threads[cur].pc.l;
      assert locks[l].nr == 0;
      CountNr(l, 1, 1);
    }

    /** The tests of lines 68 to 73. */
    method ReleaseTest(l: nat)
      requires Linked() && Inv(Abs()) && Enabled(Abs(), Step.ReleaseTest(l))
      modifies this
      ensures Linked() && Abs() == Next(old(Abs()), Step.ReleaseTest(l)) && Inv(Abs())
    {
      StepKeepsInv(Abs(), Step.ReleaseTest(l));
      assert locks[l].holder == Holder(cur);
      if locks[l].nr > 1 {
        StoreThread(cur, threads[cur].(pc := DecNr(l)));
      } else {
        assert locks[l].nr == 1;
        StoreThread(cur, threads[cur].(pc := ClrHolder(l)));
      }
    }

    method ReleaseInner()
      requires Linked() && Inv(Abs()) && Enabled(Abs(), DoDecNr)
      modifies this
      ensures Linked() && Abs() == Next(old(Abs()), DoDecNr) && Inv(Abs())
    {
      InnerCounted(Abs());
      var l := threads[cur].pc.l;
      CountNr(l, locks[l].nr - 1, threads[cur].depth[l] - 1);
    }

    method DropHolder()
      requires Linked() && Inv(Abs()) && Enabled(Abs(), DoClrHolder)
      modifies this
      ensures Linked() && Abs() == Next(old(Abs()), DoClrHolder) && Inv(Abs())
    {
      StepKeepsInv(Abs(), DoClrHolder);
      var c := threads[cur];
      StoreLock(c.pc.l, locks[c.pc.l].(holder := Nobody));
      StoreThread(cur, c.(pc := ClrNr(c.pc.l), depth := c.depth[c.pc.l := 0]));
    }

    method DropNr()
      requires Linked() && Inv(Abs()) && Enabled(Abs(), DoClrNr)
      modifies this
      ensures Linked() && Abs() == Next(old(Abs()), DoClrNr) && Inv(Abs())
    {
      StepKeepsInv(Abs(), DoClrNr);
      var l := threads[cur].pc.l;
      StoreLock(l, locks[l].(nr := 0));
      StoreThread(cur, threads[cur].(pc := Up(l)));
    }
  }
}
