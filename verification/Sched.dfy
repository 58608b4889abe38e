/** The scheduler of thread/thread.c, the timer slice of device/timer.c and the semaphore lock
    of thread/sync.c as one step system. A step is what runs with interrupts off, or one access
    to a lock field with interrupts on; a timer interrupt may come between any two of them.
    thread_start is taken as one step too, although its walk over the ready list runs with
    interrupts on. */
module Sched {
  import Lists

  type Tid = nat
  datatype Status = Running | Ready | Blocked
  datatype Maybe = Nobody | Holder(t: Tid)

  /** Where a thread is inside lock_acquire, lock_release and the idle loop. */
  datatype Pc =
    | Out                   // any other code
    | IncNr(l: nat)         // acquire: the caller already holds l
    | Down(l: nat)          // acquire: about to enter sema_down
    | InDown(l: nat)        // blocked, or woken and not yet back at the loop test
    | SetHolder(l: nat)     // past sema_down
    | SetNr(l: nat)
    | DecNr(l: nat)         // release of an inner acquisition
    | ClrHolder(l: nat)
    | ClrNr(l: nat)
    | Up(l: nat)            // about to enter sema_up
    | IdleBlock             // idle inside thread_block

  /** depth[l] counts the acquisitions of l the thread has completed and not begun to undo. */
  datatype Thread = Thread(status: Status, priority: nat, ticks: nat, pc: Pc, depth: seq<nat>)
  /** A lock, or a bare semaphore such as a channel's disk_done: no holder, and 0 at first. */
  datatype Lock = Lock(value: nat, waiters: seq<Tid>, holder: Maybe, nr: nat, bare: bool)
  datatype Sys = Sys(threads: map<Tid, Thread>, ready: seq<Tid>, cur: Tid, idle: Tid,
                     intrOn: bool, locks: seq<Lock>)

  datatype Step =
    | Tick | Yield | Resume | Spawn(t: Tid, prio: nat) | IdleBlocks
    | AcquireTest(l: nat) | DoIncNr | SemaDown | DoSetHolder | DoSetNr
    | ReleaseTest(l: nat) | DoDecNr | DoClrHolder | DoClrNr | SemaUp
    | BareDown(l: nat)      // sema_down(&channel->disk_done), up to its take or its switch
    | BareUp(l: nat)        // the sema_up of intr_hd_handler, whatever thread is running

  // ----- the operations -----

  function SetThread(s: Sys, t: Tid, th: Thread): Sys
  {
    s.(threads := s.threads[t := th])
  }

  function SetPc(s: Sys, pc: Pc): Sys
    requires s.cur in s.threads
  {
    SetThread(s, s.cur, s.threads[s.cur].(pc := pc))
  }

  function SetLock(s: Sys, l: nat, k: Lock): Sys
    requires l < |s.locks|
  {
    s.(locks := s.locks[l := k])
  }

  /** thread_unblock: to the front of the ready list. */
  function Unblock(s: Sys, t: Tid): Sys
    requires t in s.threads
  {
    SetThread(s, t, s.threads[t].(status := Ready)).(ready := [t] + s.ready)
  }

  /** The first half of schedule: a running thread goes to the back with a fresh slice. */
  function Requeue(s: Sys): Sys
    requires s.cur in s.threads
  {
    var c := s.threads[s.cur];
    if c.status == Running then
      SetThread(s, s.cur, c.(status := Ready, ticks := c.priority)).(ready := s.ready + [s.cur])
    else s
  }

  /** The second half: wake idle if nobody is ready, then switch to the head of the list. */
  function Dispatch(s: Sys): Sys
    requires s.idle in s.threads
    requires forall t :: t in s.ready ==> t in s.threads
  {
    var w := if s.ready == [] then Unblock(s, s.idle) else s;
    var next := w.ready[0];
    SetThread(w, next, w.threads[next].(status := Running)).(ready := w.ready[1..], cur := next, intrOn := false)
  }

  function Schedule(s: Sys): Sys
    requires s.cur in s.threads && s.idle in s.threads
    requires forall t :: t in s.ready ==> t in s.threads
  {
    Dispatch(Requeue(s))
  }

  predicate WellFormed(s: Sys)
  {
    s.cur in s.threads && s.idle in s.threads &&
    (forall t :: t in s.ready ==> t in s.threads) &&
    (forall t :: t in s.threads ==> |s.threads[t].depth| == |s.locks|) &&
    forall l, t :: 0 <= l < |s.locks| && t in s.locks[l].waiters ==> t in s.threads
  }

  predicate PcInRange(s: Sys, pc: Pc)
  {
    pc.Out? || pc.IdleBlock? || (pc.l < |s.locks| && (pc.Down? ==> !s.locks[pc.l].bare))
  }

  predicate Enabled(s: Sys, step: Step)
    requires WellFormed(s)
  {
    var c := s.threads[s.cur];
    PcInRange(s, c.pc) &&
    match step
    case Tick => s.intrOn
    case Resume => !s.intrOn && !c.pc.InDown?
    case SemaDown => (s.intrOn && c.pc.Down?) || (!s.intrOn && c.pc.InDown?)
    case IdleBlocks => s.intrOn && s.cur == s.idle && c.pc == Out
    case Yield => s.intrOn && s.cur != s.idle && c.pc == Out
    case Spawn(t, prio) => s.intrOn && s.cur != s.idle && c.pc == Out && t !in s.threads && prio < 256
    case AcquireTest(l) => s.intrOn && s.cur != s.idle && c.pc == Out && l < |s.locks| && !s.locks[l].bare
    // callers release what they hold
    case ReleaseTest(l) => s.intrOn && s.cur != s.idle && c.pc == Out && l < |s.locks| && c.depth[l] >= 1
    case DoIncNr => s.intrOn && c.pc.IncNr?
    case DoSetHolder => s.intrOn && c.pc.SetHolder?
    case DoSetNr => s.intrOn && c.pc.SetNr?
    case DoDecNr => s.intrOn && c.pc.DecNr?
    case DoClrHolder => s.intrOn && c.pc.ClrHolder?
    case DoClrNr => s.intrOn && c.pc.ClrNr?
    case SemaUp => s.intrOn && c.pc.Up?
    case BareDown(l) => s.intrOn && s.cur != s.idle && c.pc == Out && l < |s.locks| && s.locks[l].bare
    // its ASSERT; that the handler comes here with 0 only is proved in module Driver
    case BareUp(l) => s.intrOn && l < |s.locks| && s.locks[l].bare && s.locks[l].value == 0
  }

  /** The loop body of sema_down up to schedule: on the waiters list and recorded as blocked. */
  function Waiting(s: Sys, l: nat): Sys
    requires WellFormed(s) && l < |s.locks|
  {
    var k := s.locks[l];
    SetThread(SetLock(s, l, k.(waiters := k.waiters + [s.cur])), s.cur,
              s.threads[s.cur].(pc := InDown(l), status := Blocked))
  }

  /** sema_down from one loop test to the take or to the switch. */
  function DownSection(s: Sys, l: nat): Sys
    requires WellFormed(s) && l < |s.locks|
  {
    var k := s.locks[l];
    if k.value == 0 then
      Schedule(Waiting(s, l))
    else
      SetPc(SetLock(s, l, k.(value := k.value - 1)), if k.bare then Out else SetHolder(l)).(intrOn := true)
  }

  /** sema_up pops a waiter if there is one ... */
  function WakeFirst(s: Sys, l: nat): Sys
    requires WellFormed(s) && l < |s.locks|
  {
    var k := s.locks[l];
    if k.waiters == [] then s else Unblock(SetLock(s, l, k.(waiters := k.waiters[1..])), k.waiters[0])
  }

  /** ... then raises the value. */
  function Raise(s: Sys, l: nat): Sys
    requires WellFormed(s) && l < |s.locks|
  {
    var w := WakeFirst(s, l);
    SetLock(w, l, w.locks[l].(value := s.locks[l].value + 1))
  }

  function UpSection(s: Sys, l: nat): Sys
    requires WellFormed(s) && l < |s.locks|
  {
    SetPc(Raise(s, l), Out)
  }

  function Next(s: Sys, step: Step): Sys
    requires WellFormed(s) && Enabled(s, step)
  {
    var c := s.threads[s.cur];
    match step
    case Tick =>
      if c.ticks == 0 then Schedule(s)
      else SetThread(s, s.cur, c.(ticks := c.ticks - 1))
    case Yield =>
      Schedule(SetThread(s, s.cur, c.(status := Ready)).(ready := s.ready + [s.cur]))
    case Resume => SetPc(s, if c.pc.IdleBlock? then Out else c.pc).(intrOn := true)
    case Spawn(t, prio) =>
      SetThread(s, t, Thread(Ready, prio, prio, Out, seq(|s.locks|, _ => 0))).(ready := s.ready + [t])
    case IdleBlocks => Schedule(SetThread(s, s.cur, c.(pc := IdleBlock, status := Blocked)))
    case AcquireTest(l) => SetPc(s, if s.locks[l].holder == Holder(s.cur) then IncNr(l) else Down(l))
    case DoIncNr =>
      var l := c.pc.l;
      SetThread(SetLock(s, l, s.locks[l].(nr := s.locks[l].nr + 1)), s.cur,
                c.(pc := Out, depth := c.depth[l := c.depth[l] + 1]))
    case SemaDown => DownSection(s, c.pc.l)
    case DoSetHolder => SetPc(SetLock(s, c.pc.l, s.locks[c.pc.l].(holder := Holder(s.cur))), SetNr(c.pc.l))
    case DoSetNr =>
      SetThread(SetLock(s, c.pc.l, s.locks[c.pc.l].(nr := 1)), s.cur,
                c.(pc := Out, depth := c.depth[c.pc.l := 1]))
    case ReleaseTest(l) => SetPc(s, if s.locks[l].nr > 1 then DecNr(l) else ClrHolder(l))
    case DoDecNr =>
      var l := c.pc.l;
      SetThread(SetLock(s, l, s.locks[l].(nr := if s.locks[l].nr > 0 then s.locks[l].nr - 1 else 0xffff_ffff)),
                s.cur, c.(pc := Out, depth := c.depth[l := if c.depth[l] > 0 then c.depth[l] - 1 else 0]))
    case DoClrHolder =>
      SetThread(SetLock(s, c.pc.l, s.locks[c.pc.l].(holder := Nobody)), s.cur,
                c.(pc := ClrNr(c.pc.l), depth := c.depth[c.pc.l := 0]))
    case DoClrNr => SetPc(SetLock(s, c.pc.l, s.locks[c.pc.l].(nr := 0)), Up(c.pc.l))
    case SemaUp => UpSection(s, c.pc.l)
    case BareDown(l) => DownSection(s, l)
    case BareUp(l) => Raise(s, l)
  }

  // ----- the ASSERTs -----

  /** The ASSERT of line 151 (and the list check of line 153). */
  predicate UnblockAsserts(s: Sys, t: Tid)
    requires t in s.threads
  {
    s.threads[t].status == Blocked && t !in s.ready
  }

  /** The ASSERTs of schedule: interrupts off is the caller's, the list checks are here. */
  predicate ScheduleAsserts(s: Sys)
    requires s.cur in s.threads && s.idle in s.threads
  {
    var c := s.threads[s.cur];
    (c.status == Running ==> s.cur !in s.ready) &&
    (Requeue(s).ready == [] ==> UnblockAsserts(s, s.idle))
  }

  /** Every ASSERT the step passes. */
  predicate Asserts(s: Sys, step: Step)
    requires WellFormed(s) && Enabled(s, step)
  {
    var c := s.threads[s.cur];
    match step
    case Tick => c.ticks == 0 ==> ScheduleAsserts(s)
    case Yield => s.cur !in s.ready
    case Spawn(t, prio) => t !in s.ready
    case IdleBlocks => ScheduleAsserts(SetThread(s, s.cur, c.(pc := IdleBlock, status := Blocked)))
    case SemaDown =>
      var k := s.locks[c.pc.l];
      if k.value == 0 then s.cur !in k.waiters && ScheduleAsserts(Waiting(s, c.pc.l))
      else k.value - 1 == 0
    case DoSetNr => s.locks[c.pc.l].nr == 0
    case ReleaseTest(l) => s.locks[l].holder == Holder(s.cur) && s.locks[l].nr >= 1
    case DoDecNr => s.locks[c.pc.l].nr > 1
    case SemaUp =>
      var k := s.locks[c.pc.l];
      k.value == 0 && (k.waiters != [] ==> UnblockAsserts(s, k.waiters[0]))
    case BareDown(l) =>
      var k := s.locks[l];
      if k.value == 0 then s.cur !in k.waiters && ScheduleAsserts(Waiting(s, l))
      else k.value - 1 == 0
    case BareUp(l) =>
      var k := s.locks[l];
      k.value == 0 && (k.waiters != [] ==> UnblockAsserts(s, k.waiters[0]))
    case _ => true
  }

  // ----- the invariant, scheduler half -----

  predicate OnWaiters(s: Sys, t: Tid)
    requires t in s.threads
  {
    s.threads[t].pc.InDown? && s.threads[t].pc.l < |s.locks| && t in s.locks[s.threads[t].pc.l].waiters
  }

  /** READY iff on the ready list; RUNNING only if current; BLOCKED iff on a waiters list or idle. */
  predicate ThreadOk(s: Sys, t: Tid)
    requires t in s.threads
  {
    var c := s.threads[t];
    |c.depth| == |s.locks| && PcInRange(s, c.pc) && c.ticks <= c.priority < 256 &&
    (c.status == Ready <==> t in s.ready) &&
    (c.status == Running ==> t == s.cur) &&
    (c.status == Blocked ==> OnWaiters(s, t) || c.pc == IdleBlock) &&
    (OnWaiters(s, t) ==> c.status == Blocked) &&
    (c.pc == IdleBlock ==> t == s.idle) &&
    (t == s.idle ==> c.pc == Out || c.pc == IdleBlock)
  }

  predicate WaitersOk(s: Sys, l: nat)
    requires l < |s.locks|
  {
    Lists.Distinct(s.locks[l].waiters) &&
    forall t :: t in s.locks[l].waiters ==> t in s.threads && s.threads[t].pc == InDown(l)
  }

  predicate ListInv(s: Sys)
  {
    s.cur in s.threads && s.idle in s.threads && Lists.Distinct(s.ready) &&
    (forall t :: t in s.ready ==> t in s.threads) &&
    (forall t {:trigger ThreadOk(s, t)} :: t in s.threads ==> ThreadOk(s, t)) &&
    forall l {:trigger WaitersOk(s, l)} :: 0 <= l < |s.locks| ==> WaitersOk(s, l)
  }

  predicate SchedInv(s: Sys)
  {
    ListInv(s) && s.threads[s.cur].status == Running &&
    (s.intrOn ==> !s.threads[s.cur].pc.InDown? && !s.threads[s.cur].pc.IdleBlock?)
  }

  lemma ListInvWellFormed(s: Sys)
    requires ListInv(s)
    ensures WellFormed(s)
  {
    forall t | t in s.threads ensures |s.threads[t].depth| == |s.locks| { assert ThreadOk(s, t); }
    forall l, t | 0 <= l < |s.locks| && t in s.locks[l].waiters ensures t in s.threads {
      assert WaitersOk(s, l);
    }
  }

  lemma RequeueKeeps(s: Sys)
    requires ListInv(s) && s.threads[s.cur].status == Running
    ensures s.cur !in s.ready && ListInv(Requeue(s)) && Requeue(s).threads[s.cur].status == Ready
  {
    var r := Requeue(s);
    assert ThreadOk(s, s.cur);
    forall t | t in r.threads ensures ThreadOk(r, t) { assert ThreadOk(s, t); }
    forall l | 0 <= l < |r.locks| ensures WaitersOk(r, l) { assert WaitersOk(s, l); }
  }

  lemma UnblockKeeps(s: Sys, t: Tid)
    requires ListInv(s) && t in s.threads && s.threads[t].status == Blocked && !OnWaiters(s, t)
    ensures UnblockAsserts(s, t) && ListInv(Unblock(s, t))
  {
    var r := Unblock(s, t);
    assert ThreadOk(s, t);
    forall u | u in r.threads ensures ThreadOk(r, u) { assert ThreadOk(s, u); }
    forall l | 0 <= l < |r.locks| ensures WaitersOk(r, l) { assert WaitersOk(s, l); }
  }

  /** With nobody ready and the caller off the processor, idle is the blocked one. */
  lemma IdleIsBlocked(s: Sys)
    requires ListInv(s) && s.threads[s.cur].status != Running && s.ready == []
    ensures s.threads[s.idle].status == Blocked && !OnWaiters(s, s.idle)
  {
    assert ThreadOk(s, s.idle);
  }

  lemma PopKeeps(s: Sys)
    requires ListInv(s) && s.threads[s.cur].status != Running && s.ready != []
    ensures SchedInv(Dispatch(s))
  {
    var r, next := Dispatch(s), s.ready[0];
    assert next in s.ready && next in s.threads;
    assert forall t :: t in r.ready <==> t in s.ready && t != next;
    forall u | u in r.threads ensures ThreadOk(r, u) { assert ThreadOk(s, u); }
    forall l | 0 <= l < |r.locks| ensures WaitersOk(r, l) { assert WaitersOk(s, l); }
  }

  lemma DispatchKeeps(s: Sys)
    requires ListInv(s) && s.threads[s.cur].status != Running
    ensures s.ready == [] ==> UnblockAsserts(s, s.idle)
    ensures SchedInv(Dispatch(s))
  {
    if s.ready == [] {
      IdleIsBlocked(s);
      UnblockKeeps(s, s.idle);
      PopKeeps(Unblock(s, s.idle));
    } else {
      PopKeeps(s);
    }
  }

  lemma ScheduleKeeps(s: Sys)
    requires ListInv(s)
    ensures WellFormed(s) && ScheduleAsserts(s) && SchedInv(Schedule(s))
  {
    ListInvWellFormed(s);
    if s.threads[s.cur].status == Running { RequeueKeeps(s); }
    DispatchKeeps(Requeue(s));
  }

  // ----- the invariant, lock half -----

  /** Past sema_down and before the end of sema_up. */
  predicate Inside(s: Sys, t: Tid, l: nat)
    requires t in s.threads && l < |s.threads[t].depth|
  {
    var c := s.threads[t];
    c.depth[l] > 0 || c.pc == SetHolder(l) || c.pc == SetNr(l) || c.pc == ClrNr(l) || c.pc == Up(l)
  }

  /** What the lock's fields are while t is inside. */
  predicate OwnerOk(s: Sys, t: Tid, l: nat)
    requires t in s.threads && l < |s.threads[t].depth| && l < |s.locks|
  {
    var c, k := s.threads[t], s.locks[l];
    k.value == 0 &&
    if c.pc == SetHolder(l) || c.pc == Up(l) then k.holder == Nobody && k.nr == 0 && c.depth[l] == 0
    else if c.pc == SetNr(l) then k.holder == Holder(t) && k.nr == 0 && c.depth[l] == 0
    else if c.pc == ClrNr(l) then k.holder == Nobody && k.nr == 1 && c.depth[l] == 0
    else k.holder == Holder(t) && k.nr == c.depth[l]
  }

  predicate PcOk(c: Thread)
  {
    match c.pc
    case IncNr(l) => l < |c.depth| && c.depth[l] >= 1
    case DecNr(l) => l < |c.depth| && c.depth[l] >= 2
    case ClrHolder(l) => l < |c.depth| && c.depth[l] == 1
    case Down(l) => l < |c.depth| && c.depth[l] == 0
    case InDown(l) => l < |c.depth| && c.depth[l] == 0
    case _ => true
  }

  predicate BareOk(s: Sys, l: nat)
    requires WellFormed(s) && l < |s.locks|
  {
    var k := s.locks[l];
    k.value <= 1 && k.holder == Nobody && k.nr == 0 && forall t :: t in s.threads ==> !Inside(s, t, l)
  }

  ghost predicate LockOk(s: Sys, l: nat)
    requires WellFormed(s) && l < |s.locks|
  {
    var k := s.locks[l];
    if k.bare then BareOk(s, l) else
    (k.value == 0 || k == Lock(1, k.waiters, Nobody, 0, false)) &&
    (k.value == 0 ==> exists t :: t in s.threads && Inside(s, t, l)) &&
    (forall t :: t in s.threads && Inside(s, t, l) ==> OwnerOk(s, t, l)) &&
    forall t, u :: t in s.threads && u in s.threads && Inside(s, t, l) && Inside(s, u, l) ==> t == u
  }

  ghost predicate LockInv(s: Sys)
  {
    WellFormed(s) && (forall t {:trigger PcOk(s.threads[t])} :: t in s.threads ==> PcOk(s.threads[t])) &&
    forall l {:trigger LockOk(s, l)} :: 0 <= l < |s.locks| ==> LockOk(s, l)
  }

  /** A thread taken off the waiters list that has not been back at the loop test. */
  predicate Woken(s: Sys, t: Tid, l: nat)
    requires l < |s.locks|
  {
    t in s.threads && s.threads[t].pc == InDown(l) && t !in s.locks[l].waiters
  }

  ghost predicate NoLostWakeup(s: Sys)
  {
    forall l :: 0 <= l < |s.locks| && s.locks[l].value == 1 && s.locks[l].waiters != [] ==>
      exists t :: Woken(s, t, l)
  }

  ghost predicate Inv(s: Sys)
  {
    SchedInv(s) && LockInv(s) && NoLostWakeup(s)
  }

  function LockPc(pc: Pc): Pc
  {
    if pc == IdleBlock then Out else pc
  }

  /** Scheduling moves nobody inside lock code and touches no lock. */
  predicate SameLocks(s: Sys, r: Sys)
  {
    s.locks == r.locks && s.threads.Keys == r.threads.Keys &&
    forall t :: t in s.threads ==>
      LockPc(r.threads[t].pc) == LockPc(s.threads[t].pc) && r.threads[t].depth == s.threads[t].depth
  }

  lemma SameLockOk(s: Sys, r: Sys, l: nat)
    requires WellFormed(s) && WellFormed(r) && SameLocks(s, r) && l < |s.locks| && LockOk(s, l)
    ensures LockOk(r, l)
  {
    forall t | t in s.threads ensures Inside(r, t, l) == Inside(s, t, l) && OwnerOk(r, t, l) == OwnerOk(s, t, l) {}
  }

  lemma SameWakeups(s: Sys, r: Sys)
    requires SameLocks(s, r) && NoLostWakeup(s)
    ensures NoLostWakeup(r)
  {
    forall l | 0 <= l < |r.locks| && r.locks[l].value == 1 && r.locks[l].waiters != []
      ensures exists t :: Woken(r, t, l)
    {
      var t :| Woken(s, t, l);
      assert Woken(r, t, l);
    }
  }

  lemma SameLocksKeeps(s: Sys, r: Sys)
    requires LockInv(s) && WellFormed(r) && SameLocks(s, r)
    ensures LockInv(r) && (NoLostWakeup(s) ==> NoLostWakeup(r))
  {
    forall t | t in r.threads ensures PcOk(r.threads[t]) { assert PcOk(s.threads[t]); }
    forall l | 0 <= l < |r.locks| ensures LockOk(r, l) { SameLockOk(s, r, l); }
    if NoLostWakeup(s) { SameWakeups(s, r); }
  }

  lemma ScheduleSameLocks(s: Sys)
    requires WellFormed(s)
    ensures SameLocks(s, Schedule(s))
  {
  }

  /** Only thread t and lock l changed, and at every other lock t stands where it stood. */
  predicate LocalChange(s: Sys, r: Sys, t: Tid, l: nat)
    requires WellFormed(s) && WellFormed(r)
  {
    t in s.threads && r.threads.Keys == s.threads.Keys && l < |s.locks| == |r.locks| &&
    r.locks[l].bare == s.locks[l].bare &&
    (forall u :: u in s.threads && u != t ==>
       r.threads[u].pc == s.threads[u].pc && r.threads[u].depth == s.threads[u].depth) &&
    forall m :: 0 <= m < |s.locks| && m != l ==>
      r.locks[m] == s.locks[m] && r.threads[t].depth[m] == s.threads[t].depth[m]
      && (Inside(s, t, m) <==> Inside(r, t, m)) && (OwnerOk(s, t, m) && Inside(s, t, m) ==> OwnerOk(r, t, m))
  }

  /** The ways a step may move thread t at lock l: enter or move inside, leave, keep out; at a bare
      semaphore everybody keeps out, and the value may change. */
  predicate LegalMove(s: Sys, r: Sys, t: Tid, l: nat)
    requires WellFormed(s) && WellFormed(r) && t in s.threads && t in r.threads && l < |s.locks| == |r.locks|
  {
    var a, b := s.locks[l], r.locks[l];
    if Inside(r, t, l) then OwnerOk(r, t, l) && (Inside(s, t, l) || (a.value == 1 && !a.bare))
    else if Inside(s, t, l) then b == Lock(1, b.waiters, Nobody, 0, false)
    else b == a.(waiters := b.waiters) || (a.bare && b == a.(waiters := b.waiters, value := b.value) && b.value <= 1)
  }

  lemma LocalKeeps(s: Sys, r: Sys, t: Tid, l: nat)
    requires LockInv(s) && WellFormed(r) && LocalChange(s, r, t, l) && PcOk(r.threads[t])
    requires LegalMove(s, r, t, l)
    ensures LockInv(r)
  {
    forall u | u in r.threads ensures PcOk(r.threads[u]) { assert PcOk(s.threads[u]); }
    forall m | 0 <= m < |r.locks| ensures LockOk(r, m) {
      assert LockOk(s, m);
      forall u | u in s.threads && u != t
        ensures Inside(r, u, m) == Inside(s, u, m)
      {}
      if m != l {
        LocalKeepsOther(s, r, t, l, m);
      } else {
        LocalKeepsHere(s, r, t, l);
      }
    }
  }

  lemma LocalKeepsOther(s: Sys, r: Sys, t: Tid, l: nat, m: nat)
    requires WellFormed(s) && WellFormed(r) && LocalChange(s, r, t, l) && m < |s.locks| && m != l && LockOk(s, m)
    ensures LockOk(r, m)
  {
    forall u | u in s.threads ensures Inside(r, u, m) == Inside(s, u, m) && (Inside(s, u, m) ==> OwnerOk(r, u, m)) {
      if u != t && Inside(s, u, m) { assert OwnerOk(s, u, m); }
    }
  }

  lemma LocalKeepsHere(s: Sys, r: Sys, t: Tid, l: nat)
    requires WellFormed(s) && WellFormed(r) && LocalChange(s, r, t, l) && LockOk(s, l)
    requires LegalMove(s, r, t, l)
    ensures LockOk(r, l)
  {
    forall u | u in s.threads && u != t ensures Inside(r, u, l) == Inside(s, u, l) {}
    if Inside(r, t, l) || Inside(s, t, l) {
      forall u | u in s.threads && u != t ensures !Inside(s, u, l) {
        assert Inside(s, u, l) ==> OwnerOk(s, u, l);
      }
    } else if !s.locks[l].bare {
      forall u | u in s.threads && Inside(r, u, l) ensures OwnerOk(r, u, l) { assert OwnerOk(s, u, l); }
      if r.locks[l].value == 0 {
        var u :| u in s.threads && Inside(s, u, l);
        assert Inside(r, u, l);
      }
    }
  }

  // ----- every step keeps the scheduler half -----

  /** A step of the running thread that neither blocks nor wakes anyone. */
  lemma PlainKeeps(s: Sys, r: Sys)
    requires SchedInv(s)
    requires r == s.(threads := r.threads, locks := r.locks, intrOn := r.intrOn)
    requires r.threads.Keys == s.threads.Keys
    requires forall u :: u in s.threads && u != s.cur ==> r.threads[u] == s.threads[u]
    requires |r.locks| == |s.locks|
    requires forall l :: 0 <= l < |s.locks| ==>
               r.locks[l].waiters == s.locks[l].waiters && r.locks[l].bare == s.locks[l].bare
    requires var c, d := s.threads[s.cur], r.threads[s.cur];
             d.status == Running && |d.depth| == |s.locks| && PcInRange(s, d.pc) &&
             d.ticks <= d.priority < 256 && !d.pc.InDown? && !d.pc.IdleBlock? &&
             (s.cur == s.idle ==> d.pc == Out)
    ensures SchedInv(r)
  {
    assert ThreadOk(s, s.cur);
    forall u | u in r.threads ensures ThreadOk(r, u) { assert ThreadOk(s, u); }
    forall l | 0 <= l < |r.locks| ensures WaitersOk(r, l) {
      assert WaitersOk(s, l);
      NotWaiting(s, l);
    }
  }

  lemma NotWaiting(s: Sys, l: nat)
    requires SchedInv(s) && l < |s.locks|
    ensures s.cur !in s.locks[l].waiters
  {
    assert WaitersOk(s, l);
    assert ThreadOk(s, s.cur);
  }

  lemma YieldKeeps(s: Sys)
    requires SchedInv(s)
    ensures s.cur !in s.ready
    ensures ListInv(SetThread(s, s.cur, s.threads[s.cur].(status := Ready)).(ready := s.ready + [s.cur]))
  {
    var r := SetThread(s, s.cur, s.threads[s.cur].(status := Ready)).(ready := s.ready + [s.cur]);
    assert ThreadOk(s, s.cur);
    forall u | u in r.threads ensures ThreadOk(r, u) { assert ThreadOk(s, u); }
    forall l | 0 <= l < |r.locks| ensures WaitersOk(r, l) { assert WaitersOk(s, l); NotWaiting(s, l); }
  }

  lemma SpawnKeeps(s: Sys, t: Tid, prio: nat)
    requires SchedInv(s) && WellFormed(s) && Enabled(s, Spawn(t, prio))
    ensures t !in s.ready && SchedInv(Next(s, Spawn(t, prio)))
  {
    var r := Next(s, Spawn(t, prio));
    assert ThreadOk(s, s.cur);
    forall u | u in r.threads ensures ThreadOk(r, u) { if u != t { assert ThreadOk(s, u); } }
    forall l | 0 <= l < |r.locks| ensures WaitersOk(r, l) { assert WaitersOk(s, l); }
  }

  /** The state in which the caller has recorded that it blocks, just before schedule. */
  lemma IdleBlockKeeps(s: Sys)
    requires SchedInv(s) && s.cur == s.idle
    ensures ListInv(SetThread(s, s.cur, s.threads[s.cur].(pc := IdleBlock, status := Blocked)))
  {
    var r := SetThread(s, s.cur, s.threads[s.cur].(pc := IdleBlock, status := Blocked));
    assert ThreadOk(s, s.cur);
    forall u | u in r.threads ensures ThreadOk(r, u) { assert ThreadOk(s, u); }
    forall l | 0 <= l < |r.locks| ensures WaitersOk(r, l) { assert WaitersOk(s, l); NotWaiting(s, l); }
  }

  lemma WaitingKeeps(s: Sys, l: nat)
    requires SchedInv(s) && WellFormed(s) && l < |s.locks| && s.cur != s.idle
    ensures s.cur !in s.locks[l].waiters && ListInv(Waiting(s, l))
  {
    var r := Waiting(s, l);
    NotWaiting(s, l);
    assert ThreadOk(s, s.cur);
    forall m | 0 <= m < |r.locks| ensures WaitersOk(r, m) { assert WaitersOk(s, m); NotWaiting(s, m); }
    assert s.cur == r.locks[l].waiters[|s.locks[l].waiters|];
    forall u | u in r.threads ensures ThreadOk(r, u) { assert ThreadOk(s, u); }
  }

  /** sema_up's pop leaves its thread off every list for a moment; thread_unblock repairs that. */
  lemma WakeKeeps(s: Sys, l: nat)
    requires SchedInv(s) && WellFormed(s) && l < |s.locks| && s.locks[l].waiters != []
    ensures var k := s.locks[l];
            var t := k.waiters[0];
            t != s.cur && UnblockAsserts(s, t) &&
            SchedInv(Unblock(SetLock(s, l, k.(waiters := k.waiters[1..])), t))
  {
    var k := s.locks[l];
    var t := k.waiters[0];
    var r := Unblock(SetLock(s, l, k.(waiters := k.waiters[1..])), t);
    assert WaitersOk(s, l);
    assert t in k.waiters && OnWaiters(s, t);
    assert ThreadOk(s, t) && ThreadOk(s, s.cur);
    forall m | 0 <= m < |r.locks| ensures WaitersOk(r, m) {
      assert WaitersOk(s, m);
      assert m != l ==> t !in s.locks[m].waiters;
    }
    forall u | u in r.threads ensures ThreadOk(r, u) {
      assert ThreadOk(s, u);
      if u in k.waiters && u != t {
        var i :| 0 <= i < |k.waiters| && k.waiters[i] == u;
        assert k.waiters[1..][i - 1] == u;
      }
    }
  }

  // ----- every step keeps the invariant and passes its ASSERTs -----

  ghost predicate Core(s: Sys)
  {
    SchedInv(s) && LockInv(s)
  }

  ghost predicate Kept(s: Sys, step: Step)
    requires WellFormed(s) && Enabled(s, step)
  {
    Asserts(s, step) && Core(Next(s, step))
  }

  /** schedule itself, from a state b in which the caller is requeued, blocked or running. */
  lemma SwitchFrom(b: Sys)
    requires ListInv(b) && LockInv(b)
    ensures Core(Schedule(b)) && ScheduleAsserts(b)
  {
    ScheduleKeeps(b);
    ListInvWellFormed(Schedule(b));
    ScheduleSameLocks(b);
    SameLocksKeeps(b, Schedule(b));
  }

  lemma TickKeeps(s: Sys)
    requires Core(s) && Enabled(s, Tick)
    ensures Kept(s, Tick)
  {
    assert ThreadOk(s, s.cur);
    if s.threads[s.cur].ticks == 0 {
      SwitchFrom(s);
    } else {
      PlainKeeps(s, Next(s, Tick));
      ListInvWellFormed(Next(s, Tick));
      SameLocksKeeps(s, Next(s, Tick));
    }
  }

  lemma YieldStepKeeps(s: Sys)
    requires Core(s) && Enabled(s, Yield)
    ensures Kept(s, Yield)
  {
    var b := SetThread(s, s.cur, s.threads[s.cur].(status := Ready)).(ready := s.ready + [s.cur]);
    YieldKeeps(s);
    ListInvWellFormed(b);
    SameLocksKeeps(s, b);
    SwitchFrom(b);
  }

  lemma IdleStepKeeps(s: Sys)
    requires Core(s) && Enabled(s, IdleBlocks)
    ensures Kept(s, IdleBlocks)
  {
    var b := SetThread(s, s.cur, s.threads[s.cur].(pc := IdleBlock, status := Blocked));
    IdleBlockKeeps(s);
    ListInvWellFormed(b);
    SameLocksKeeps(s, b);
    SwitchFrom(b);
  }

  lemma ResumeKeeps(s: Sys)
    requires Core(s) && Enabled(s, Resume)
    ensures Kept(s, Resume)
  {
    assert ThreadOk(s, s.cur);
    PlainKeeps(s, Next(s, Resume));
    ListInvWellFormed(Next(s, Resume));
    SameLocksKeeps(s, Next(s, Resume));
  }

  lemma SpawnStepKeeps(s: Sys, t: Tid, prio: nat)
    requires Core(s) && Enabled(s, Spawn(t, prio))
    ensures Kept(s, Spawn(t, prio))
  {
    var r := Next(s, Spawn(t, prio));
    SpawnKeeps(s, t, prio);
    ListInvWellFormed(r);
    forall u | u in r.threads ensures PcOk(r.threads[u]) { if u != t { assert PcOk(s.threads[u]); } }
    forall l | 0 <= l < |r.locks| ensures LockOk(r, l) {
      assert LockOk(s, l);
      assert !Inside(r, t, l);
      forall u | u in s.threads ensures Inside(r, u, l) == Inside(s, u, l) && OwnerOk(r, u, l) == OwnerOk(s, u, l) {}
    }
  }

  lemma WaitingKeepsLocks(s: Sys, l: nat)
    requires Core(s) && l < |s.locks| && s.locks[l].value == 0 && !Inside(s, s.cur, l)
    requires var pc := s.threads[s.cur].pc;
             pc == Down(l) || pc == InDown(l) || (pc == Out && s.locks[l].bare && s.cur != s.idle)
    ensures ListInv(Waiting(s, l)) && LockInv(Waiting(s, l)) && s.cur !in s.locks[l].waiters
  {
    assert ThreadOk(s, s.cur) && PcOk(s.threads[s.cur]);
    WaitingKeeps(s, l);
    ListInvWellFormed(Waiting(s, l));
    LocalKeeps(s, Waiting(s, l), s.cur, l);
  }

  /** The caller is at the loop test of sema_down on l. */
  predicate AtTest(s: Sys, l: nat)
    requires WellFormed(s) && l < |s.locks|
  {
    var pc := s.threads[s.cur].pc;
    s.cur != s.idle && (pc == Down(l) || pc == InDown(l) || (pc == Out && s.locks[l].bare))
  }

  /** The loop test of sema_down: a value of 0 puts the caller to sleep, a value of 1 is taken. */
  lemma TestKeeps(s: Sys, l: nat)
    requires Core(s) && l < |s.locks| && AtTest(s, l)
    ensures Core(DownSection(s, l))
    ensures if s.locks[l].value == 0 then s.cur !in s.locks[l].waiters && ScheduleAsserts(Waiting(s, l))
            else s.locks[l].value - 1 == 0
  {
    assert PcOk(s.threads[s.cur]) && LockOk(s, l);
    if s.locks[l].value == 0 {
      WaitingKeepsLocks(s, l);
      SwitchFrom(Waiting(s, l));
    } else {
      TakeKeeps(s, l);
    }
  }

  lemma TakeLocal(s: Sys, l: nat)
    requires WellFormed(s) && l < |s.locks| && AtTest(s, l) && s.locks[l].value == 1
    requires WellFormed(DownSection(s, l))
    ensures LocalChange(s, DownSection(s, l), s.cur, l)
  {
    var r := DownSection(s, l);
    var w := s.(locks := r.locks);
    SparedLocal(s, w, s.cur, l);
    MoveLocal(s, w, r, s.cur, l);
  }

  lemma TakeKeeps(s: Sys, l: nat)
    requires Core(s) && l < |s.locks| && AtTest(s, l) && s.locks[l].value == 1
    ensures Core(DownSection(s, l))
  {
    var r := DownSection(s, l);
    assert ThreadOk(s, s.cur) && PcOk(s.threads[s.cur]);
    PlainKeeps(s, r);
    ListInvWellFormed(r);
    TakeLocal(s, l);
    assert LockOk(s, l);
    LocalKeeps(s, r, s.cur, l);
  }

  lemma DownKeeps(s: Sys)
    requires Core(s) && Enabled(s, SemaDown)
    ensures Kept(s, SemaDown)
  {
    assert ThreadOk(s, s.cur);
    TestKeeps(s, s.threads[s.cur].pc.l);
  }

  lemma BareDownKeeps(s: Sys, l: nat)
    requires Core(s) && Enabled(s, BareDown(l))
    ensures Kept(s, BareDown(l))
  {
    TestKeeps(s, l);
  }

  lemma UpKeeps(s: Sys)
    requires Core(s) && Enabled(s, SemaUp)
    ensures Kept(s, SemaUp)
  {
    var l, r := s.threads[s.cur].pc.l, Next(s, SemaUp);
    OwnerHere(s, l);
    RaiseKeepsLists(s, l);
    assert ThreadOk(Raise(s, l), s.cur);
    PlainKeeps(Raise(s, l), r);
    ListInvWellFormed(Raise(s, l));
    ListInvWellFormed(r);
    UpKeepsLocks(s, l);
  }

  lemma BareUpKeeps(s: Sys, l: nat)
    requires Core(s) && Enabled(s, BareUp(l))
    ensures Kept(s, BareUp(l))
  {
    RaiseKeepsLists(s, l);
    ListInvWellFormed(Raise(s, l));
    RaiseSpares(s, l);
    RaiseLocal(s, l);
    assert LockOk(s, l) && PcOk(s.threads[s.cur]);
    LocalKeeps(s, Raise(s, l), s.cur, l);
  }

  lemma RaiseKeepsLists(s: Sys, l: nat)
    requires SchedInv(s) && WellFormed(s) && s.intrOn && l < |s.locks|
    ensures SchedInv(Raise(s, l)) && Raise(s, l).cur == s.cur
    ensures Raise(s, l).threads[s.cur] == s.threads[s.cur]
    ensures s.locks[l].waiters != [] ==>
              s.locks[l].waiters[0] != s.cur && UnblockAsserts(s, s.locks[l].waiters[0])
  {
    var k, r := s.locks[l], Raise(s, l);
    assert ThreadOk(s, s.cur);
    if k.waiters == [] {
      PlainKeeps(s, r);
    } else {
      WakeKeeps(s, l);
      var w := Unblock(SetLock(s, l, k.(waiters := k.waiters[1..])), k.waiters[0]);
      assert ThreadOk(w, s.cur);
      PlainKeeps(w, r);
    }
  }

  /** sema_up writes the one semaphore and moves nobody in lock code. */
  lemma RaiseSpares(s: Sys, l: nat)
    requires WellFormed(s) && l < |s.locks|
    ensures var r := Raise(s, l);
            r.locks == s.locks[l := s.locks[l].(waiters := r.locks[l].waiters, value := s.locks[l].value + 1)] &&
            r.threads.Keys == s.threads.Keys && r.cur == s.cur &&
            forall u :: u in s.threads ==>
              r.threads[u].pc == s.threads[u].pc && r.threads[u].depth == s.threads[u].depth
    ensures s.locks[l].waiters == [] || s.locks[l].waiters[0] != s.cur ==>
              Raise(s, l).threads[s.cur] == s.threads[s.cur]
  {
  }

  lemma RaiseLocal(s: Sys, l: nat)
    requires WellFormed(s) && l < |s.locks| && WellFormed(Raise(s, l))
    ensures LocalChange(s, Raise(s, l), s.cur, l)
  {
    RaiseSpares(s, l);
    var r := Raise(s, l);
    SparedLocal(s, r, s.cur, l);
  }

  lemma SparedLocal(s: Sys, r: Sys, t: Tid, l: nat)
    requires WellFormed(s) && WellFormed(r) && t in s.threads && l < |s.locks| == |r.locks|
    requires r.locks == s.locks[l := r.locks[l]] && r.locks[l].bare == s.locks[l].bare
    requires r.threads.Keys == s.threads.Keys
    requires forall u :: u in s.threads ==>
               r.threads[u].pc == s.threads[u].pc && r.threads[u].depth == s.threads[u].depth
    ensures LocalChange(s, r, t, l)
  {
  }

  /** In code of lock l only, or outside lock code. */
  predicate PcAt(pc: Pc, l: nat)
  {
    pc == Out || (!pc.Out? && !pc.IdleBlock? && pc.l == l)
  }

  /** A move of t along code of lock l leaves its standing at the other locks. */
  lemma MoveLocal(s: Sys, w: Sys, r: Sys, t: Tid, l: nat)
    requires WellFormed(s) && WellFormed(w) && WellFormed(r) && LocalChange(s, w, t, l)
    requires t in r.threads && w.threads[t] == s.threads[t]
    requires r.locks == w.locks && r.threads == w.threads[t := r.threads[t]]
    requires PcAt(s.threads[t].pc, l) && PcAt(r.threads[t].pc, l)
    requires forall m :: 0 <= m < |s.locks| && m != l ==> r.threads[t].depth[m] == s.threads[t].depth[m]
    ensures LocalChange(s, r, t, l)
  {
    var c, d := s.threads[t], r.threads[t];
    forall m | 0 <= m < |s.locks| && m != l
      ensures (Inside(s, t, m) <==> Inside(r, t, m)) && (OwnerOk(s, t, m) && Inside(s, t, m) ==> OwnerOk(r, t, m))
    {
      assert r.locks[m] == s.locks[m] && d.depth[m] == c.depth[m];
    }
  }

  lemma UpLocal(s: Sys, l: nat)
    requires WellFormed(s) && l < |s.locks| && s.threads[s.cur].pc == Up(l)
    requires WellFormed(Raise(s, l)) && WellFormed(UpSection(s, l))
    requires s.locks[l].waiters == [] || s.locks[l].waiters[0] != s.cur
    ensures LocalChange(s, UpSection(s, l), s.cur, l)
    ensures UpSection(s, l).threads[s.cur] == s.threads[s.cur].(pc := Out)
    ensures UpSection(s, l).locks == Raise(s, l).locks
  {
    RaiseSpares(s, l);
    RaiseLocal(s, l);
    MoveLocal(s, Raise(s, l), UpSection(s, l), s.cur, l);
  }

  lemma UpKeepsLocks(s: Sys, l: nat)
    requires LockInv(s) && Enabled(s, SemaUp) && l == s.threads[s.cur].pc.l
    requires WellFormed(Raise(s, l)) && WellFormed(Next(s, SemaUp))
    requires Inside(s, s.cur, l) ==> OwnerOk(s, s.cur, l)
    requires s.locks[l].waiters == [] || s.locks[l].waiters[0] != s.cur
    ensures LockInv(Next(s, SemaUp))
  {
    assert LockOk(s, l);
    RaiseSpares(s, l);
    UpLocal(s, l);
    assert LegalMove(s, UpSection(s, l), s.cur, l);
    LocalKeeps(s, Next(s, SemaUp), s.cur, l);
  }

  /** The steps that only move the running thread along lock code at lock l: the rest of the state
      is as it was, and so is the thread at the other locks. */
  predicate FieldStep(s: Sys, r: Sys, l: nat)
    requires WellFormed(s)
  {
    l < |s.locks| == |r.locks| && s.cur in r.threads &&
    r.locks[l].waiters == s.locks[l].waiters && r.locks[l].bare == s.locks[l].bare &&
    r == s.(threads := s.threads[s.cur := r.threads[s.cur]], locks := s.locks[l := r.locks[l]]) &&
    var c, d := s.threads[s.cur], r.threads[s.cur];
    d == c.(pc := d.pc, depth := d.depth) && |d.depth| == |c.depth| && PcOk(d) && PcInRange(s, d.pc) &&
    PcAt(c.pc, l) && PcAt(d.pc, l) && !c.pc.InDown? && !d.pc.InDown? && (s.cur == s.idle ==> d.pc.Out?) &&
    forall m :: 0 <= m < |c.depth| && m != l ==> d.depth[m] == c.depth[m]
  }

  lemma FieldLocal(s: Sys, r: Sys, l: nat)
    requires WellFormed(s) && WellFormed(r) && FieldStep(s, r, l)
    ensures LocalChange(s, r, s.cur, l)
  {
    var w := s.(locks := r.locks);
    assert LocalChange(s, w, s.cur, l);
    MoveLocal(s, w, r, s.cur, l);
  }

  lemma FieldLists(s: Sys, r: Sys, l: nat)
    requires SchedInv(s) && WellFormed(s) && FieldStep(s, r, l)
    ensures SchedInv(r) && WellFormed(r)
  {
    assert ThreadOk(s, s.cur);
    PlainKeeps(s, r);
    ListInvWellFormed(r);
  }

  lemma FieldStepKeeps(s: Sys, r: Sys, l: nat)
    requires Core(s) && FieldStep(s, r, l) && WellFormed(r)
    requires Inside(s, s.cur, l) ==> Inside(r, s.cur, l) && OwnerOk(r, s.cur, l)
    requires !Inside(s, s.cur, l) ==> !Inside(r, s.cur, l) && r.locks[l] == s.locks[l]
    ensures Core(r)
  {
    FieldLists(s, r, l);
    FieldLocal(s, r, l);
    LocalKeeps(s, r, s.cur, l);
  }

  lemma OwnerHere(s: Sys, l: nat)
    requires Core(s) && l < |s.locks|
    ensures Inside(s, s.cur, l) ==> OwnerOk(s, s.cur, l)
    ensures s.locks[l].holder == Holder(s.cur) ==> Inside(s, s.cur, l)
    ensures PcOk(s.threads[s.cur]) && PcInRange(s, s.threads[s.cur].pc)
    ensures s.cur == s.idle ==> s.threads[s.cur].pc == Out || s.threads[s.cur].pc == IdleBlock
  {
    assert LockOk(s, l) && ThreadOk(s, s.cur);
    if s.locks[l].value == 0 && !s.locks[l].bare {
      var t :| t in s.threads && Inside(s, t, l);
      assert OwnerOk(s, t, l);
    }
  }

  lemma AcquireKeeps(s: Sys, l: nat)
    requires Core(s) && Enabled(s, AcquireTest(l))
    ensures Kept(s, AcquireTest(l))
  {
    OwnerHere(s, l);
    FieldStepKeeps(s, Next(s, AcquireTest(l)), l);
  }

  lemma ReleaseKeeps(s: Sys, l: nat)
    requires Core(s) && Enabled(s, ReleaseTest(l))
    ensures Kept(s, ReleaseTest(l))
  {
    OwnerHere(s, l);
    FieldStepKeeps(s, Next(s, ReleaseTest(l)), l);
  }

  lemma IncNrKeeps(s: Sys)
    requires Core(s) && Enabled(s, DoIncNr)
    ensures Kept(s, DoIncNr)
  {
    var l := s.threads[s.cur].pc.l;
    OwnerHere(s, l);
    FieldStepKeeps(s, Next(s, DoIncNr), l);
  }

  lemma DecNrKeeps(s: Sys)
    requires Core(s) && Enabled(s, DoDecNr)
    ensures Kept(s, DoDecNr)
  {
    var l := s.threads[s.cur].pc.l;
    OwnerHere(s, l);
    FieldStepKeeps(s, Next(s, DoDecNr), l);
  }

  lemma SetHolderKeeps(s: Sys)
    requires Core(s) && Enabled(s, DoSetHolder)
    ensures Kept(s, DoSetHolder)
  {
    var l := s.threads[s.cur].pc.l;
    OwnerHere(s, l);
    FieldStepKeeps(s, Next(s, DoSetHolder), l);
  }

  lemma SetNrKeeps(s: Sys)
    requires Core(s) && Enabled(s, DoSetNr)
    ensures Kept(s, DoSetNr)
  {
    var l := s.threads[s.cur].pc.l;
    OwnerHere(s, l);
    FieldStepKeeps(s, Next(s, DoSetNr), l);
  }

  lemma ClrHolderKeeps(s: Sys)
    requires Core(s) && Enabled(s, DoClrHolder)
    ensures Kept(s, DoClrHolder)
  {
    var l := s.threads[s.cur].pc.l;
    OwnerHere(s, l);
    FieldStepKeeps(s, Next(s, DoClrHolder), l);
  }

  lemma ClrNrKeeps(s: Sys)
    requires Core(s) && Enabled(s, DoClrNr)
    ensures Kept(s, DoClrNr)
  {
    var l := s.threads[s.cur].pc.l;
    OwnerHere(s, l);
    FieldStepKeeps(s, Next(s, DoClrNr), l);
  }

  lemma StepKeepsCore(s: Sys, step: Step)
    requires Core(s) && Enabled(s, step)
    ensures Kept(s, step)
  {
    match step
    case Tick => TickKeeps(s);
    case Yield => YieldStepKeeps(s);
    case Resume => ResumeKeeps(s);
    case Spawn(t, prio) => SpawnStepKeeps(s, t, prio);
    case IdleBlocks => IdleStepKeeps(s);
    case AcquireTest(l) => AcquireKeeps(s, l);
    case DoIncNr => IncNrKeeps(s);
    case SemaDown => DownKeeps(s);
    case DoSetHolder => SetHolderKeeps(s);
    case DoSetNr => SetNrKeeps(s);
    case ReleaseTest(l) => ReleaseKeeps(s, l);
    case DoDecNr => DecNrKeeps(s);
    case DoClrHolder => ClrHolderKeeps(s);
    case DoClrNr => ClrNrKeeps(s);
    case SemaUp => UpKeeps(s);
    case BareDown(l) => BareDownKeeps(s, l);
    case BareUp(l) => BareUpKeeps(s, l);
  }
}
