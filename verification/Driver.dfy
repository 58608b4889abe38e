/** The disk driver among the threads: ide_read and ide_write run by whoever holds the channel's lock
    of module Sched, sleeping on disk_done, a bare semaphore of module Sched, with disk interrupts
    between any two steps of any thread. The channel of module Ide is carried along: its phase is the
    driver's place in its code, its value a second account of disk_done's. */
module Driver {
  import opened Sched
  import opened SchedRuns
  import Ide

  /** The threads, the channel, the indices of its lock and of disk_done, and the thread whose
      transfer is under way. */
  datatype Joint = Joint(s: Sys, ch: Ide.Channel, lk: nat, dd: nat, driver: Tid)

  datatype Move =
    | Kernel(step: Step)         // any step of module Sched but the entry of disk_done's down and its up
    | Drive(e: Ide.Event)        // the running thread's next step in ide_read or ide_write
    | Interrupt                  // a disk interrupt, whatever thread is running

  predicate Placed(j: Joint)
  {
    WellFormed(j.s) && j.lk < |j.s.locks| && j.dd < |j.s.locks|
  }

  /** ide_read and ide_write take the lock first and release it after the last sector: driver code
      runs with the lock held, and a thread in a transfer does not end its hold of the lock. */
  predicate Possible(j: Joint, mv: Move)
    requires Placed(j)
  {
    var c := j.s.threads[j.s.cur];
    match mv
    case Kernel(step) =>
      Enabled(j.s, step) && step != BareDown(j.dd) && step != BareUp(j.dd) &&
      (step == ReleaseTest(j.lk) && j.ch.phase != Ide.Idle ==> c.depth[j.lk] >= 2)
    case Drive(e) =>
      e != Ide.DiskIntr && Ide.Can(j.ch, e) && (e == Ide.DownTest ==> j.ch.phase == Ide.Issued) &&
      j.s.intrOn && j.s.cur != j.s.idle && c.pc == Out && c.depth[j.lk] >= 1
    case Interrupt => j.s.intrOn
  }

  /** The running thread is back at the loop test of the down on disk_done. */
  predicate Retests(j: Joint, step: Step)
    requires Placed(j)
  {
    step == SemaDown && j.s.threads[j.s.cur].pc == InDown(j.dd)
  }

  function Tested(ch: Ide.Channel): Ide.Channel
  {
    if Ide.Can(ch, Ide.DownTest) then Ide.After(ch, Ide.DownTest) else ch
  }

  function Moved(j: Joint, mv: Move): Joint
    requires Placed(j) && Possible(j, mv)
  {
    match mv
    case Kernel(step) => j.(s := Next(j.s, step), ch := if Retests(j, step) then Tested(j.ch) else j.ch)
    case Drive(e) =>
      j.(s := if e == Ide.DownTest && j.s.locks[j.dd].bare then Next(j.s, BareDown(j.dd)) else j.s,
         ch := Ide.After(j.ch, e), driver := if j.ch.phase == Ide.Idle then j.s.cur else j.driver)
    case Interrupt =>
      if j.ch.expecting then j.(s := Raise(j.s, j.dd), ch := Ide.After(j.ch, Ide.DiskIntr)) else j
  }

  /** The thread of a transfer holds the channel's lock and is not on its way out of it. */
  predicate Holds(s: Sys, t: Tid, l: nat)
    requires WellFormed(s) && l < |s.locks|
  {
    t in s.threads && s.threads[t].depth[l] >= 1 && s.threads[t].pc != ClrHolder(l)
  }

  /** In sema_down on disk_done is the driver alone: on its waiters list while the channel says
      Asleep, off it and runnable while it says Awake. */
  predicate SleepOk(j: Joint)
    requires Placed(j)
  {
    var p := j.ch.phase;
    j.s.locks[j.dd].waiters == (if p == Ide.Asleep then [j.driver] else []) &&
    (p == Ide.Asleep || p == Ide.Awake ==> j.driver in j.s.threads && j.s.threads[j.driver].pc == InDown(j.dd)) &&
    forall t :: t in j.s.threads && j.s.threads[t].pc == InDown(j.dd) ==>
      t == j.driver && (p == Ide.Asleep || p == Ide.Awake)
  }

  ghost predicate JointInv(j: Joint)
  {
    Inv(j.s) && Placed(j) && !j.s.locks[j.lk].bare && j.s.locks[j.dd].bare &&
    Ide.ChannelInv(j.ch) && j.ch.value == j.s.locks[j.dd].value && SleepOk(j) &&
    (j.ch.phase != Ide.Idle ==> Holds(j.s, j.driver, j.lk))
  }

  lemma InvWellFormed(s: Sys)
    requires Inv(s)
    ensures WellFormed(s)
  {
    ListInvWellFormed(s);
  }

  // ----- the lock -----

  /** A thread keeps a lock through every step but the last steps of its own release. */
  lemma HoldKept(s: Sys, step: Step, t: Tid, l: nat)
    requires Inv(s) && WellFormed(s) && l < |s.locks| && !s.locks[l].bare && Enabled(s, step) && Holds(s, t, l)
    requires t == s.cur && step == ReleaseTest(l) ==> s.threads[t].depth[l] >= 2
    ensures WellFormed(Next(s, step)) && l < |Next(s, step).locks| && Holds(Next(s, step), t, l)
  {
    StepKeepsInv(s, step);
    InvWellFormed(Next(s, step));
    OthersKeepPlace(s, step);
    if t == s.cur {
      assert PcOk(s.threads[t]);
      MutualExclusion(s, l);
      OwnStep(s, step, l);
    }
  }

  lemma OwnStep(s: Sys, step: Step, l: nat)
    requires Core(s) && WellFormed(s) && l < |s.locks| && Enabled(s, step)
    requires Holds(s, s.cur, l) && PcOk(s.threads[s.cur])
    requires s.locks[l].nr == s.threads[s.cur].depth[l]
    requires step == ReleaseTest(l) ==> s.threads[s.cur].depth[l] >= 2
    ensures WellFormed(Next(s, step)) ==> l < |Next(s, step).locks| && Holds(Next(s, step), s.cur, l)
  {
    match step
    case Tick => if s.threads[s.cur].ticks == 0 { ScheduleKeepsPlace(s); }
    case Yield =>
      ScheduleKeepsPlace(SetThread(s, s.cur, s.threads[s.cur].(status := Ready)).(ready := s.ready + [s.cur]));
    case IdleBlocks => ScheduleKeepsPlace(SetThread(s, s.cur, s.threads[s.cur].(pc := IdleBlock, status := Blocked)));
    case SemaDown => OwnDown(s, s.threads[s.cur].pc.l);
    case BareDown(d) => OwnDown(s, d);
    case SemaUp => RaiseSpares(s, s.threads[s.cur].pc.l);
    case BareUp(d) => RaiseSpares(s, d);
    case _ =>
  }

  /** schedule moves nobody in its own code. */
  lemma ScheduleKeepsPlace(s: Sys)
    requires s.cur in s.threads && s.idle in s.threads && forall t :: t in s.ready ==> t in s.threads
    ensures var r := Schedule(s);
            r.locks == s.locks && s.cur in r.threads && r.threads[s.cur].pc == s.threads[s.cur].pc &&
            r.threads[s.cur].depth == s.threads[s.cur].depth
  {
  }

  lemma OwnDown(s: Sys, d: nat)
    requires WellFormed(s) && d < |s.locks|
    ensures var r := DownSection(s, d);
            s.cur in r.threads && r.threads[s.cur].depth == s.threads[s.cur].depth && |r.locks| == |s.locks| &&
            r.threads[s.cur].pc == (if s.locks[d].value == 0 then InDown(d)
                                    else if s.locks[d].bare then Out else SetHolder(d))
  {
    if s.locks[d].value == 0 { ScheduleKeepsPlace(Waiting(s, d)); }
  }

  /** At most one transfer is under way: whoever runs driver code in the middle of one is its thread. */
  lemma OneDriver(j: Joint, e: Ide.Event)
    requires JointInv(j) && Possible(j, Drive(e)) && j.ch.phase != Ide.Idle
    ensures j.s.cur == j.driver
  {
    MutualExclusion(j.s, j.lk);
  }

  // ----- disk_done -----

  /** A sleeping driver is blocked, on disk_done's list alone, and its interrupt is still to come. */
  lemma AsleepBlocked(j: Joint)
    requires JointInv(j) && j.ch.phase == Ide.Asleep
    ensures j.driver in j.s.threads && j.s.threads[j.driver].status == Blocked && j.ch.expecting
    ensures j.s.cur != j.driver && j.driver !in j.s.ready && j.s.locks[j.dd].waiters == [j.driver]
  {
    assert ThreadOk(j.s, j.driver);
    assert j.driver == j.s.locks[j.dd].waiters[0];
  }

  /** The ASSERT of the handler's sema_up holds: it comes with the value at 0. */
  lemma InterruptEnabled(j: Joint)
    requires JointInv(j) && Possible(j, Interrupt) && j.ch.expecting
    ensures Enabled(j.s, BareUp(j.dd)) && Moved(j, Interrupt).s == Next(j.s, BareUp(j.dd))
  {
    assert ThreadOk(j.s, j.s.cur);
  }

  /** The interrupt a sleeper waits for puts it at the head of the ready list. */
  lemma InterruptWakes(j: Joint)
    requires JointInv(j) && Possible(j, Interrupt) && j.ch.phase == Ide.Asleep
    ensures var r := Moved(j, Interrupt);
            r.s.ready == [j.driver] + j.s.ready && r.ch.phase == Ide.Awake &&
            j.dd < |r.s.locks| && Woken(r.s, j.driver, j.dd) && r.s.locks[j.dd].value == 1
  {
    InterruptEnabled(j);
    UpLeavesWoken(j.s, BareUp(j.dd), j.dd);
    UpPutsFirst(j.s, BareUp(j.dd), j.dd);
    RaiseSpares(j.s, j.dd);
  }

  lemma LocksStay(s: Sys, step: Step, l: nat)
    requires WellFormed(s) && Enabled(s, step) && l < |s.locks|
    ensures |Next(s, step).locks| == |s.locks| && Next(s, step).locks[l].bare == s.locks[l].bare
  {
    if IsUp(step) {
      RaiseSpares(s, SemOf(s, step));
    } else if IsDown(step) {
      TestLocks(s, SemOf(s, step));
    } else {
      FieldsStay(s, step, l);
    }
  }

  lemma FieldsStay(s: Sys, step: Step, l: nat)
    requires WellFormed(s) && Enabled(s, step) && l < |s.locks| && !IsUp(step) && !IsDown(step)
    ensures |Next(s, step).locks| == |s.locks| && Next(s, step).locks[l].bare == s.locks[l].bare
  {
    if step.Tick? || step.Yield? || step.IdleBlocks? { } else { }
  }

  /** Of the kernel's steps none but the retest works on disk_done, and only the driver retests,
      when it has been woken. */
  lemma OnlyRetest(j: Joint, step: Step)
    requires JointInv(j) && Possible(j, Kernel(step)) && OnSem(j.s, step, j.dd)
    ensures Retests(j, step) && j.s.cur == j.driver && j.ch.phase == Ide.Awake
  {
    assert LockOk(j.s, j.dd) && ThreadOk(j.s, j.s.cur);
    NotWaiting(j.s, j.dd);
  }

  lemma NewThreads(s: Sys, step: Step, t: Tid)
    requires WellFormed(s) && Enabled(s, step) && t in Next(s, step).threads && t !in s.threads
    ensures Next(s, step).threads[t].pc == Out
  {
    if IsUp(step) {
      RaiseSpares(s, SemOf(s, step));
    } else if IsDown(step) {
      TestLocks(s, SemOf(s, step));
    }
  }

  /** No other step enters sema_down on disk_done, or leaves it. */
  lemma NobodyEnters(s: Sys, step: Step, d: nat, t: Tid)
    requires Core(s) && Enabled(s, step) && d < |s.locks| && !OnSem(s, step, d)
    ensures t in s.threads && s.threads[t].pc == InDown(d) <==>
            t in Next(s, step).threads && Next(s, step).threads[t].pc == InDown(d)
  {
    OthersKeepPlace(s, step);
    CurOnly(s, step, d);
    if t !in s.threads && t in Next(s, step).threads { NewThreads(s, step, t); }
  }

  lemma CurOnly(s: Sys, step: Step, d: nat)
    requires Core(s) && WellFormed(s) && Enabled(s, step) && d < |s.locks| && !OnSem(s, step, d)
    ensures s.cur in Next(s, step).threads
    ensures s.threads[s.cur].pc == InDown(d) <==> Next(s, step).threads[s.cur].pc == InDown(d)
  {
    match step
    case Tick => if s.threads[s.cur].ticks == 0 { ScheduleKeepsPlace(s); }
    case Yield =>
      ScheduleKeepsPlace(SetThread(s, s.cur, s.threads[s.cur].(status := Ready)).(ready := s.ready + [s.cur]));
    case IdleBlocks => ScheduleKeepsPlace(SetThread(s, s.cur, s.threads[s.cur].(pc := IdleBlock, status := Blocked)));
    case SemaDown => OwnDown(s, s.threads[s.cur].pc.l);
    case BareDown(l) => OwnDown(s, l);
    case SemaUp => RaiseSpares(s, s.threads[s.cur].pc.l);
    case BareUp(l) => RaiseSpares(s, l);
    case _ =>
  }

  /** A kernel step that does not work on disk_done leaves the sleeper's state. */
  lemma SleepKept(j: Joint, step: Step)
    requires JointInv(j) && Possible(j, Kernel(step)) && !OnSem(j.s, step, j.dd)
    requires Placed(j.(s := Next(j.s, step)))
    ensures SleepOk(j.(s := Next(j.s, step))) && Next(j.s, step).locks[j.dd].value == j.s.locks[j.dd].value
  {
    SemaphoresKept(j.s, step, j.dd);
    NobodyEnters(j.s, step, j.dd, j.driver);
    forall t | t in Next(j.s, step).threads && Next(j.s, step).threads[t].pc == InDown(j.dd)
      ensures t == j.driver && (j.ch.phase == Ide.Asleep || j.ch.phase == Ide.Awake)
    {
      NobodyEnters(j.s, step, j.dd, t);
    }
  }

  /** The loop test: with the value at 0 the caller is the sleeper, otherwise it has taken it. */
  lemma TestSleep(j: Joint)
    requires Core(j.s) && Placed(j) && AtTest(j.s, j.dd) && j.s.locks[j.dd].bare
    requires j.s.cur == j.driver && j.s.locks[j.dd].waiters == []
    requires forall t :: t in j.s.threads && j.s.threads[t].pc == InDown(j.dd) ==> t == j.driver
    requires j.ch.phase == (if j.s.locks[j.dd].value == 0 then Ide.Asleep else Ide.Done)
    requires Placed(j.(s := DownSection(j.s, j.dd)))
    ensures SleepOk(j.(s := DownSection(j.s, j.dd))) && DownSection(j.s, j.dd).locks[j.dd].value == 0
  {
    var r := DownSection(j.s, j.dd);
    assert LockOk(j.s, j.dd);
    TestStays(j.s, j.dd);
    OwnDown(j.s, j.dd);
    TestLocks(j.s, j.dd);
    forall t | t in r.threads && r.threads[t].pc == InDown(j.dd)
      ensures t == j.driver && j.ch.phase == Ide.Asleep
    {
      assert t in j.s.threads;
    }
  }

  lemma TestLocks(s: Sys, d: nat)
    requires WellFormed(s) && d < |s.locks|
    ensures var r, k := DownSection(s, d), s.locks[d];
            r.threads.Keys == s.threads.Keys &&
            r.locks == s.locks[d := if k.value == 0 then k.(waiters := k.waiters + [s.cur])
                                    else k.(value := k.value - 1)]
  {
    if s.locks[d].value == 0 { ScheduleKeepsPlace(Waiting(s, d)); }
  }

  // ----- every move -----

  lemma KernelKeeps(j: Joint, step: Step)
    requires JointInv(j) && Possible(j, Kernel(step))
    ensures Asserts(j.s, step) && JointInv(Moved(j, Kernel(step)))
  {
    StepKeepsInv(j.s, step);
    InvWellFormed(Next(j.s, step));
    LocksStay(j.s, step, j.lk);
    LocksStay(j.s, step, j.dd);
    if j.ch.phase != Ide.Idle { HoldKept(j.s, step, j.driver, j.lk); }
    KernelSleep(j, step);
  }

  lemma KernelSleep(j: Joint, step: Step)
    requires JointInv(j) && Possible(j, Kernel(step)) && Placed(Moved(j, Kernel(step)))
    ensures var r := Moved(j, Kernel(step));
            SleepOk(r) && Ide.ChannelInv(r.ch) && r.ch.value == r.s.locks[r.dd].value
    ensures Moved(j, Kernel(step)).ch.phase != Ide.Idle ==> j.ch.phase != Ide.Idle
  {
    if OnSem(j.s, step, j.dd) {
      OnlyRetest(j, step);
      assert ThreadOk(j.s, j.s.cur);
      TestSleep(j.(ch := Tested(j.ch)));
    } else {
      SleepKept(j, step);
    }
  }

  lemma DriveKeeps(j: Joint, e: Ide.Event)
    requires JointInv(j) && Possible(j, Drive(e))
    ensures Ide.ChannelAsserts(j.ch, e) && JointInv(Moved(j, Drive(e)))
    ensures e == Ide.DownTest ==> Enabled(j.s, BareDown(j.dd)) && Asserts(j.s, BareDown(j.dd))
                                  && Moved(j, Drive(e)).s == Next(j.s, BareDown(j.dd))
  {
    if e == Ide.DownTest {
      OneDriver(j, e);
      StepKeepsInv(j.s, BareDown(j.dd));
      var r := Next(j.s, BareDown(j.dd));
      InvWellFormed(r);
      LocksStay(j.s, BareDown(j.dd), j.lk);
      LocksStay(j.s, BareDown(j.dd), j.dd);
      HoldKept(j.s, BareDown(j.dd), j.driver, j.lk);
      TestSleep(j.(ch := Ide.After(j.ch, e)));
    }
  }

  lemma InterruptKeeps(j: Joint)
    requires JointInv(j) && Possible(j, Interrupt)
    ensures Ide.ChannelAsserts(j.ch, Ide.DiskIntr) && JointInv(Moved(j, Interrupt))
    ensures j.ch.expecting ==> Enabled(j.s, BareUp(j.dd)) && Asserts(j.s, BareUp(j.dd))
                               && Moved(j, Interrupt).s == Next(j.s, BareUp(j.dd))
  {
    if j.ch.expecting {
      var step := BareUp(j.dd);
      InterruptEnabled(j);
      StepKeepsInv(j.s, step);
      InvWellFormed(Next(j.s, step));
      RaiseSpares(j.s, j.dd);
      if j.ch.phase != Ide.Idle { HoldKept(j.s, step, j.driver, j.lk); }
      RaisedSleep(j);
    }
  }

  lemma RaisedSleep(j: Joint)
    requires JointInv(j) && j.ch.expecting && Placed(j.(s := Raise(j.s, j.dd)))
    ensures SleepOk(j.(s := Raise(j.s, j.dd), ch := Ide.After(j.ch, Ide.DiskIntr)))
  {
    RaiseSpares(j.s, j.dd);
  }

  /** The step of module Sched that the move is, if it is one. */
  function KernelStep(j: Joint, mv: Move): seq<Step>
    requires Placed(j) && Possible(j, mv)
  {
    match mv
    case Kernel(step) => [step]
    case Drive(e) => if e == Ide.DownTest then [BareDown(j.dd)] else []
    case Interrupt => if j.ch.expecting then [BareUp(j.dd)] else []
  }

  /** Every step of the kernel, of the driver and of the disk keeps the scheduler's, the locks' and
      the channel's invariants together, is a step of the scheduler or leaves it, and no ASSERT fires. */
  lemma MoveKeeps(j: Joint, mv: Move)
    requires JointInv(j) && Possible(j, mv)
    ensures JointInv(Moved(j, mv))
    ensures var k := KernelStep(j, mv);
            if k == [] then Moved(j, mv).s == j.s
            else Enabled(j.s, k[0]) && Asserts(j.s, k[0]) && Moved(j, mv).s == Next(j.s, k[0])
    ensures mv.Drive? ==> Ide.ChannelAsserts(j.ch, mv.e)
    ensures mv.Interrupt? ==> Ide.ChannelAsserts(j.ch, Ide.DiskIntr)
  {
    match mv
    case Kernel(step) => KernelKeeps(j, step);
    case Drive(e) => DriveKeeps(j, e);
    case Interrupt => InterruptKeeps(j);
  }

  // ----- runs -----

  /** js lists the states of a run and mvs the moves between them. */
  ghost predicate JointRun(js: seq<Joint>, mvs: seq<Move>)
  {
    |js| == |mvs| + 1 &&
    forall i {:trigger mvs[i]} :: 0 <= i < |mvs| ==>
      Placed(js[i]) && Possible(js[i], mvs[i]) && js[i + 1] == Moved(js[i], mvs[i])
  }

  /** bare says which of the kernel's semaphores are bare: the channel's lock is not, disk_done is. */
  ghost predicate FromBoot(j: Joint, bare: seq<bool>)
  {
    j.lk < |bare| && j.dd < |bare| && !bare[j.lk] && bare[j.dd] &&
    j.s == Boot(bare) && j.ch == Ide.QUIET
  }

  lemma JointBoot(j: Joint, bare: seq<bool>)
    requires FromBoot(j, bare)
    ensures JointInv(j)
  {
    BootPlaced(j, bare);
    BootQuiet(j, bare);
  }

  lemma BootPlaced(j: Joint, bare: seq<bool>)
    requires FromBoot(j, bare)
    ensures Inv(j.s) && Placed(j)
  {
    BootInv(bare);
    InvWellFormed(Boot(bare));
  }

  lemma BootQuiet(j: Joint, bare: seq<bool>)
    requires FromBoot(j, bare) && Placed(j)
    ensures !j.s.locks[j.lk].bare && j.s.locks[j.dd].bare && j.s.locks[j.dd].value == 0 && SleepOk(j)
  {
  }

  /** From boot on, in every interleaving. */
  lemma {:induction false} JointSafe(js: seq<Joint>, mvs: seq<Move>, bare: seq<bool>, i: nat)
    requires JointRun(js, mvs) && FromBoot(js[0], bare) && i < |js|
    ensures JointInv(js[i]) && js[i].dd == js[0].dd && js[i].lk == js[0].lk
    ensures i < |mvs| && mvs[i].Drive? && js[i].ch.phase != Ide.Idle ==> js[i].s.cur == js[i].driver
    decreases i
  {
    if i == 0 {
      JointBoot(js[0], bare);
    } else {
      JointSafe(js, mvs, bare, i - 1);
      assert js[i] == Moved(js[i - 1], mvs[i - 1]);
      MoveKeeps(js[i - 1], mvs[i - 1]);
    }
    if i < |mvs| && mvs[i].Drive? && js[i].ch.phase != Ide.Idle { OneDriver(js[i], mvs[i].e); }
  }

  /** The steps of module Sched among the first i moves. */
  ghost function Steps(js: seq<Joint>, mvs: seq<Move>, i: nat): seq<Step>
    requires JointRun(js, mvs) && i <= |mvs|
  {
    if i == 0 then [] else var k := i - 1; Steps(js, mvs, k) + KernelStep(js[k], mvs[k])
  }

  /** The states they pass through. */
  ghost function States(js: seq<Joint>, mvs: seq<Move>, i: nat): seq<Sys>
    requires JointRun(js, mvs) && i <= |mvs|
  {
    if i == 0 then [js[0].s]
    else
      var k := i - 1;
      States(js, mvs, k) + if KernelStep(js[k], mvs[k]) == [] then [] else [js[i].s]
  }

  lemma LastMove(js: seq<Joint>, mvs: seq<Move>, k: nat, i: nat)
    requires JointRun(js, mvs) && i == k + 1 <= |mvs|
    ensures var more := KernelStep(js[k], mvs[k]);
            Steps(js, mvs, i) == Steps(js, mvs, k) + more &&
            States(js, mvs, i) == States(js, mvs, k) + if more == [] then [] else [js[i].s]
  {
  }

  lemma MoveIsStep(js: seq<Joint>, mvs: seq<Move>, bare: seq<bool>, k: nat)
    requires JointRun(js, mvs) && FromBoot(js[0], bare) && k < |mvs|
    ensures Placed(js[k]) && Possible(js[k], mvs[k])
    ensures var s, step := js[k].s, KernelStep(js[k], mvs[k]);
            if step == [] then js[k + 1].s == s else Enabled(s, step[0]) && js[k + 1].s == Next(s, step[0])
  {
    JointSafe(js, mvs, bare, k);
    assert js[k + 1] == Moved(js[k], mvs[k]);
    MoveKeeps(js[k], mvs[k]);
  }

  /** What the scheduler does in a joint run is a run of module Sched, so every theorem about its runs
      holds with disk interrupts and sleeping drivers in it. */
  lemma {:induction false} JointIsRun(js: seq<Joint>, mvs: seq<Move>, bare: seq<bool>, i: nat)
    requires JointRun(js, mvs) && FromBoot(js[0], bare) && i <= |mvs|
    ensures var ss, steps := States(js, mvs, i), Steps(js, mvs, i);
            Run(ss, steps) && ss[0] == Boot(bare) && ss[|steps|] == js[i].s
    decreases i
  {
    if i > 0 {
      var k := i - 1;
      var ss, steps := States(js, mvs, k), Steps(js, mvs, k);
      JointIsRun(js, mvs, bare, k);
      MoveIsStep(js, mvs, bare, k);
      var more := KernelStep(js[k], mvs[k]);
      LastMove(js, mvs, k, i);
      Extends(ss, steps, more, js[i].s);
    }
  }

  lemma Extends(ss: seq<Sys>, steps: seq<Step>, more: seq<Step>, r: Sys)
    requires Run(ss, steps) && |more| <= 1
    requires if more == [] then r == ss[|steps|]
             else WellFormed(ss[|steps|]) && Enabled(ss[|steps|], more[0]) && r == Next(ss[|steps|], more[0])
    ensures var ss2, steps2 := ss + (if more == [] then [] else [r]), steps + more;
            Run(ss2, steps2) && ss2[0] == ss[0] && ss2[|steps2|] == r
  {
    var ss2, steps2 := ss + (if more == [] then [] else [r]), steps + more;
    forall i | 0 <= i < |steps2|
      ensures WellFormed(ss2[i]) && Enabled(ss2[i], steps2[i]) && ss2[i + 1] == Next(ss2[i], steps2[i])
    {
      if i < |steps| { assert steps2[i] == steps[i]; }
    }
  }

  lemma {:induction false} StatesGrow(js: seq<Joint>, mvs: seq<Move>, i: nat, j: nat)
    requires JointRun(js, mvs) && i <= j <= |mvs|
    ensures States(js, mvs, i) <= States(js, mvs, j) && Steps(js, mvs, i) <= Steps(js, mvs, j)
    decreases j
  {
    if i < j {
      var k := j - 1;
      StatesGrow(js, mvs, i, k);
      LastState(js, mvs, k, j);
      LastStep(js, mvs, k, j);
      PrefixThen(States(js, mvs, i), States(js, mvs, k), States(js, mvs, j));
      PrefixThen(Steps(js, mvs, i), Steps(js, mvs, k), Steps(js, mvs, j));
    }
  }

  lemma PrefixThen<T>(a: seq<T>, b: seq<T>, c: seq<T>)
    requires a <= b <= c
    ensures a <= c
  {
  }

  lemma LastState(js: seq<Joint>, mvs: seq<Move>, k: nat, j: nat)
    requires JointRun(js, mvs) && j == k + 1 <= |mvs|
    ensures States(js, mvs, j) == States(js, mvs, k) || States(js, mvs, j) == States(js, mvs, k) + [js[j].s]
    ensures States(js, mvs, k) <= States(js, mvs, j)
  {
  }

  lemma LastStep(js: seq<Joint>, mvs: seq<Move>, k: nat, j: nat)
    requires JointRun(js, mvs) && j == k + 1 <= |mvs|
    ensures Steps(js, mvs, k) <= Steps(js, mvs, j)
  {
  }

  /** A state the scheduler reaches after the first i moves is the state after some later move. */
  lemma {:induction false} StateAt(js: seq<Joint>, mvs: seq<Move>, i: nat, j: nat, m: nat) returns (q: nat)
    requires JointRun(js, mvs) && i <= j <= |mvs| && |States(js, mvs, i)| <= m < |States(js, mvs, j)|
    ensures i < q <= j && States(js, mvs, j)[m] == js[q].s
    decreases j
  {
    var k := j - 1;
    LastState(js, mvs, k, j);
    if m < |States(js, mvs, k)| { q := StateAt(js, mvs, i, k, m); } else { q := j; }
  }

  /** The interrupt is step a of the scheduler's run. */
  lemma InterruptAt(js: seq<Joint>, mvs: seq<Move>, bare: seq<bool>, i: nat, j: nat)
    requires JointRun(js, mvs) && FromBoot(js[0], bare) && i < j <= |mvs|
    requires mvs[i] == Interrupt && js[i].ch.phase == Ide.Asleep
    ensures var ss, steps, a := States(js, mvs, j), Steps(js, mvs, j), |Steps(js, mvs, i)|;
            Run(ss, steps) && ss[0] == Boot(bare) && a < |steps| &&
            steps[a] == BareUp(js[i].dd) && ss[a] == js[i].s && |States(js, mvs, i)| == a + 1
    ensures js[i].dd < |js[i].s.locks| && js[i].s.locks[js[i].dd].waiters == [js[i].driver]
  {
    var next := i + 1;
    JointSafe(js, mvs, bare, i);
    JointIsRun(js, mvs, bare, i);
    JointIsRun(js, mvs, bare, j);
    AsleepBlocked(js[i]);
    StatesGrow(js, mvs, i, j);
    StatesGrow(js, mvs, next, j);
    assert Steps(js, mvs, next) == Steps(js, mvs, i) + KernelStep(js[i], mvs[i]);
  }

  /** Between steps a and b of the scheduler's run there are more schedule calls than wakeups. */
  ghost predicate Outnumber(ss: seq<Sys>, steps: seq<Step>, a: nat, b: nat)
  {
    Run(ss, steps) && a <= b < |ss| && Count(ss, steps, a, b, false) > Count(ss, steps, a, b, true)
  }

  /** A driver asleep on disk_done when its interrupt comes runs again: at the next schedule call, or
      after one more for each thread woken in front of it meanwhile. */
  lemma SleeperRuns(js: seq<Joint>, mvs: seq<Move>, bare: seq<bool>, i: nat, j: nat)
    requires JointRun(js, mvs) && FromBoot(js[0], bare) && i < j <= |mvs|
    requires mvs[i] == Interrupt && js[i].ch.phase == Ide.Asleep
    ensures Outnumber(States(js, mvs, j), Steps(js, mvs, j), |States(js, mvs, i)|, |Steps(js, mvs, j)|)
            ==> exists q :: i < q <= j && js[q].s.cur == js[i].driver
  {
    if Outnumber(States(js, mvs, j), Steps(js, mvs, j), |States(js, mvs, i)|, |Steps(js, mvs, j)|) {
      var m := SleeperAt(js, mvs, bare, i, j);
      var q := StateAt(js, mvs, i, j, m);
    }
  }

  lemma SleeperAt(js: seq<Joint>, mvs: seq<Move>, bare: seq<bool>, i: nat, j: nat) returns (m: nat)
    requires JointRun(js, mvs) && FromBoot(js[0], bare) && i < j <= |mvs|
    requires mvs[i] == Interrupt && js[i].ch.phase == Ide.Asleep
    requires Outnumber(States(js, mvs, j), Steps(js, mvs, j), |States(js, mvs, i)|, |Steps(js, mvs, j)|)
    ensures |States(js, mvs, i)| < m < |States(js, mvs, j)| && States(js, mvs, j)[m].cur == js[i].driver
  {
    var d, t, a := js[i].dd, js[i].driver, |Steps(js, mvs, i)|;
    InterruptAt(js, mvs, bare, i, j);
    m := WokenAt(States(js, mvs, j), Steps(js, mvs, j), bare, a, |Steps(js, mvs, j)|, d, t);
  }

  lemma WokenAt(ss: seq<Sys>, steps: seq<Step>, bare: seq<bool>, a: nat, b: nat, d: nat, t: Tid) returns (m: nat)
    requires Run(ss, steps) && ss[0] == Boot(bare) && a < |steps| == b && steps[a] == BareUp(d)
    requires d < |ss[a].locks| && ss[a].locks[d].waiters == [t]
    requires Outnumber(ss, steps, a + 1, b)
    ensures a + 1 < m <= b && ss[m].cur == t
  {
    WokenThreadRuns(ss, steps, bare, a, b, d);
    m :| a + 1 < m <= b && ss[m].cur == t;
  }
}
