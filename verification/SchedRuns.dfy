/** What holds in every run of the scheduler and lock steps of module Sched. */
module SchedRuns {
  import Lists
  import opened Sched

  // ----- no lost wakeup -----

  /** Nobody but the running thread moves through lock code. */
  ghost predicate OthersStay(s: Sys, r: Sys)
  {
    s.threads.Keys <= r.threads.Keys && |r.locks| == |s.locks| &&
    forall t :: t in s.threads && t != s.cur ==>
      r.threads[t].pc == s.threads[t].pc && r.threads[t].depth == s.threads[t].depth
  }

  lemma ScheduleStays(s: Sys, b: Sys)
    requires WellFormed(b) && OthersStay(s, b) && s.cur == b.cur
    ensures OthersStay(s, Schedule(b))
  {
    ScheduleSameLocks(b);
    var r := Schedule(b);
    forall t | t in s.threads && t != s.cur
      ensures r.threads[t].pc == s.threads[t].pc && r.threads[t].depth == s.threads[t].depth
    {
      assert t in b.threads;
    }
  }

  lemma TestStays(s: Sys, l: nat)
    requires Core(s) && l < |s.locks| && AtTest(s, l)
    ensures OthersStay(s, DownSection(s, l))
  {
    assert LockOk(s, l) && PcOk(s.threads[s.cur]);
    if s.locks[l].value == 0 {
      WaitingKeepsLocks(s, l);
      ListInvWellFormed(Waiting(s, l));
      ScheduleStays(s, Waiting(s, l));
    }
  }

  lemma OthersKeepPlace(s: Sys, step: Step)
    requires Core(s) && Enabled(s, step)
    ensures OthersStay(s, Next(s, step))
  {
    assert ThreadOk(s, s.cur);
    match step
    case Tick => if s.threads[s.cur].ticks == 0 { ScheduleStays(s, s); }
    case Yield =>
      ScheduleStays(s, SetThread(s, s.cur, s.threads[s.cur].(status := Ready)).(ready := s.ready + [s.cur]));
    case IdleBlocks =>
      ScheduleStays(s, SetThread(s, s.cur, s.threads[s.cur].(pc := IdleBlock, status := Blocked)));
    case SemaDown => TestStays(s, s.threads[s.cur].pc.l);
    case BareDown(l) => TestStays(s, l);
    case SemaUp => RaiseSpares(s, s.threads[s.cur].pc.l);
    case BareUp(l) => RaiseSpares(s, l);
    case _ =>
  }

  // ----- the semaphore a step works on -----

  predicate IsDown(step: Step)
  {
    step.SemaDown? || step.BareDown?
  }

  predicate IsUp(step: Step)
  {
    step.SemaUp? || step.BareUp?
  }

  function SemOf(s: Sys, step: Step): (l: nat)
    requires WellFormed(s) && Enabled(s, step) && (IsDown(step) || IsUp(step))
    ensures l < |s.locks|
  {
    if step.BareDown? || step.BareUp? then step.l else s.threads[s.cur].pc.l
  }

  /** The step is part of sema_down or sema_up of semaphore l. */
  predicate OnSem(s: Sys, step: Step, l: nat)
    requires WellFormed(s) && Enabled(s, step)
  {
    (IsDown(step) || IsUp(step)) && SemOf(s, step) == l
  }

  /** Only sema_down and sema_up touch a semaphore, and only their own. */
  lemma SemaphoresKept(s: Sys, step: Step, l: nat)
    requires WellFormed(s) && Enabled(s, step) && l < |s.locks| && !OnSem(s, step, l)
    ensures var r := Next(s, step);
            r.locks[l].value == s.locks[l].value && r.locks[l].waiters == s.locks[l].waiters
  {
    if IsDown(step) {
      DownSpares(s, SemOf(s, step), l);
    } else if IsUp(step) {
      RaiseSpares(s, SemOf(s, step));
    }
  }

  lemma DownSpares(s: Sys, d: nat, l: nat)
    requires WellFormed(s) && d < |s.locks| && l < |s.locks| && d != l
    ensures DownSection(s, d).locks[l] == s.locks[l]
  {
  }

  lemma WakeupKept(s: Sys, step: Step)
    requires Inv(s) && Enabled(s, step)
    ensures NoLostWakeup(Next(s, step))
  {
    var r := Next(s, step);
    OthersKeepPlace(s, step);
    forall l | 0 <= l < |r.locks| && r.locks[l].value == 1 && r.locks[l].waiters != []
      ensures exists t :: Woken(r, t, l)
    {
      WakeupKeptAt(s, step, l);
    }
  }

  lemma WakeupHere(s: Sys, step: Step, l: nat)
    requires Core(s) && Enabled(s, step) && OnSem(s, step, l) && l < |Next(s, step).locks|
    requires Next(s, step).locks[l].value == 1 && Next(s, step).locks[l].waiters != []
    ensures exists t :: Woken(Next(s, step), t, l)
  {
    if IsUp(step) {
      RaiseSpares(s, l);
      UpLeavesWoken(s, step, l);
    } else {
      DownLeavesZero(s, l);
    }
  }

  lemma WakeupKeptAt(s: Sys, step: Step, l: nat)
    requires Core(s) && NoLostWakeup(s) && Enabled(s, step) && l < |s.locks| == |Next(s, step).locks|
    requires Next(s, step).locks[l].value == 1 && Next(s, step).locks[l].waiters != []
    ensures exists t :: Woken(Next(s, step), t, l)
  {
    if OnSem(s, step, l) {
      WakeupHere(s, step, l);
    } else {
      SemaphoresKept(s, step, l);
      var t :| Woken(s, t, l);
      WokenStays(s, step, l, t);
    }
  }

  lemma DownLeavesZero(s: Sys, l: nat)
    requires LockInv(s) && l < |s.locks|
    ensures DownSection(s, l).locks[l].value == 0
  {
    assert LockOk(s, l);
  }

  lemma WokenStays(s: Sys, step: Step, l: nat, t: Tid)
    requires Core(s) && Enabled(s, step) && l < |s.locks| && Woken(s, t, l) && !OnSem(s, step, l)
    ensures Woken(Next(s, step), t, l)
  {
    OthersKeepPlace(s, step);
    SemaphoresKept(s, step, l);
  }

  lemma UpLeavesWoken(s: Sys, step: Step, l: nat)
    requires Core(s) && Enabled(s, step) && IsUp(step) && SemOf(s, step) == l && s.locks[l].waiters != []
    ensures s.locks[l].waiters[0] != s.cur && Woken(Next(s, step), s.locks[l].waiters[0], l)
  {
    var k, t := s.locks[l], s.locks[l].waiters[0];
    assert WaitersOk(s, l) && t in k.waiters;
    NotWaiting(s, l);
    OthersKeepPlace(s, step);
    assert Next(s, step).locks[l].waiters == k.waiters[1..];
  }

  /** The woken thread is at the head of the ready list. */
  lemma UpPutsFirst(s: Sys, step: Step, l: nat)
    requires Core(s) && Enabled(s, step) && IsUp(step) && SemOf(s, step) == l && s.locks[l].waiters != []
    ensures Next(s, step).ready == [s.locks[l].waiters[0]] + s.ready
  {
    RaiseSpares(s, l);
  }

  /** Every step from a good state passes all its ASSERTs and ends in a good state. */
  lemma StepKeepsInv(s: Sys, step: Step)
    requires Inv(s) && Enabled(s, step)
    ensures Asserts(s, step) && Inv(Next(s, step))
  {
    StepKeepsCore(s, step);
    WakeupKept(s, step);
  }

  // ----- runs -----

  /** After thread_init and ide_init: main is running, idle has been started, every lock is free and
      every bare semaphore is 0. */
  function Boot(bare: seq<bool>): Sys
  {
    var none := seq(|bare|, _ => 0);
    Sys(map[0 := Thread(Running, 31, 31, Out, none), 1 := Thread(Ready, 10, 10, Out, none)],
        [1], 0, 1, true,
        seq(|bare|, l requires 0 <= l < |bare| => Lock(if bare[l] then 0 else 1, [], Nobody, 0, bare[l])))
  }

  lemma BootInv(bare: seq<bool>)
    ensures Inv(Boot(bare))
  {
    var s := Boot(bare);
    assert ThreadOk(s, 0) && ThreadOk(s, 1);
    forall l | 0 <= l < |s.locks| ensures WaitersOk(s, l) && LockOk(s, l) {}
  }

  /** Both threads start with a slice of their whole priority. */
  lemma BootSlices(bare: seq<bool>, t: Tid)
    requires t in Boot(bare).threads
    ensures Boot(bare).threads[t].ticks == Boot(bare).threads[t].priority > 0
  {
  }

  /** ss lists the states of a run and steps the steps between them. */
  ghost predicate Run(ss: seq<Sys>, steps: seq<Step>)
  {
    |ss| == |steps| + 1 &&
    forall i {:trigger steps[i]} :: 0 <= i < |steps| ==>
      WellFormed(ss[i]) && Enabled(ss[i], steps[i]) && ss[i + 1] == Next(ss[i], steps[i])
  }

  /** Over every interleaving the invariant holds in every state and no ASSERT ever fires. */
  lemma {:induction false} RunSafe(ss: seq<Sys>, steps: seq<Step>, bare: seq<bool>, i: nat)
    requires Run(ss, steps) && ss[0] == Boot(bare) && i < |ss|
    ensures Inv(ss[i])
    ensures i < |steps| ==> Asserts(ss[i], steps[i])
    decreases i
  {
    if i == 0 {
      BootInv(bare);
    } else {
      RunSafe(ss, steps, bare, i - 1);
      assert ss[i] == Next(ss[i - 1], steps[i - 1]);
      StepKeepsInv(ss[i - 1], steps[i - 1]);
    }
    if i < |steps| {
      StepKeepsInv(ss[i], steps[i]);
    }
  }

  // ----- mutual exclusion -----

  ghost function InsideSet(s: Sys, l: nat): set<Tid>
    requires WellFormed(s) && l < |s.locks|
  {
    set t | t in s.threads && Inside(s, t, l)
  }

  /** The value plus the threads past sema_down and before the end of sema_up is always one;
      a holder is the one thread inside, and between lock calls the count is its nesting depth. */
  lemma MutualExclusion(s: Sys, l: nat)
    requires Inv(s) && l < |s.locks| && !s.locks[l].bare
    ensures s.locks[l].value + |InsideSet(s, l)| == 1
    ensures s.locks[l].holder.Holder? ==> InsideSet(s, l) == {s.locks[l].holder.t}
    ensures forall t :: t in s.threads && s.threads[t].depth[l] > 0 ==>
              s.locks[l].holder == Holder(t) && s.locks[l].nr == s.threads[t].depth[l]
    ensures s.locks[l].value == 1 ==> s.locks[l].holder == Nobody && s.locks[l].nr == 0
  {
    assert LockOk(s, l);
    if s.locks[l].value == 0 {
      var t :| t in s.threads && Inside(s, t, l);
      assert InsideSet(s, l) == {t};
      assert OwnerOk(s, t, l);
    } else {
      forall t | t in s.threads ensures !Inside(s, t, l) {
        assert Inside(s, t, l) ==> OwnerOk(s, t, l);
      }
      assert InsideSet(s, l) == {};
    }
  }

  /** A free lock with waiters: somebody was popped, is READY or RUNNING, and has yet to re-test. */
  lemma FreeLockHasWokenThread(s: Sys, l: nat)
    requires Inv(s) && l < |s.locks| && s.locks[l].value == 1 && s.locks[l].waiters != []
    ensures exists t :: Woken(s, t, l) && (t == s.cur || t in s.ready)
                        && s.threads[t].status == (if t == s.cur then Running else Ready)
  {
    var t :| Woken(s, t, l);
    assert ThreadOk(s, t);
    if t != s.cur { assert s.threads[t].status == Ready; }
  }

  /** t is on exactly one waiters list. */
  ghost predicate OnOneList(s: Sys, t: Tid)
  {
    exists l :: 0 <= l < |s.locks| && t in s.locks[l].waiters
                && forall m :: 0 <= m < |s.locks| && t in s.locks[m].waiters ==> m == l
  }

  /** The lists are what the statuses say. */
  lemma SchedulerStates(s: Sys)
    requires Inv(s)
    ensures forall t :: t in s.threads ==>
              (s.threads[t].status == Running <==> t == s.cur) &&
              (s.threads[t].status == Ready <==> t in s.ready) &&
              (s.threads[t].status == Blocked && t != s.idle <==> OnOneList(s, t))
    ensures Lists.Distinct(s.ready) && s.cur !in s.ready
    ensures s.ready == [] && s.cur != s.idle ==> s.threads[s.idle].status == Blocked
  {
    assert ThreadOk(s, s.idle) && ThreadOk(s, s.cur);
    forall t | t in s.threads
      ensures (s.threads[t].status == Running <==> t == s.cur) &&
              (s.threads[t].status == Ready <==> t in s.ready) &&
              (s.threads[t].status == Blocked && t != s.idle <==> OnOneList(s, t))
    {
      assert ThreadOk(s, t);
      if s.threads[t].status == Blocked && t != s.idle {
        var l := s.threads[t].pc.l;
        assert t in s.locks[l].waiters;
        forall m | 0 <= m < |s.locks| && t in s.locks[m].waiters ensures m == l { assert WaitersOk(s, m); }
      } else if OnOneList(s, t) {
        var l :| 0 <= l < |s.locks| && t in s.locks[l].waiters;
        assert WaitersOk(s, l) && OnWaiters(s, t);
      }
    }
  }

  // ----- bounded waiting -----

  function IndexOf(q: seq<Tid>, t: Tid): (k: nat)
    requires t in q
    ensures k < |q| && q[k] == t
  {
    if q[0] == t then 0 else 1 + IndexOf(q[1..], t)
  }

  lemma {:induction false} IndexOfAppend(q: seq<Tid>, x: Tid, t: Tid)
    requires t in q
    ensures IndexOf(q + [x], t) == IndexOf(q, t)
  {
    if q[0] != t {
      IndexOfAppend(q[1..], x, t);
      assert (q + [x])[1..] == q[1..] + [x];
    }
  }

  /** The step ends in a call of schedule. */
  predicate CallsSchedule(s: Sys, step: Step)
    requires WellFormed(s) && Enabled(s, step)
  {
    var c := s.threads[s.cur];
    (step == Tick && c.ticks == 0) || step == Yield || step == IdleBlocks
    || (IsDown(step) && s.locks[SemOf(s, step)].value == 0)
  }

  /** The step puts a woken thread in front of the ready list. */
  predicate Pushes(s: Sys, step: Step)
    requires WellFormed(s) && Enabled(s, step)
  {
    IsUp(step) && s.locks[SemOf(s, step)].waiters != []
  }

  /** schedule takes one from the front, having put the caller at the back if it was running. */
  lemma ScheduleReady(b: Sys)
    requires WellFormed(b) && b.ready != []
    ensures var r := Schedule(b);
            r.cur == b.ready[0] &&
            r.ready == (if b.threads[b.cur].status == Running then b.ready + [b.cur] else b.ready)[1..]
  {
  }

  lemma ScheduledReady(s: Sys, step: Step)
    requires Core(s) && Enabled(s, step) && s.ready != [] && CallsSchedule(s, step)
    ensures var r := Next(s, step);
            r.cur == s.ready[0] && (r.ready == s.ready[1..] || r.ready == (s.ready + [s.cur])[1..])
  {
    match step
    case Tick => ScheduleReady(s);
    case Yield =>
      ScheduleReady(SetThread(s, s.cur, s.threads[s.cur].(status := Ready)).(ready := s.ready + [s.cur]));
    case IdleBlocks => ScheduleReady(SetThread(s, s.cur, s.threads[s.cur].(pc := IdleBlock, status := Blocked)));
    case SemaDown => TestReady(s, s.threads[s.cur].pc.l);
    case BareDown(l) => TestReady(s, l);
  }

  lemma TestReady(s: Sys, l: nat)
    requires WellFormed(s) && s.ready != [] && l < |s.locks| && s.locks[l].value == 0
    ensures DownSection(s, l).cur == s.ready[0] && DownSection(s, l).ready == s.ready[1..]
  {
    var b := Waiting(s, l);
    assert forall m, t :: 0 <= m < |b.locks| && t in b.locks[m].waiters ==> t in b.threads;
    ScheduleReady(b);
  }

  /** A step that neither calls schedule nor wakes anybody leaves the list, but for a new thread. */
  lemma OtherReady(s: Sys, step: Step)
    requires WellFormed(s) && Enabled(s, step) && !CallsSchedule(s, step) && !Pushes(s, step)
    ensures var r := Next(s, step);
            r.cur == s.cur && (r.ready == s.ready || (step.Spawn? && r.ready == s.ready + [step.t]))
  {
  }

  /** Where t is on the ready list after a step: one place nearer the head for a call of schedule,
      one further for a woken thread pushed in front of it, and running once it was at the head. */
  ghost predicate PlaceOk(s: Sys, step: Step, t: Tid)
    requires WellFormed(s) && Enabled(s, step) && t in s.ready
  {
    var r := Next(s, step);
    if t in r.ready then
      IndexOf(r.ready, t) + (if CallsSchedule(s, step) then 1 else 0)
        == IndexOf(s.ready, t) + (if Pushes(s, step) then 1 else 0)
    else r.cur == t
  }

  lemma PlaceScheduled(s: Sys, step: Step, t: Tid)
    requires Core(s) && Enabled(s, step) && t in s.ready && CallsSchedule(s, step)
    ensures PlaceOk(s, step, t)
  {
    ScheduledReady(s, step);
    ScheduledNoPush(s, step);
    var q := Next(s, step).ready;
    if s.ready[0] == t {
      HeadScheduled(s, step, t);
    } else {
      LaterScheduled(s.ready, s.cur, t);
      assert t in q && IndexOf(q, t) + 1 == IndexOf(s.ready, t);
    }
  }

  lemma ScheduledNoPush(s: Sys, step: Step)
    requires WellFormed(s) && Enabled(s, step) && CallsSchedule(s, step)
    ensures !Pushes(s, step)
  {
  }

  lemma HeadScheduled(s: Sys, step: Step, t: Tid)
    requires Core(s) && Enabled(s, step) && t in s.ready && Next(s, step).cur == t
    ensures t !in Next(s, step).ready
  {
    StepKeepsCore(s, step);
    assert ThreadOk(Next(s, step), t);
  }

  lemma LaterScheduled(q: seq<Tid>, cur: Tid, t: Tid)
    requires t in q && q[0] != t
    ensures t in q[1..] && IndexOf(q[1..], t) + 1 == IndexOf(q, t)
    ensures t in (q + [cur])[1..] && IndexOf((q + [cur])[1..], t) + 1 == IndexOf(q, t)
  {
    IndexOfAppend(q[1..], cur, t);
    assert (q + [cur])[1..] == q[1..] + [cur];
  }

  lemma PlacePushed(s: Sys, step: Step, t: Tid)
    requires Core(s) && Enabled(s, step) && t in s.ready && Pushes(s, step)
    ensures !CallsSchedule(s, step) && PlaceOk(s, step, t)
  {
    var l := SemOf(s, step);
    UpPutsFirst(s, step, l);
    WakeKeeps(s, l);
    assert Next(s, step).ready[1..] == s.ready;
  }

  lemma PlaceAfter(s: Sys, step: Step, t: Tid)
    requires Core(s) && Enabled(s, step) && t in s.ready
    ensures PlaceOk(s, step, t)
  {
    if CallsSchedule(s, step) {
      PlaceScheduled(s, step, t);
    } else if Pushes(s, step) {
      PlacePushed(s, step, t);
    } else {
      OtherReady(s, step);
      if step.Spawn? { IndexOfAppend(s.ready, step.t, t); }
    }
  }

  function Count(ss: seq<Sys>, steps: seq<Step>, i: nat, j: nat, pushes: bool): nat
    requires Run(ss, steps) && j < |ss|
  {
    if i >= j then 0
    else
      var hit := if pushes then Pushes(ss[j - 1], steps[j - 1]) else CallsSchedule(ss[j - 1], steps[j - 1]);
      Count(ss, steps, i, j - 1, pushes) + if hit then 1 else 0
  }

  lemma CountStep(ss: seq<Sys>, steps: seq<Step>, i: nat, k: nat)
    requires Run(ss, steps) && i <= k < |steps|
    ensures Count(ss, steps, i, k + 1, true)
            == Count(ss, steps, i, k, true) + if Pushes(ss[k], steps[k]) then 1 else 0
    ensures Count(ss, steps, i, k + 1, false)
            == Count(ss, steps, i, k, false) + if CallsSchedule(ss[k], steps[k]) then 1 else 0
  {
  }

  /** While t stays on the ready list, its place falls by one per schedule call and rises by
      one per thread_unblock: nothing else moves it. */
  lemma {:induction false} PlaceOverRun(ss: seq<Sys>, steps: seq<Step>, bare: seq<bool>, i: nat, j: nat, t: Tid)
    requires Run(ss, steps) && ss[0] == Boot(bare) && i <= j < |ss|
    requires t in ss[i].ready && forall m :: i < m <= j ==> ss[m].cur != t
    ensures t in ss[j].ready
    ensures IndexOf(ss[j].ready, t) + Count(ss, steps, i, j, false)
            == IndexOf(ss[i].ready, t) + Count(ss, steps, i, j, true)
    decreases j
  {
    if i < j {
      var k := j - 1;
      PlaceOverRun(ss, steps, bare, i, k, t);
      PlaceStepAt(ss, steps, bare, k, t);
      CountStep(ss, steps, i, k);
    }
  }

  lemma PlaceStepAt(ss: seq<Sys>, steps: seq<Step>, bare: seq<bool>, i: nat, t: Tid)
    requires Run(ss, steps) && ss[0] == Boot(bare) && i < |steps| && t in ss[i].ready && ss[i + 1].cur != t
    ensures t in ss[i + 1].ready
    ensures IndexOf(ss[i + 1].ready, t) + (if CallsSchedule(ss[i], steps[i]) then 1 else 0)
            == IndexOf(ss[i].ready, t) + (if Pushes(ss[i], steps[i]) then 1 else 0)
  {
    RunSafe(ss, steps, bare, i);
    assert ss[i + 1] == Next(ss[i], steps[i]);
    PlaceAfter(ss[i], steps[i], t);
  }

  /** A READY thread with k threads ahead of it has been dispatched by the (k + u + 1)-th
      schedule call, u being the wakeups pushed in front of it meanwhile. */
  lemma BoundedWaiting(ss: seq<Sys>, steps: seq<Step>, bare: seq<bool>, i: nat, j: nat, t: Tid)
    requires Run(ss, steps) && ss[0] == Boot(bare) && i <= j < |ss| && t in ss[i].ready
    requires Count(ss, steps, i, j, false) >= IndexOf(ss[i].ready, t) + Count(ss, steps, i, j, true) + 1
    ensures exists m :: i < m <= j && ss[m].cur == t
  {
    if forall m :: i < m <= j ==> ss[m].cur != t {
      PlaceOverRun(ss, steps, bare, i, j, t);
    }
  }

  /** The popped thread of any sema_up: it runs at the next schedule call, or after one more for
      each thread pushed in front of it meanwhile. */
  lemma WokenThreadRuns(ss: seq<Sys>, steps: seq<Step>, bare: seq<bool>, i: nat, j: nat, l: nat)
    requires Run(ss, steps) && ss[0] == Boot(bare) && i + 1 <= j < |ss|
    requires IsUp(steps[i]) && SemOf(ss[i], steps[i]) == l && ss[i].locks[l].waiters != []
    ensures l < |ss[i + 1].locks| && Woken(ss[i + 1], ss[i].locks[l].waiters[0], l)
    ensures ss[i + 1].ready == [ss[i].locks[l].waiters[0]] + ss[i].ready
    ensures Count(ss, steps, i + 1, j, false) > Count(ss, steps, i + 1, j, true)
            ==> exists m :: i + 1 < m <= j && ss[m].cur == ss[i].locks[l].waiters[0]
  {
    var t, next := ss[i].locks[l].waiters[0], i + 1;
    RunSafe(ss, steps, bare, i);
    assert ss[next] == Next(ss[i], steps[i]);
    UpLeavesWoken(ss[i], steps[i], l);
    UpPutsFirst(ss[i], steps[i], l);
    assert IndexOf(ss[next].ready, t) == 0;
    if Count(ss, steps, next, j, false) > Count(ss, steps, next, j, true) {
      BoundedWaiting(ss, steps, bare, next, j, t);
    }
  }

  /** Whenever a woken thread is found, it is on the processor now or is dispatched, inside its
      sema_down loop, within that many schedule calls. */
  lemma WokenWaits(ss: seq<Sys>, steps: seq<Step>, bare: seq<bool>, i: nat, j: nat, l: nat, t: Tid)
    requires Run(ss, steps) && ss[0] == Boot(bare) && i <= j < |ss|
    requires l < |ss[i].locks| && Woken(ss[i], t, l) && t != ss[i].cur
    ensures t in ss[i].ready
    ensures Count(ss, steps, i, j, false) >= |ss[i].ready| + Count(ss, steps, i, j, true)
            ==> exists m :: i < m <= j && ss[m].cur == t
  {
    RunSafe(ss, steps, bare, i);
    assert ThreadOk(ss[i], t);
    assert ss[i].threads[t].status == Ready;
    if Count(ss, steps, i, j, false) >= |ss[i].ready| + Count(ss, steps, i, j, true) {
      BoundedWaiting(ss, steps, bare, i, j, t);
    }
  }

  // ----- first come, first served -----

  predicate Waits(s: Sys, t: Tid, l: nat)
  {
    l < |s.locks| && t in s.locks[l].waiters
  }

  /** The step is a sema_up of semaphore l. */
  predicate Ups(s: Sys, step: Step, l: nat)
    requires WellFormed(s) && Enabled(s, step)
  {
    IsUp(step) && SemOf(s, step) == l
  }

  /** A sema_up takes the first waiter off, a thread that goes to sleep comes last, and nothing else
      changes the list. */
  lemma WaitersAfter(s: Sys, step: Step, l: nat)
    requires Core(s) && Enabled(s, step) && l < |s.locks|
    ensures l < |Next(s, step).locks|
    ensures var q, r := s.locks[l].waiters, Next(s, step).locks[l].waiters;
            if Ups(s, step, l) && q != [] then r == q[1..] else r == q || r == q + [s.cur]
  {
    OthersKeepPlace(s, step);
    if !OnSem(s, step, l) {
      SemaphoresKept(s, step, l);
    } else {
      OnSemIs(s, step, l);
      RaisedWaiters(s, l);
      DownWaiters(s, l);
    }
  }

  lemma OnSemIs(s: Sys, step: Step, l: nat)
    requires WellFormed(s) && Enabled(s, step) && OnSem(s, step, l) && l < |s.locks|
    ensures Next(s, step).locks == (if IsUp(step) then Raise(s, l) else DownSection(s, l)).locks
  {
  }

  lemma RaisedWaiters(s: Sys, l: nat)
    requires WellFormed(s) && l < |s.locks|
    ensures var q := s.locks[l].waiters; Raise(s, l).locks[l].waiters == if q == [] then [] else q[1..]
  {
  }

  lemma DownWaiters(s: Sys, l: nat)
    requires WellFormed(s) && l < |s.locks|
    ensures DownSection(s, l).locks[l].waiters == s.locks[l].waiters + if s.locks[l].value == 0 then [s.cur] else []
  {
  }

  /** A sema_up moves each waiter one place nearer the head and takes the first off; nothing else
      moves a waiter. */
  lemma WaiterStep(s: Sys, step: Step, t: Tid, l: nat)
    requires Core(s) && Enabled(s, step) && Waits(s, t, l)
    ensures var r := Next(s, step);
            if Waits(r, t, l) then
              IndexOf(r.locks[l].waiters, t) + (if Ups(s, step, l) then 1 else 0) == IndexOf(s.locks[l].waiters, t)
            else Ups(s, step, l) && s.locks[l].waiters[0] == t
  {
    WaitersAfter(s, step, l);
    assert WaitersOk(s, l);
    FirstOff(s.locks[l].waiters, t);
    IndexOfAppend(s.locks[l].waiters, s.cur, t);
  }

  lemma FirstOff(q: seq<Tid>, t: Tid)
    requires t in q && Lists.Distinct(q)
    ensures t in q[1..] <==> q[0] != t
    ensures t in q[1..] ==> IndexOf(q[1..], t) + 1 == IndexOf(q, t)
  {
  }

  function UpCount(ss: seq<Sys>, steps: seq<Step>, i: nat, j: nat, l: nat): nat
    requires Run(ss, steps) && j < |ss|
  {
    if i >= j then 0 else UpCount(ss, steps, i, j - 1, l) + if Ups(ss[j - 1], steps[j - 1], l) then 1 else 0
  }

  /** How many wait before t, or -1 if t does not wait. */
  function Place(s: Sys, t: Tid, l: nat): int
  {
    if Waits(s, t, l) then IndexOf(s.locks[l].waiters, t) else -1
  }

  lemma PlaceStep(ss: seq<Sys>, steps: seq<Step>, bare: seq<bool>, i: nat, t: Tid, l: nat)
    requires Run(ss, steps) && ss[0] == Boot(bare) && i < |steps| && Waits(ss[i], t, l)
    ensures Place(ss[i + 1], t, l) + (if Ups(ss[i], steps[i], l) then 1 else 0) == Place(ss[i], t, l)
  {
    RunSafe(ss, steps, bare, i);
    assert ss[i + 1] == Next(ss[i], steps[i]);
    WaiterStep(ss[i], steps[i], t, l);
  }

  lemma UpCountStep(ss: seq<Sys>, steps: seq<Step>, i: nat, k: nat, l: nat)
    requires Run(ss, steps) && i <= k < |steps|
    ensures UpCount(ss, steps, i, k + 1, l) == UpCount(ss, steps, i, k, l) + if Ups(ss[k], steps[k], l) then 1 else 0
  {
  }

  /** While t waits, its place falls by one for each sema_up and by nothing else. */
  lemma {:induction false} WaiterOverRun(ss: seq<Sys>, steps: seq<Step>, bare: seq<bool>, i: nat, j: nat,
                                         t: Tid, l: nat)
    requires Run(ss, steps) && ss[0] == Boot(bare) && i <= j < |ss|
    requires forall m :: i <= m < j ==> Waits(ss[m], t, l)
    ensures Place(ss[j], t, l) + UpCount(ss, steps, i, j, l) == Place(ss[i], t, l)
    decreases j
  {
    if i < j {
      var k := j - 1;
      WaiterOverRun(ss, steps, bare, i, k, t, l);
      PlaceStep(ss, steps, bare, k, t, l);
      UpCountStep(ss, steps, i, k, l);
    }
  }

  /** Waiters are woken in the order they came: with k before it a thread is off the list by the
      (k + 1)-th sema_up, and no sooner. */
  lemma WokenInTurn(ss: seq<Sys>, steps: seq<Step>, bare: seq<bool>, i: nat, j: nat, t: Tid, l: nat)
    requires Run(ss, steps) && ss[0] == Boot(bare) && i < j < |ss|
    requires forall m :: i <= m < j ==> Waits(ss[m], t, l)
    ensures Waits(ss[i], t, l)
    ensures !Waits(ss[j], t, l) <==> UpCount(ss, steps, i, j, l) > IndexOf(ss[i].locks[l].waiters, t)
  {
    WaiterOverRun(ss, steps, bare, i, j, t, l);
    assert Waits(ss[i], t, l);
  }

  // ----- time slices -----

  function Ticks(steps: seq<Step>, i: nat, j: nat): nat
    requires j <= |steps|
  {
    if i >= j then 0 else Ticks(steps, i, j - 1) + if steps[j - 1] == Tick then 1 else 0
  }

  function Slice(s: Sys): nat
    requires s.cur in s.threads
  {
    s.threads[s.cur].ticks
  }

  /** No step from the i-th to before the j-th calls schedule. */
  ghost predicate Undisturbed(ss: seq<Sys>, steps: seq<Step>, i: nat, j: nat)
    requires Run(ss, steps) && j < |ss|
  {
    forall m {:trigger steps[m]} :: i <= m < j ==> !CallsSchedule(ss[m], steps[m])
  }

  /** Between two schedule calls the same thread stays on the processor and its slice falls by
      one per timer tick, so at most priority ticks pass and the next one reschedules. */
  lemma {:induction false} SliceOverRun(ss: seq<Sys>, steps: seq<Step>, bare: seq<bool>, i: nat, j: nat)
    requires Run(ss, steps) && ss[0] == Boot(bare) && i <= j < |ss| && Undisturbed(ss, steps, i, j)
    ensures ss[i].cur in ss[i].threads && ss[j].cur in ss[j].threads && ss[j].cur == ss[i].cur
    ensures Slice(ss[j]) + Ticks(steps, i, j) == Slice(ss[i]) <= ss[i].threads[ss[i].cur].priority
    decreases j
  {
    SliceBound(ss, steps, bare, i);
    if i < j {
      SliceOverRun(ss, steps, bare, i, j - 1);
      SliceStepAt(ss, steps, bare, i, j);
    }
  }

  lemma SliceBound(ss: seq<Sys>, steps: seq<Step>, bare: seq<bool>, i: nat)
    requires Run(ss, steps) && ss[0] == Boot(bare) && i < |ss|
    ensures ss[i].cur in ss[i].threads && Slice(ss[i]) <= ss[i].threads[ss[i].cur].priority
  {
    RunSafe(ss, steps, bare, i);
    assert ThreadOk(ss[i], ss[i].cur);
  }

  lemma SliceStepAt(ss: seq<Sys>, steps: seq<Step>, bare: seq<bool>, i: nat, j: nat)
    requires Run(ss, steps) && ss[0] == Boot(bare) && i < j < |ss| && Undisturbed(ss, steps, i, j)
    ensures ss[j - 1].cur in ss[j - 1].threads && ss[j].cur in ss[j].threads && ss[j].cur == ss[j - 1].cur
    ensures Slice(ss[j]) + (if steps[j - 1] == Tick then 1 else 0) == Slice(ss[j - 1])
  {
    RunSafe(ss, steps, bare, j - 1);
    assert ss[j] == Next(ss[j - 1], steps[j - 1]);
    SliceStep(ss[j - 1], steps[j - 1]);
  }

  lemma SliceStep(s: Sys, step: Step)
    requires Core(s) && Enabled(s, step) && !CallsSchedule(s, step)
    ensures var r := Next(s, step);
            r.cur == s.cur && r.cur in r.threads &&
            r.threads[r.cur].ticks + (if step == Tick then 1 else 0) == s.threads[s.cur].ticks
  {
    if IsUp(step) {
      assert ThreadOk(s, s.cur);
      var l := SemOf(s, step);
      RaiseSpares(s, l);
      if s.locks[l].waiters != [] { WakeKeeps(s, l); }
    }
  }

  // ----- slices off the processor -----

  /** What schedule does to a thread's slice: a caller that was running starts afresh. */
  lemma ScheduleTicks(b: Sys, t: Tid)
    requires WellFormed(b) && t in b.threads
    ensures var c, r := b.threads[t], Schedule(b);
            t in r.threads && r.threads[t].priority == c.priority &&
            r.threads[t].ticks == if t == b.cur && c.status == Running then c.priority else c.ticks
  {
  }

  lemma RaiseTicks(s: Sys, l: nat, t: Tid)
    requires WellFormed(s) && l < |s.locks| && t in s.threads
    ensures var c, r := s.threads[t], Raise(s, l);
            t in r.threads && r.threads[t].priority == c.priority && r.threads[t].ticks == c.ticks
  {
  }

  lemma DownTicks(s: Sys, l: nat, t: Tid)
    requires WellFormed(s) && l < |s.locks| && t in s.threads
    ensures var c, r := s.threads[t], DownSection(s, l);
            t in r.threads && r.threads[t].priority == c.priority && r.threads[t].ticks == c.ticks
  {
    if s.locks[l].value == 0 {
      var b := Waiting(s, l);
      assert forall m, u :: 0 <= m < |b.locks| && u in b.locks[m].waiters ==> u in b.threads;
      ScheduleTicks(b, t);
    }
  }

  /** Nothing but a timer tick changes a slice, and only the running thread's: it falls by one, and
      from 0 goes back to the priority, which never changes. A new thread's is its priority. */
  lemma TicksStep(s: Sys, step: Step, t: Tid)
    requires Core(s) && Enabled(s, step) && t in s.threads
    ensures var c, r := s.threads[t], Next(s, step);
            t in r.threads && r.threads[t].priority == c.priority &&
            r.threads[t].ticks == if t != s.cur || step != Tick then c.ticks
                                  else if c.ticks == 0 then c.priority else c.ticks - 1
    ensures step.Spawn? ==> var r := Next(s, step);
              step.t in r.threads && r.threads[step.t].ticks == r.threads[step.t].priority == step.prio
  {
    match step
    case Tick => if s.threads[s.cur].ticks == 0 { ScheduleTicks(s, t); }
    case Yield =>
      ScheduleTicks(SetThread(s, s.cur, s.threads[s.cur].(status := Ready)).(ready := s.ready + [s.cur]), t);
    case IdleBlocks => ScheduleTicks(SetThread(s, s.cur, s.threads[s.cur].(pc := IdleBlock, status := Blocked)), t);
    case SemaDown => DownTicks(s, s.threads[s.cur].pc.l, t);
    case BareDown(l) => DownTicks(s, l, t);
    case SemaUp => RaiseTicks(s, s.threads[s.cur].pc.l, t);
    case BareUp(l) => RaiseTicks(s, l, t);
    case _ =>
  }

  lemma TicksStepAt(ss: seq<Sys>, steps: seq<Step>, bare: seq<bool>, i: nat, t: Tid)
    requires Run(ss, steps) && ss[0] == Boot(bare) && i < |steps| && t in ss[i].threads
    ensures t in ss[i + 1].threads && ss[i + 1].threads[t].priority == ss[i].threads[t].priority
    ensures ss[i].cur != t || steps[i] != Tick ==> ss[i + 1].threads[t].ticks == ss[i].threads[t].ticks
    ensures ss[i].cur == t && steps[i] == Tick && ss[i].threads[t].ticks == 0 ==>
              ss[i + 1].threads[t].ticks == ss[i].threads[t].priority
  {
    RunSafe(ss, steps, bare, i);
    assert ss[i + 1] == Next(ss[i], steps[i]);
    TicksStep(ss[i], steps[i], t);
  }

  /** While a thread is off the processor, whatever brought it there, its slice waits for it. */
  lemma {:induction false} SliceWaits(ss: seq<Sys>, steps: seq<Step>, bare: seq<bool>, i: nat, j: nat, t: Tid)
    requires Run(ss, steps) && ss[0] == Boot(bare) && i <= j < |ss| && t in ss[i].threads
    requires forall m :: i <= m < j ==> ss[m].cur != t
    ensures t in ss[j].threads && ss[j].threads[t].priority == ss[i].threads[t].priority
    ensures ss[j].threads[t].ticks == ss[i].threads[t].ticks
    decreases j
  {
    if i < j {
      SliceWaits(ss, steps, bare, i, j - 1, t);
      TicksStepAt(ss, steps, bare, j - 1, t);
    }
  }

  /** The step takes t off the processor at the end of its slice, or starts it. */
  predicate Renews(s: Sys, step: Step, t: Tid)
    requires WellFormed(s) && Enabled(s, step)
  {
    (step == Tick && t == s.cur && CallsSchedule(s, step)) || (step.Spawn? && t == step.t)
  }

  /** State j is the first after step i that has t on the processor. */
  predicate NextOn(ss: seq<Sys>, i: nat, j: nat, t: Tid)
  {
    i < j < |ss| && ss[j].cur == t && forall m :: i < m < j ==> ss[m].cur != t
  }

  lemma Renewed(ss: seq<Sys>, steps: seq<Step>, bare: seq<bool>, i: nat, t: Tid)
    requires Run(ss, steps) && ss[0] == Boot(bare) && i < |steps| && Renews(ss[i], steps[i], t)
    ensures t in ss[i + 1].threads && ss[i + 1].threads[t].ticks == ss[i + 1].threads[t].priority
    ensures t in ss[i].threads ==> ss[i + 1].threads[t].priority == ss[i].threads[t].priority
  {
    RunSafe(ss, steps, bare, i);
    assert ss[i + 1] == Next(ss[i], steps[i]);
    TicksStep(ss[i], steps[i], ss[i].cur);
  }

  /** A thread that a tick took off the processor, or that was just started, is dispatched next with
      a slice of its whole priority. */
  lemma FreshSlice(ss: seq<Sys>, steps: seq<Step>, bare: seq<bool>, i: nat, j: nat, t: Tid)
    requires Run(ss, steps) && ss[0] == Boot(bare) && i < |steps| && Renews(ss[i], steps[i], t) && NextOn(ss, i, j, t)
    ensures t in ss[j].threads && Slice(ss[j]) == ss[j].threads[t].priority
    ensures t in ss[i].threads ==> ss[j].threads[t].priority == ss[i].threads[t].priority
  {
    Renewed(ss, steps, bare, i, t);
    var next := i + 1;
    SliceWaits(ss, steps, bare, next, j, t);
  }

  /** From there on, as long as it does not block or yield, the tick that takes it off again is the
      one after exactly that many: none before, and that one does. */
  lemma FullSlice(ss: seq<Sys>, steps: seq<Step>, bare: seq<bool>, i: nat, j: nat, k: nat, t: Tid)
    requires Run(ss, steps) && ss[0] == Boot(bare) && i < |steps| && Renews(ss[i], steps[i], t) && NextOn(ss, i, j, t)
    requires j <= k < |steps| && Undisturbed(ss, steps, j, k)
    ensures ss[k].cur == t && t in ss[j].threads && t in ss[k].threads
    ensures Slice(ss[k]) + Ticks(steps, j, k) == ss[j].threads[t].priority
    ensures steps[k] == Tick ==> (CallsSchedule(ss[k], steps[k]) <==> Ticks(steps, j, k) == ss[j].threads[t].priority)
  {
    FreshSlice(ss, steps, bare, i, j, t);
    SliceOverRun(ss, steps, bare, j, k);
  }
}
