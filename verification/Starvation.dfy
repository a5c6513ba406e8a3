/**
 * No starvation: the rank of a queued thread - is it below the top queue, and how far
 * back in its queue - never grows, falls at every maintenance pass while the thread is
 * old and below the top, and falls at every change of threads while it is at the top.
 */
module Starvation {
  import opened RunQueues
  import opened SchedulerSpec
  import opened MutexSpec
  import opened ThreadSystem

  ghost predicate QueuedIn(s: Sched<Tid>, t: Tid) {
    t in s.tcb && s.tcb[t].state == Queued && InQueue(s, s.tcb[t].priority, t)
  }

  predicate IsLower(s: Sched<Tid>, t: Tid)
    requires t in s.tcb
  {
    s.tcb[t].priority > 0
  }

  ghost function Position(s: Sched<Tid>, t: Tid): nat
    requires QueuedIn(s, t)
  {
    IndexOf(s.queues[s.tcb[t].priority], t)
  }

  /** Promotion to the top queue beats any position. */
  ghost predicate Sooner(s: Sched<Tid>, r: Sched<Tid>, t: Tid)
    requires QueuedIn(s, t) && QueuedIn(r, t)
  {
    if IsLower(s, t) == IsLower(r, t) then Position(r, t) < Position(s, t) else IsLower(s, t)
  }

  ghost predicate NotLater(s: Sched<Tid>, r: Sched<Tid>, t: Tid)
    requires QueuedIn(s, t) && QueuedIn(r, t)
  {
    if IsLower(s, t) == IsLower(r, t) then Position(r, t) <= Position(s, t) else IsLower(s, t)
  }

  // ---------------------------------------------------------------- the pieces of schedule

  lemma {:induction false} IndexOfAppend(q: seq<Tid>, more: seq<Tid>, t: Tid)
    requires t in q
    ensures t in q + more && IndexOf(q + more, t) == IndexOf(q, t)
  {
    var l := q + more;
    assert l[..|q|] == q;
    assert t in l;
    if q[0] != t {
      assert l[1..] == q[1..] + more;
      IndexOfAppend(q[1..], more, t);
    }
  }

  lemma MaintainQueueRank(s: Sched<Tid>, i: nat, now: int, t: Tid)
    requires QueuesOk(s) && 0 < i < RUN_QUEUES && QueuedIn(s, t)
    ensures var r := MaintainQueue(s, i, now);
            && QueuedIn(r, t) && NotLater(s, r, t)
            && r.tcb[t].timeLife == s.tcb[t].timeLife
            && (s.tcb[t].priority == i && IsAged(s.tcb[t], now) ==> Sooner(s, r, t))
            && (s.tcb[t].priority != i ==> r.tcb[t].priority == s.tcb[t].priority)
            && (r.tcb[t].priority == i || r.tcb[t].priority == 0 || r.tcb[t].priority == s.tcb[t].priority)
  {
    MaintainQueueKeepsQueues(s, i, now);
    var aged := Aged(s, now);
    var q := s.queues[i];
    var r := MaintainQueue(s, i, now);
    PassMembers(q, aged, t);
    if t in q {
      assert s.tcb[t].priority == i;
      if t in Kept(q, aged) {
        PassKeepsDistinct(q, aged);
        LeftBehindMovesForward(q, aged, t);
      }
    } else if t in s.queues[0] {
      IndexOfAppend(s.queues[0], Promoted(q, aged), t);
    }
  }

  lemma {:induction false} MaintainFromRank(s: Sched<Tid>, i: nat, now: int, t: Tid)
    requires QueuesOk(s) && 0 < i <= RUN_QUEUES && QueuedIn(s, t)
    ensures var r := MaintainFrom(s, i, now);
            && QueuedIn(r, t) && NotLater(s, r, t)
            && (s.tcb[t].priority >= i && IsAged(s.tcb[t], now) ==> Sooner(s, r, t))
    decreases RUN_QUEUES - i
  {
    if i < RUN_QUEUES {
      var b := MaintainQueue(s, i, now);
      MaintainQueueKeepsQueues(s, i, now);
      MaintainQueueRank(s, i, now, t);
      MaintainFromRank(b, i + 1, now, t);
    }
  }

  /** Every dispatch from its own queue brings a thread one place forward. */
  lemma DispatchRank(s: Sched<Tid>, now: int, t: Tid)
    requires QueuesOk(s) && !NoneQueued(s) && QueuedIn(s, t)
    ensures var i := FirstQueue(s.queues); i < |s.queues| && s.queues[i][0] in s.tcb
    ensures var r := Dispatch(s, now);
            r.current != t ==>
              && QueuedIn(r, t) && NotLater(s, r, t)
              && r.tcb[t].priority == s.tcb[t].priority
              && (s.tcb[t].priority == 0 ==> Position(r, t) == Position(s, t) - 1)
  {
    DispatchKeepsWellFormed(s, now);
    var i := FirstQueue(s.queues);
    var q := s.queues[i];
    if q[0] != t && s.tcb[t].priority == i {
      assert q == [q[0]] + q[1..];
      assert t in q[1..];
    }
    if s.tcb[t].priority == 0 { assert s.queues[0] != []; }
  }

  lemma LeaveRank(s: Sched<Tid>, t: Tid)
    requires WellFormed(s) && Leaves(s) && QueuedIn(s, t)
    ensures QueuedIn(Leave(s), t) && NotLater(s, Leave(s), t)
  {
    var u := s.current;
    var b := s.tcb[u];
    if b.state != Exited && b.state != Blocked {
      var p := if b.state == Running then Demoted(b.priority) else b.priority;
      var s1 := SetTcb(s, u, b.(priority := p, state := Queued, timeRun := 0));
      AppendRank(s1, u, t);
    }
  }

  lemma AppendRank(s: Sched<Tid>, u: Tid, t: Tid)
    requires |s.queues| == RUN_QUEUES && u in s.tcb && 0 <= s.tcb[u].priority < RUN_QUEUES && QueuedIn(s, t)
    ensures QueuedIn(Append(s, u), t) && NotLater(s, Append(s, u), t)
  {
    var p := s.tcb[u].priority;
    if s.tcb[t].priority == p { IndexOfAppend(s.queues[p], [u], t); }
  }

  lemma TendRank(s: Sched<Tid>, now: int, t: Tid)
    requires WellFormed(s) && QueuedIn(s, t)
    ensures var c := Tend(s, now);
            && QueuedIn(c, t) && NotLater(s, c, t)
            && (s.cycle + 1 >= MAINTENANCE_THRESHOLD && IsLower(s, t) && IsAged(s.tcb[t], now) ==> Sooner(s, c, t))
  {
    if s.cycle + 1 >= MAINTENANCE_THRESHOLD {
      var b := s.(cycle := 0);
      assert QueuesOk(b) && QueuedIn(b, t) && Position(b, t) == Position(s, t);
      MaintainFromRank(b, 1, now, t);
    } else {
      assert Position(s.(cycle := s.cycle + 1), t) == Position(s, t);
    }
  }

  lemma CountedRank(s: Sched<Tid>, now: int, t: Tid)
    requires WellFormed(s) && QueuedIn(s, t)
    ensures var c := Counted(s, now);
            && QueuedIn(c, t) && NotLater(s, c, t)
            && (s.cycle + 1 >= MAINTENANCE_THRESHOLD && IsLower(s, t) && IsAged(s.tcb[t], now) ==> Sooner(s, c, t))
            && c.cycle == (if s.cycle + 1 >= MAINTENANCE_THRESHOLD then 0 else s.cycle + 1)
            && c.current == s.current
  {
    TendKeepsWellFormed(s, now);
    TendRank(s, now, t);
    CycleCounts(s, now);
    var a := Tend(s, now);
    assert Position(Charge(a, now), t) == Position(a, t);
  }

  lemma CycleCounts(s: Sched<Tid>, now: int)
    requires WellFormed(s)
    ensures Tend(s, now).cycle == (if s.cycle + 1 >= MAINTENANCE_THRESHOLD then 0 else s.cycle + 1)
  {
    if s.cycle + 1 >= MAINTENANCE_THRESHOLD { MaintainFromKeepsQueues(s.(cycle := 0), 1, now); }
  }

  lemma SwapRank(c: Sched<Tid>, now: int, t: Tid)
    requires WellFormed(c) && QueuedIn(c, t) && !NoneQueued(c) && Leaves(c)
    requires QueuesOk(Leave(c)) && !NoneQueued(Leave(c))
    requires var l := Leave(c); l.queues[FirstQueue(l.queues)][0] in l.tcb
    requires Dispatch(Leave(c), now).current != t
    ensures var r := Dispatch(Leave(c), now);
            && QueuedIn(r, t) && NotLater(c, r, t) && (!IsLower(c, t) ==> Sooner(c, r, t))
            && r.cycle == c.cycle
  {
    LeaveRank(c, t);
    DispatchRank(Leave(c), now, t);
  }

  /**
   * What a step that does not dispatch t does for it: `calls` if the step calls
   * schedule, `aged` if t has reached the age for promotion.
   */
  ghost predicate Advances(s: Sched<Tid>, r: Sched<Tid>, t: Tid, calls: bool, aged: bool)
    requires QueuedIn(s, t)
  {
    && QueuedIn(r, t) && NotLater(s, r, t)
    && (calls && s.cycle + 1 >= MAINTENANCE_THRESHOLD && IsLower(s, t) && aged ==> Sooner(s, r, t))
    && (r.current != s.current && !IsLower(s, t) ==> Sooner(s, r, t))
    && r.tcb[t].timeLife == s.tcb[t].timeLife
    && r.cycle == (if !calls then s.cycle else if s.cycle + 1 >= MAINTENANCE_THRESHOLD then 0 else s.cycle + 1)
  }

  lemma ScheduleRank(s: Sched<Tid>, now: int, t: Tid)
    requires WellFormed(s) && QueuedArePlaced(s) && QueuedIn(s, t) && Schedule(s, now).current != t
    ensures Advances(s, Schedule(s, now), t, true, IsAged(s.tcb[t], now))
  {
    CountedRank(s, now, t);
    ScheduleEffect(s, now);
    var c := Counted(s, now);
    if !NoneQueued(c) && Leaves(c) {
      LeaveKeepsQueues(c);
      DispatchKeepsWellFormed(Leave(c), now);
      SwapRank(c, now, t);
      RankTransitive(s, c, Schedule(s, now), t);
    } else {
      assert c.queues == Schedule(s, now).queues;
    }
  }

  lemma RankTransitive(s: Sched<Tid>, c: Sched<Tid>, r: Sched<Tid>, t: Tid)
    requires QueuedIn(s, t) && QueuedIn(c, t) && QueuedIn(r, t)
    requires NotLater(s, c, t) && NotLater(c, r, t)
    ensures NotLater(s, r, t)
    ensures Sooner(s, c, t) || Sooner(c, r, t) ==> Sooner(s, r, t)
  {
  }

  /** The same when the control block of the current thread is rewritten first. */
  lemma RescheduleRank(s: Sched<Tid>, b: Tcb, n: int, t: Tid)
    requires WellFormed(s) && QueuedArePlaced(s) && QueuedIn(s, t)
    requires b.state != Queued && b.priority == s.tcb[s.current].priority
    ensures WellFormed(SetTcb(s, s.current, b))
    ensures var r := Schedule(SetTcb(s, s.current, b), n);
            r.current != t ==> Advances(s, r, t, true, IsAged(s.tcb[t], n))
  {
    var c := SetTcb(s, s.current, b);
    forall u | u in c.tcb && c.tcb[u].state == Queued ensures InQueue(c, c.tcb[u].priority, u) {
      assert InQueue(s, s.tcb[u].priority, u);
    }
    assert QueuedIn(c, t) && Position(c, t) == Position(s, t);
    if Schedule(c, n).current != t { ScheduleRank(c, n, t); }
  }

  // ---------------------------------------------------------------- whole runs

  /** The calls that run a maintenance pass. */
  ghost predicate Passes(s: System, step: Step)
    requires Inv(s) && Allowed(s, step)
  {
    CallsSchedule(s, step) && s.sched.cycle + 1 >= MAINTENANCE_THRESHOLD
  }

  ghost predicate Switches(s: System, step: Step)
    requires Inv(s) && Allowed(s, step)
  {
    Next(s, step).sched.current != s.sched.current
  }

  ghost predicate OldEnough(s: Sched<Tid>, t: Tid, step: Step)
    requires t in s.tcb
  {
    step.Unlock? || IsAged(s.tcb[t], step.now)
  }

  lemma UnlockRank(s: System, m: Mid, t: Tid)
    requires Inv(s) && Allowed(s, Unlock(m)) && QueuedIn(s.sched, t)
    ensures Advances(s.sched, Next(s, Unlock(m)).sched, t, false, true)
  {
    assert ThreadOk(s, s.sched.current) && MutexOk(s, m);
    var q := s.mutexes[m].waiters;
    if q != [] {
      assert q[0] in q;
      var b := SetState(s.sched, q[0], Queued);
      assert QueuedIn(b, t) && Position(b, t) == Position(s.sched, t);
      AppendRank(b, q[0], t);
    }
  }

  lemma CreateRank(s: System, u: Tid, n: int, t: Tid)
    requires Inv(s) && Allowed(s, Create(u, n)) && QueuedIn(s.sched, t)
    ensures Advances(s.sched, Next(s, Create(u, n)).sched, t, false, true)
  {
    var b := SetTcb(s.sched, u, Tcb(0, Queued, 0, 0, 0, 0, n));
    assert QueuedIn(b, t) && Position(b, t) == Position(s.sched, t);
    AppendRank(b, u, t);
  }

  /** Every step advances every queued thread that it does not dispatch. */
  lemma StepRank(s: System, step: Step, t: Tid)
    requires Inv(s) && Allowed(s, step) && QueuedIn(s.sched, t) && Next(s, step).sched.current != t
    ensures Advances(s.sched, Next(s, step).sched, t, CallsSchedule(s, step), OldEnough(s.sched, t, step))
  {
    hide Linked, WellFormed, QueuedArePlaced, NotLater, Sooner, Schedule, TryLockStep, TryJoinStep, UnlockStep;
    var cur := s.sched.current;
    CurrentFacts(s);
    match step
    case Create(u, n) => CreateRank(s, u, n, t);
    case Unlock(m) => UnlockRank(s, m, t);
    case Yield(n) => YieldRank(s.sched, n, t);
    case Exit(v, n) => ExitRank(s.sched, v, n, t);
    case Join(u, n) => JoinRank(s, u, n, t);
    case Tick(n) => ScheduleRank(s.sched, n, t);
    case Lock(m, n) => TryLockRank(s, m, n, t);
    case Resume(n) =>
      if s.mode[cur].Acquiring? {
        ResumeMayTry(s);
        TryLockRank(s, s.mode[cur].m, n, t);
      } else {
        TryJoinRank(s, s.mode[cur].t, n, t);
      }
  }

  lemma YieldRank(s: Sched<Tid>, n: int, t: Tid)
    requires WellFormed(s) && QueuedArePlaced(s) && QueuedIn(s, t) && MutexSpec.Yield(s, n).current != t
    ensures Advances(s, MutexSpec.Yield(s, n), t, true, IsAged(s.tcb[t], n))
  {
    RescheduleRank(s, s.tcb[s.current].(state := Yielded), n, t);
  }

  lemma ExitRank(s: Sched<Tid>, v: int, n: int, t: Tid)
    requires WellFormed(s) && QueuedArePlaced(s) && QueuedIn(s, t) && MutexSpec.Exit(s, v, n).current != t
    ensures Advances(s, MutexSpec.Exit(s, v, n), t, true, IsAged(s.tcb[t], n))
  {
    RescheduleRank(s, Leaving(s, v).tcb[s.current], n, t);
  }

  lemma TryJoinRank(s: System, u: Tid, n: int, t: Tid)
    requires Placed(s) && u in s.sched.tcb && QueuedIn(s.sched, t)
    requires TryJoinStep(s, u, n).sched.current != t
    ensures Advances(s.sched, TryJoinStep(s, u, n).sched, t, StateOf(s, u) != Exited, IsAged(s.sched.tcb[t], n))
  {
    if StateOf(s, u) != Exited { ScheduleRank(s.sched, n, t); }
  }

  lemma JoinRank(s: System, u: Tid, n: int, t: Tid)
    requires Inv(s) && Allowed(s, Join(u, n)) && QueuedIn(s.sched, t)
    requires Next(s, Join(u, n)).sched.current != t
    ensures Advances(s.sched, Next(s, Join(u, n)).sched, t, StateOf(s, u) != Exited, IsAged(s.sched.tcb[t], n))
  {
    var b := s.sched.tcb[s.sched.current].(state := Joining);
    if StateOf(s, u) != Exited { RescheduleRank(s.sched, b, n, t); }
  }

  lemma TryLockRank(s: System, m: Mid, n: int, t: Tid)
    requires MayTry(s, m) && QueuedIn(s.sched, t) && TryLockStep(s, m, n).sched.current != t
    ensures Advances(s.sched, TryLockStep(s, m, n).sched, t, s.mutexes[m].flag, IsAged(s.sched.tcb[t], n))
  {
    var b := s.sched.tcb[s.sched.current];
    if s.mutexes[m].flag { RescheduleRank(s.sched, b.(state := Blocked), n, t); }
  }

  /** The run never gives t the processor. */
  ghost predicate NotRun(s: System, steps: seq<Step>, t: Tid)
    requires Inv(s) && Feasible(s, steps)
    decreases |steps|
  {
    && QueuedIn(s.sched, t)
    && (steps != [] ==>
          && Next(s, steps[0]).sched.current != t
          && (StepKeepsInv(s, steps[0]); NotRun(Next(s, steps[0]), steps[1..], t)))
  }

  /** Some step of the run gives t the processor. */
  ghost predicate Dispatched(s: System, steps: seq<Step>, t: Tid)
    requires Inv(s) && Feasible(s, steps)
    decreases |steps|
  {
    steps != [] &&
    (Next(s, steps[0]).sched.current == t ||
     (StepKeepsInv(s, steps[0]); Dispatched(Next(s, steps[0]), steps[1..], t)))
  }

  /** A queued thread stays queued until it is dispatched. */
  lemma {:induction false} NotRunOrDispatched(s: System, steps: seq<Step>, t: Tid)
    requires Inv(s) && Feasible(s, steps) && QueuedIn(s.sched, t)
    ensures NotRun(s, steps, t) || Dispatched(s, steps, t)
    decreases |steps|
  {
    if steps != [] && Next(s, steps[0]).sched.current != t {
      StepKeepsInv(s, steps[0]);
      StepRank(s, steps[0], t);
      NotRunOrDispatched(Next(s, steps[0]), steps[1..], t);
    }
  }

  /** A thread born at `life` has the age for promotion at every clock reading of these steps. */
  predicate OldThroughout(life: int, steps: seq<Step>) {
    forall i :: 0 <= i < |steps| ==> steps[i].Unlock? || steps[i].now - life >= LIFETIME_THRESHOLD
  }

  lemma OldLater(life: int, steps: seq<Step>)
    requires OldThroughout(life, steps) && steps != []
    ensures OldThroughout(life, steps[1..])
  {
    forall i | 0 <= i < |steps| - 1
      ensures steps[1..][i].Unlock? || steps[1..][i].now - life >= LIFETIME_THRESHOLD
    {
      assert steps[1..][i] == steps[i + 1];
    }
  }

  ghost function CountPasses(s: System, steps: seq<Step>): nat
    requires Inv(s) && Feasible(s, steps)
    decreases |steps|
  {
    if steps == [] then 0
    else
      StepKeepsInv(s, steps[0]);
      (if Passes(s, steps[0]) then 1 else 0) + CountPasses(Next(s, steps[0]), steps[1..])
  }

  ghost function CountSwitches(s: System, steps: seq<Step>): nat
    requires Inv(s) && Feasible(s, steps)
    decreases |steps|
  {
    if steps == [] then 0
    else
      StepKeepsInv(s, steps[0]);
      (if Switches(s, steps[0]) then 1 else 0) + CountSwitches(Next(s, steps[0]), steps[1..])
  }

  ghost function CountCalls(s: System, steps: seq<Step>): nat
    requires Inv(s) && Feasible(s, steps)
    decreases |steps|
  {
    if steps == [] then 0
    else
      StepKeepsInv(s, steps[0]);
      (if CallsSchedule(s, steps[0]) then 1 else 0) + CountCalls(Next(s, steps[0]), steps[1..])
  }

  // ---------------------------------------------------------------- the cycle of maintenance

  lemma ScheduleCycle(s: Sched<Tid>, now: int)
    requires WellFormed(s)
    ensures Schedule(s, now).cycle == (if s.cycle + 1 >= MAINTENANCE_THRESHOLD then 0 else s.cycle + 1)
  {
    CycleCounts(s, now);
    TendKeepsWellFormed(s, now);
    var c := Counted(s, now);
    if !NoneQueued(c) && Leaves(c) {
      LeaveKeepsQueues(c);
      DispatchKeepsWellFormed(Leave(c), now);
    }
  }

  /** A step that calls schedule advances the counter by one, round to zero; no other step touches it. */
  lemma StepCycle(s: System, step: Step)
    requires Inv(s) && Allowed(s, step)
    ensures Next(s, step).sched.cycle ==
            (if !CallsSchedule(s, step) then s.sched.cycle
             else if s.sched.cycle + 1 >= MAINTENANCE_THRESHOLD then 0 else s.sched.cycle + 1)
  {
    hide Inv, Allowed, Next, WellFormed, QueuedArePlaced, Schedule, AtSchedule;
    AtScheduleOk(s, step);
    CallRuns(s, step);
    if CallsSchedule(s, step) {
      ScheduleCycle(AtSchedule(s, step), step.now);
    }
  }

  /** On every run the maintenance passes are the calls of schedule divided by twenty. */
  lemma {:induction false} PassEveryTwentyCalls(s: System, steps: seq<Step>)
    requires Inv(s) && Feasible(s, steps) && s.sched.cycle < MAINTENANCE_THRESHOLD
    ensures Run(s, steps).sched.cycle < MAINTENANCE_THRESHOLD
    ensures s.sched.cycle + CountCalls(s, steps) ==
              MAINTENANCE_THRESHOLD * CountPasses(s, steps) + Run(s, steps).sched.cycle
    decreases |steps|
  {
    if steps != [] {
      StepKeepsInv(s, steps[0]);
      StepCycle(s, steps[0]);
      PassEveryTwentyCalls(Next(s, steps[0]), steps[1..]);
    }
  }

  // ---------------------------------------------------------------- main results

  /**
   * A run that does not dispatch an old thread brings it to the top queue after more
   * maintenance passes than it had threads before it.
   */
  lemma {:induction false} LowerBound(s: System, steps: seq<Step>, t: Tid)
    requires Inv(s) && Feasible(s, steps) && NotRun(s, steps, t)
    requires OldThroughout(s.sched.tcb[t].timeLife, steps)
    ensures QueuedIn(Run(s, steps).sched, t) && NotLater(s.sched, Run(s, steps).sched, t)
    ensures IsLower(s.sched, t) && IsLower(Run(s, steps).sched, t) ==>
              CountPasses(s, steps) + Position(Run(s, steps).sched, t) <= Position(s.sched, t)
    decreases |steps|
  {
    if steps != [] {
      var r := Next(s, steps[0]);
      StepKeepsInv(s, steps[0]);
      StepRank(s, steps[0], t);
      assert OldEnough(s.sched, t, steps[0]);
      OldLater(s.sched.tcb[t].timeLife, steps);
      LowerBound(r, steps[1..], t);
      RankTransitive(s.sched, r.sched, Run(s, steps).sched, t);
    }
  }

  /** At the top, whatever its age, every change of threads that passes a thread over costs it a place. */
  lemma {:induction false} TopBound(s: System, steps: seq<Step>, t: Tid)
    requires Inv(s) && Feasible(s, steps) && NotRun(s, steps, t) && !IsLower(s.sched, t)
    ensures QueuedIn(Run(s, steps).sched, t) && !IsLower(Run(s, steps).sched, t)
    ensures CountSwitches(s, steps) + Position(Run(s, steps).sched, t) <= Position(s.sched, t)
    decreases |steps|
  {
    if steps != [] {
      StepKeepsInv(s, steps[0]);
      StepRank(s, steps[0], t);
      TopBound(Next(s, steps[0]), steps[1..], t);
    }
  }

  /** Below the top: enough calls of schedule dispatch an old thread or bring it to the top queue. */
  lemma NoStarvationBelowTop(s: System, steps: seq<Step>, t: Tid)
    requires Inv(s) && Feasible(s, steps) && QueuedIn(s.sched, t) && s.sched.cycle < MAINTENANCE_THRESHOLD
    requires OldThroughout(s.sched.tcb[t].timeLife, steps)
    requires CountCalls(s, steps) >= MAINTENANCE_THRESHOLD * (Position(s.sched, t) + 1)
    ensures Dispatched(s, steps, t) || (QueuedIn(Run(s, steps).sched, t) && !IsLower(Run(s, steps).sched, t))
  {
    NotRunOrDispatched(s, steps, t);
    if !Dispatched(s, steps, t) {
      LowerBound(s, steps, t);
      PassEveryTwentyCalls(s, steps);
    }
  }

  /** At the top: more changes of threads than threads before it include a dispatch of the thread. */
  lemma NoStarvationAtTop(s: System, steps: seq<Step>, t: Tid)
    requires Inv(s) && Feasible(s, steps) && QueuedIn(s.sched, t) && !IsLower(s.sched, t)
    requires CountSwitches(s, steps) > Position(s.sched, t)
    ensures Dispatched(s, steps, t)
  {
    NotRunOrDispatched(s, steps, t);
    if NotRun(s, steps, t) { TopBound(s, steps, t); }
  }

  lemma {:induction false} DistinctFits(q: seq<Tid>, keys: set<Tid>)
    requires Distinct(q) && forall t :: t in q ==> t in keys
    ensures |q| <= |keys|
  {
    if q != [] {
      assert q[0] in keys;
      forall t | t in q[1..] ensures t in keys - {q[0]} {
        assert t in q;
      }
      DistinctFits(q[1..], keys - {q[0]});
    }
  }

  /** There are more threads than places before any of them. */
  lemma PositionBelowCount(s: Sched<Tid>, t: Tid)
    requires QueuesOk(s) && QueuedIn(s, t)
    ensures Position(s, t) < |s.tcb|
  {
    var q := s.queues[s.tcb[t].priority];
    DistinctFits(q, s.tcb.Keys);
    assert |s.tcb.Keys| == |s.tcb|;
  }

  /**
   * No starvation: a queued thread old enough for promotion gets the processor during
   * 20 (position + 1) calls of schedule, followed by as many changes of threads as there
   * are threads.
   */
  lemma NoStarvation(s: System, calls: seq<Step>, switches: seq<Step>, t: Tid)
    requires Inv(s) && Feasible(s, calls) && Feasible(Run(s, calls), switches)
    requires QueuedIn(s.sched, t) && s.sched.cycle < MAINTENANCE_THRESHOLD
    requires OldThroughout(s.sched.tcb[t].timeLife, calls)
    requires CountCalls(s, calls) >= MAINTENANCE_THRESHOLD * (Position(s.sched, t) + 1)
    requires CountSwitches(Run(s, calls), switches) >= |Run(s, calls).sched.tcb|
    ensures Dispatched(s, calls, t) || Dispatched(Run(s, calls), switches, t)
  {
    NoStarvationBelowTop(s, calls, t);
    if !Dispatched(s, calls, t) {
      PositionBelowCount(Run(s, calls).sched, t);
      NoStarvationAtTop(Run(s, calls), switches, t);
    }
  }
}
