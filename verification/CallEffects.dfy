/**
 * What the library calls leave behind, field by field: a new thread's control block, who an
 * unlock wakes, and, over whole runs, which value a join delivers.
 */
module CallEffects {
  import opened RunQueues
  import opened SchedulerSpec
  import opened MutexSpec
  import opened ThreadSystem
  import opened ScheduleEffects

  /** A new thread is QUEUED behind the others of the top queue, with an empty account; nothing else changes. */
  lemma CreateStarts(s: System, t: Tid, now: int)
    requires Inv(s) && Allowed(s, Create(t, now))
    ensures
      var r := Next(s, Create(t, now)).sched;
      && t !in s.sched.tcb && |s.sched.queues| == 5
      && r.tcb == s.sched.tcb[t := Tcb(0, Queued, 0, 0, 0, 0, now)]
      && r.queues == s.sched.queues[0 := s.sched.queues[0] + [t]]
      && r.current == s.sched.current && r.cycle == s.sched.cycle
  {
    hide QueuedArePlaced, Linked;
  }

  /** unlock wakes the thread that has waited longest: last of the queue of its priority, and off the wait queue. */
  lemma UnlockWakesFirst(s: System, m: Mid)
    requires Inv(s) && Allowed(s, Unlock(m)) && m in s.mutexes
    ensures
      var r, q := Next(s, Unlock(m)), s.mutexes[m].waiters;
      && m in r.mutexes && !r.mutexes[m].flag && r.sched.current == s.sched.current
      && (forall k :: k in s.mutexes && k != m ==> k in r.mutexes && r.mutexes[k] == s.mutexes[k])
      && (q == [] ==> r.sched == s.sched && r.mutexes[m].waiters == [])
      && (q != [] ==>
            && q[0] in s.sched.tcb && r.mutexes[m].waiters == q[1..] && AtRear(r.sched, q[0])
            && r.sched.tcb == s.sched.tcb[q[0] := s.sched.tcb[q[0]].(state := Queued)]
            && var p := s.sched.tcb[q[0]].priority;
               0 <= p < |s.sched.queues| && r.sched.queues == s.sched.queues[p := s.sched.queues[p] + [q[0]]])
  {
    hide QueuedArePlaced, Exclusive, ThreadOk;
    CurrentFacts(s);
    assert MutexOk(s, m);
    if s.mutexes[m].waiters != [] { WokenKnown(s, m); }
  }

  lemma WokenKnown(s: System, m: Mid)
    requires Inv(s) && m in s.mutexes && s.mutexes[m].waiters != []
    ensures
      var w := s.mutexes[m].waiters[0];
      w in s.sched.tcb && 0 <= s.sched.tcb[w].priority < RUN_QUEUES && |s.sched.queues| == RUN_QUEUES
  {
    hide QueuedArePlaced, Exclusive, ThreadOk;
    assert MutexOk(s, m);
    assert s.mutexes[m].waiters[0] in s.mutexes[m].waiters;
  }

  // ---------------------------------------------------------------- exit values

  /** What t has in retval after the step, if it had v: only its own exit with a value stores one. */
  function Given(s: System, step: Step, t: Tid, v: int): int {
    if step.Exit? && s.sched.current == t && step.value != 0 then step.value else v
  }

  /** What the scheduler that schedule is handed says of t's value. */
  lemma HandedValue(s: System, step: Step, t: Tid)
    requires Inv(s) && t in s.sched.tcb
    ensures
      var e := AtSchedule(s, step);
      t in e.tcb && e.tcb[t].retval == Given(s, step, t, s.sched.tcb[t].retval)
  {
    hide Inv;
    CurrentFacts(s);
  }

  lemma QuietValue(s: System, step: Step, t: Tid)
    requires Inv(s) && Allowed(s, step) && !CallsSchedule(s, step) && t in s.sched.tcb
    ensures
      var r := Next(s, step).sched;
      t in r.tcb && r.tcb[t].retval == s.sched.tcb[t].retval
  {
    hide Inv, WellFormed, QueuedArePlaced, Schedule, NoneQueued, TryLockStep, TryJoinStep, UnlockStep, CreateStep;
    CurrentFacts(s);
    match step
    case Create(u, now) => CreateKeepsValue(s, u, now, t);
    case Lock(m, now) => LockRuns(s, m, now);
    case Join(u, now) =>
      CurrentIsActive(s);
      AtScheduleOk(s, step);
      JoinRuns(s.(sched := SetState(s.sched, s.sched.current, Joining)), u, now);
    case Unlock(m) => UnlockKeepsValue(s, m, t);
    case Resume(now) =>
      if s.mode[s.sched.current].Acquiring? {
        LockRuns(s, s.mode[s.sched.current].m, now);
      } else {
        JoinRuns(s, s.mode[s.sched.current].t, now);
      }
    case _ =>
  }

  lemma CreateKeepsValue(s: System, u: Tid, now: int, t: Tid)
    requires Inv(s) && Allowed(s, Create(u, now)) && t in s.sched.tcb
    ensures var r := Next(s, Create(u, now)).sched; t in r.tcb && r.tcb[t].retval == s.sched.tcb[t].retval
  {
    hide Inv, Allowed, Next;
    CreateStarts(s, u, now);
  }

  lemma UnlockKeepsValue(s: System, m: Mid, t: Tid)
    requires Inv(s) && Allowed(s, Unlock(m)) && t in s.sched.tcb
    ensures var r := Next(s, Unlock(m)).sched; t in r.tcb && r.tcb[t].retval == s.sched.tcb[t].retval
  {
    hide Inv, Next;
    CurrentFacts(s);
    UnlockWakesFirst(s, m);
  }

  /** Every step of every thread. */
  lemma StepGives(s: System, step: Step, t: Tid)
    requires Inv(s) && Allowed(s, step) && t in s.sched.tcb
    ensures
      var r := Next(s, step).sched;
      t in r.tcb && r.tcb[t].retval == Given(s, step, t, s.sched.tcb[t].retval)
  {
    hide Inv, Allowed, Next, Schedule, AtSchedule, WellFormed, QueuedArePlaced;
    if CallsSchedule(s, step) {
      AtScheduleOk(s, step);
      CallRuns(s, step);
      HandedValue(s, step, t);
      ScheduleEffect(AtSchedule(s, step), step.now);
    } else {
      QuietValue(s, step, t);
    }
  }

  /** An exit ends the thread, with the value it passes; 0, which is NULL, leaves what was there. */
  lemma ExitLeavesValue(s: System, v: int, now: int)
    requires Inv(s) && Allowed(s, Exit(v, now))
    ensures
      var t, r := s.sched.current, Next(s, Exit(v, now)).sched;
      && t in s.sched.tcb && t in r.tcb && r.tcb[t].state == Exited
      && r.tcb[t].retval == if v != 0 then v else s.sched.tcb[t].retval
  {
    hide Inv, WellFormed, QueuedArePlaced, Schedule, ExitStep;
    CurrentFacts(s);
    StepGives(s, Exit(v, now), s.sched.current);
    ExitEnds(s, v, now);
  }

  lemma ExitEnds(s: System, v: int, now: int)
    requires Inv(s) && Allowed(s, Exit(v, now)) && s.sched.current in s.sched.tcb
    ensures var r := Next(s, Exit(v, now)).sched; s.sched.current in r.tcb && r.tcb[s.sched.current].state == Exited
  {
    hide Inv, Next, WellFormed, QueuedArePlaced, Schedule;
    AtScheduleOk(s, Exit(v, now));
    CallRuns(s, Exit(v, now));
    ScheduleFreezes(AtSchedule(s, Exit(v, now)), now, s.sched.current);
  }

  /** t's value after a run. */
  ghost function ValueAfter(s: System, steps: seq<Step>, t: Tid, v: int): int
    requires Inv(s) && Feasible(s, steps)
    decreases |steps|
  {
    if steps == [] then v
    else
      StepKeepsInv(s, steps[0]);
      ValueAfter(Next(s, steps[0]), steps[1..], t, Given(s, steps[0], t, v))
  }

  /** Over any run a thread's value is the one of its own exit, or what it was at the start. */
  lemma {:induction false} RunGives(s: System, steps: seq<Step>, t: Tid)
    requires Inv(s) && Feasible(s, steps) && t in s.sched.tcb
    ensures t in Run(s, steps).sched.tcb
    ensures Run(s, steps).sched.tcb[t].retval == ValueAfter(s, steps, t, s.sched.tcb[t].retval)
    decreases |steps|
  {
    hide Inv, Allowed, Next;
    if steps != [] {
      StepKeepsInv(s, steps[0]);
      StepGives(s, steps[0], t);
      RunGives(Next(s, steps[0]), steps[1..], t);
    }
  }

  /** From its exit on, over any run, a thread is EXITED and has the value it passed. */
  lemma ExitValueStays(s: System, v: int, now: int, steps: seq<Step>)
    requires Inv(s) && Allowed(s, Exit(v, now))
    requires (StepKeepsInv(s, Exit(v, now)); Feasible(Next(s, Exit(v, now)), steps))
    ensures Inv(Next(s, Exit(v, now))) && s.sched.current in s.sched.tcb
    ensures
      var t, r := s.sched.current, Run(Next(s, Exit(v, now)), steps).sched;
      && t in r.tcb && r.tcb[t].state == Exited
      && r.tcb[t].retval == if v != 0 then v else s.sched.tcb[t].retval
  {
    hide Inv, Allowed, Next;
    StepKeepsInv(s, Exit(v, now));
    ExitLeavesValue(s, v, now);
    ExitValueSurvives(Next(s, Exit(v, now)), steps, s.sched.current);
  }

  /** The step is a test by the current thread whether t has exited: a join, or its next round. */
  ghost predicate JoinsOn(s: System, step: Step, t: Tid) {
    || (step.Join? && step.t == t)
    || (step.Resume? && s.sched.current in s.mode && s.mode[s.sched.current] == JoiningOn(t))
  }

  /** join returns from the step, and with this value. */
  ghost predicate Returns(s: System, step: Step, t: Tid, v: int)
    requires Inv(s) && Allowed(s, step)
  {
    && JoinsOn(s, step, t) && t in s.sched.tcb && v == s.sched.tcb[t].retval
    && s.sched.current in Next(s, step).mode && Next(s, step).mode[s.sched.current] == User
  }

  lemma JoinReturns(s: System, step: Step, t: Tid)
    requires Inv(s) && Allowed(s, step) && JoinsOn(s, step, t)
    ensures t in s.sched.tcb
    ensures Returns(s, step, t, s.sched.tcb[t].retval) <==> StateOf(s, t) == Exited
  {
    hide Inv, WellFormed, QueuedArePlaced, Schedule;
    CurrentFacts(s);
    if step.Resume? {
      ResumedJoinIsLocal(s, t, step.now);
    } else {
      CurrentIsActive(s);
      JoinReturnsIffExited(s, t, step.now);
    }
  }

  /** However late a thread joins one that has exited with a value: the join returns, with that value. */
  lemma JoinDeliversExitValue(s: System, v: int, now: int, steps: seq<Step>, join: Step)
    requires Inv(s) && Allowed(s, Exit(v, now))
    requires (StepKeepsInv(s, Exit(v, now)); Feasible(Next(s, Exit(v, now)), steps))
    requires
      (StepKeepsInv(s, Exit(v, now));
       var r := Run(Next(s, Exit(v, now)), steps);
       Allowed(r, join) && JoinsOn(r, join, s.sched.current))
    ensures Inv(Next(s, Exit(v, now))) && s.sched.current in s.sched.tcb
    ensures
      var r := Run(Next(s, Exit(v, now)), steps);
      Returns(r, join, s.sched.current, if v != 0 then v else s.sched.tcb[s.sched.current].retval)
  {
    hide Inv, Allowed, Next, JoinsOn, Returns, Feasible, Run;
    StepKeepsInv(s, Exit(v, now));
    ExitValueStays(s, v, now, steps);
    JoinReturns(Run(Next(s, Exit(v, now)), steps), join, s.sched.current);
  }

  /** t exits with v somewhere in the run. */
  ghost predicate ExitsWith(s: System, steps: seq<Step>, t: Tid, v: int)
    requires Inv(s) && Feasible(s, steps)
    decreases |steps|
  {
    steps != [] &&
    ((s.sched.current == t && steps[0].Exit? && steps[0].value == v) ||
     (StepKeepsInv(s, steps[0]); ExitsWith(Next(s, steps[0]), steps[1..], t, v)))
  }

  lemma ExitsLater(s: System, steps: seq<Step>, t: Tid, v: int)
    requires Inv(s) && Feasible(s, steps) && steps != []
    requires (StepKeepsInv(s, steps[0]); ExitsWith(Next(s, steps[0]), steps[1..], t, v))
    ensures ExitsWith(s, steps, t, v)
  {
    hide Inv, Allowed, Next;
  }

  /** Nothing but its own exit ends a thread. */
  lemma OnlyExitEnds(s: System, step: Step, t: Tid)
    requires Inv(s) && Allowed(s, step) && t in s.sched.tcb && StateOf(s, t) != Exited
    requires !(step.Exit? && s.sched.current == t)
    ensures t in Next(s, step).sched.tcb && StateOf(Next(s, step), t) != Exited
  {
    hide Inv, Allowed, Next, Schedule, WellFormed, QueuedArePlaced, AtSchedule;
    if CallsSchedule(s, step) {
      AtScheduleOk(s, step);
      CallRuns(s, step);
      HandedAlive(s, step, t);
      ScheduleEnds(AtSchedule(s, step), step.now, t);
    } else {
      QuietAlive(s, step, t);
    }
  }

  lemma HandedAlive(s: System, step: Step, t: Tid)
    requires Inv(s) && t in s.sched.tcb && StateOf(s, t) != Exited && !(step.Exit? && s.sched.current == t)
    ensures var e := AtSchedule(s, step); t in e.tcb && e.tcb[t].state != Exited
  {
    hide Inv;
    CurrentFacts(s);
  }

  lemma ScheduleEnds(e: Sched<Tid>, now: int, t: Tid)
    requires WellFormed(e) && QueuedArePlaced(e) && t in e.tcb && e.tcb[t].state != Exited
    ensures t in Schedule(e, now).tcb && Schedule(e, now).tcb[t].state != Exited
  {
    hide WellFormed, QueuedArePlaced, Schedule;
    ScheduleEffect(e, now);
  }

  lemma QuietAlive(s: System, step: Step, t: Tid)
    requires Inv(s) && Allowed(s, step) && !CallsSchedule(s, step) && t in s.sched.tcb && StateOf(s, t) != Exited
    ensures t in Next(s, step).sched.tcb && StateOf(Next(s, step), t) != Exited
  {
    hide Inv, WellFormed, QueuedArePlaced, Schedule, NoneQueued, TryLockStep, TryJoinStep, UnlockStep, CreateStep;
    CurrentFacts(s);
    match step
    case Create(u, now) => CreateKeepsAlive(s, u, now, t);
    case Lock(m, now) => LockRuns(s, m, now);
    case Join(u, now) =>
      CurrentIsActive(s);
      AtScheduleOk(s, step);
      JoinRuns(s.(sched := SetState(s.sched, s.sched.current, Joining)), u, now);
    case Unlock(m) => UnlockKeepsAlive(s, m, t);
    case Resume(now) =>
      if s.mode[s.sched.current].Acquiring? {
        LockRuns(s, s.mode[s.sched.current].m, now);
      } else {
        JoinRuns(s, s.mode[s.sched.current].t, now);
      }
    case _ =>
  }

  lemma CreateKeepsAlive(s: System, u: Tid, now: int, t: Tid)
    requires Inv(s) && Allowed(s, Create(u, now)) && t in s.sched.tcb && StateOf(s, t) != Exited
    ensures var r := Next(s, Create(u, now)); t in r.sched.tcb && StateOf(r, t) != Exited
  {
    hide Inv, Allowed, Next;
    CreateStarts(s, u, now);
  }

  lemma UnlockKeepsAlive(s: System, m: Mid, t: Tid)
    requires Inv(s) && Allowed(s, Unlock(m)) && t in s.sched.tcb && StateOf(s, t) != Exited
    ensures var r := Next(s, Unlock(m)); t in r.sched.tcb && StateOf(r, t) != Exited
  {
    hide Inv, Next;
    CurrentFacts(s);
    UnlockWakesFirst(s, m);
  }

  lemma RunUnfolds(s: System, steps: seq<Step>)
    requires Inv(s) && Feasible(s, steps) && steps != []
    ensures Allowed(s, steps[0]) && Inv(Next(s, steps[0])) && Feasible(Next(s, steps[0]), steps[1..])
    ensures Run(s, steps) == Run(Next(s, steps[0]), steps[1..])
  {
    hide Inv, Allowed, Next;
    StepKeepsInv(s, steps[0]);
  }

  /**
   * The other way round: a thread that has exited by the end of a run did so with a value that it
   * passed to exit, and this is the value it has, or for NULL what it had before.
   */
  lemma {:induction false} ValueWasPassed(s: System, steps: seq<Step>, t: Tid) returns (v: int)
    requires Inv(s) && Feasible(s, steps) && t in s.sched.tcb && StateOf(s, t) != Exited
    requires t in Run(s, steps).sched.tcb && StateOf(Run(s, steps), t) == Exited
    ensures ExitsWith(s, steps, t, v)
    ensures Run(s, steps).sched.tcb[t].retval == if v != 0 then v else s.sched.tcb[t].retval
    decreases |steps|
  {
    hide Inv, Allowed, Next, Feasible;
    if steps == [] {
      v := 0;
    } else {
      RunUnfolds(s, steps);
      var r := Next(s, steps[0]);
      if s.sched.current == t && steps[0].Exit? {
        v := steps[0].value;
        ExitValueStays(s, v, steps[0].now, steps[1..]);
      } else {
        StepGives(s, steps[0], t);
        OnlyExitEnds(s, steps[0], t);
        v := ValueWasPassed(r, steps[1..], t);
        ExitsLater(s, steps, t, v);
      }
    }
  }
}
