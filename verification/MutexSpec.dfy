/** The test-and-set mutex of my_pthread.c and the other library calls, as functions on values. */
module MutexSpec {
  import opened SchedulerSpec

  datatype MutexState<T> = MutexState(flag: bool, waiters: seq<T>)

  /** One round of lock's loop: take the flag, or join the wait queue and call schedule. */
  ghost function TryLock<T>(s: Sched<T>, m: MutexState<T>, now: int): (Sched<T>, MutexState<T>, bool)
    requires WellFormed(s)
  {
    if !m.flag then (s, m.(flag := true), true)
    else (Schedule(SetState(s, s.current, Blocked), now), m.(waiters := m.waiters + [s.current]), false)
  }

  /** unlock: the thread that waited longest goes to its run queue, and the flag is cleared. */
  ghost function Unlock<T>(s: Sched<T>, m: MutexState<T>): (Sched<T>, MutexState<T>)
    requires |s.queues| == RUN_QUEUES
    requires m.waiters != [] ==>
      m.waiters[0] in s.tcb && 0 <= s.tcb[m.waiters[0]].priority < RUN_QUEUES
  {
    if m.waiters == [] then (s, m.(flag := false))
    else
      var w := m.waiters[0];
      (Append(SetState(s, w, Queued), w), MutexState(false, m.waiters[1..]))
  }

  /** destroy: refused for a mutex whose flag is set. */
  function Destroy<T>(m: MutexState<T>): int {
    if m.flag then -1 else 0
  }

  ghost function Create<T>(s: Sched<T>, t: T, now: int): Sched<T>
    requires |s.queues| == RUN_QUEUES
  {
    Append(SetTcb(s, t, Tcb(0, Queued, 0, 0, 0, 0, now)), t)
  }

  ghost function Yield<T>(s: Sched<T>, now: int): Sched<T>
    requires WellFormed(s)
  {
    Schedule(SetState(s, s.current, Yielded), now)
  }

  /** A zero value is C's NULL: exit keeps the old retval then. */
  function Leaving<T(==)>(s: Sched<T>, value: int): Sched<T>
    requires s.current in s.tcb
  {
    var b := s.tcb[s.current];
    SetTcb(s, s.current, b.(state := Exited, retval := if value != 0 then value else b.retval))
  }

  ghost function Exit<T>(s: Sched<T>, value: int, now: int): Sched<T>
    requires WellFormed(s)
  {
    Schedule(Leaving(s, value), now)
  }

  /** One round of join's loop: go on if the thread has exited, else call schedule. */
  ghost function TryJoin<T>(s: Sched<T>, t: T, now: int): (Sched<T>, bool)
    requires WellFormed(s) && t in s.tcb
  {
    if s.tcb[t].state == Exited then (SetState(s, s.current, Running), true)
    else (Schedule(s, now), false)
  }

  /** A thread that finds the mutex taken gives up the processor exactly when another thread is queued. */
  lemma BlockedLeavesIff<T>(s: Sched<T>, m: MutexState<T>, now: int)
    requires WellFormed(s) && QueuedArePlaced(s) && m.flag
    ensures var (r, m', taken) := TryLock(s, m, now);
            !taken && (r.current == s.current <==> NoneQueued(s))
  {
    var b := SetState(s, s.current, Blocked);
    SetStateKeepsPlaces(s, s.current, Blocked);
    SwapsIff(b, now);
    ScheduleEffect(b, now);
  }

  /** No call to schedule wakes a thread that waits on a mutex. */
  lemma ScheduleKeepsBlocked<T>(s: Sched<T>, now: int, t: T)
    requires WellFormed(s) && t in s.tcb && s.tcb[t].state == Blocked
    ensures Schedule(s, now).tcb[t].state == Blocked
  {
    TendKeepsWellFormed(s, now);
    var c := Counted(s, now);
    assert c.tcb[t].state == Blocked;
    if !NoneQueued(c) && Leaves(c) {
      LeaveKeepsQueues(c);
      DispatchKeepsBlocked(Leave(c), now, t);
    }
  }

  lemma DispatchKeepsBlocked<T>(s: Sched<T>, now: int, t: T)
    requires QueuesOk(s) && !NoneQueued(s) && t in s.tcb && s.tcb[t].state == Blocked
    ensures
      var i := FirstQueue(s.queues);
      i < |s.queues| && s.queues[i][0] in s.tcb && Dispatch(s, now).tcb[t].state == Blocked
  {
    DispatchKeepsWellFormed(s, now);
  }

  lemma SetStateKeepsPlaces<T>(s: Sched<T>, t: T, state: ThreadState)
    requires WellFormed(s) && QueuedArePlaced(s) && t in s.tcb
    requires s.tcb[t].state != Queued && state != Queued
    ensures WellFormed(SetState(s, t, state)) && QueuedArePlaced(SetState(s, t, state))
    ensures NoneQueued(SetState(s, t, state)) <==> NoneQueued(s)
  {
    var r := SetState(s, t, state);
    forall u | u in r.tcb && r.tcb[u].state == Queued ensures InQueue(r, r.tcb[u].priority, u) {
      assert InQueue(s, s.tcb[u].priority, u);
    }
  }

  /** With nobody else queued, a yielding thread goes on running in state YIELD. */
  lemma LonelyYieldKeepsState<T>(s: Sched<T>, now: int)
    requires WellFormed(s) && QueuedArePlaced(s)
    ensures NoneQueued(s) <==> Yield(s, now).tcb[s.current].state == Yielded
  {
    var b := SetState(s, s.current, Yielded);
    SetStateKeepsPlaces(s, s.current, Yielded);
    SwapsIff(b, now);
    ScheduleEffect(b, now);
  }

  /**
   * A thread of the top queue yields while the only other thread is one level below:
   * schedule dispatches the thread that yielded.
   */
  lemma YieldCanComeBack<T>(a: T, b: T, now: int)
    requires a != b
    ensures
      var top, low := Tcb(0, Running, 0, 0, now, now, now), Tcb(1, Queued, 0, 0, now, now, now);
      var s := Sched([[], [b], [], [], []], a, map[a := top, b := low], 0);
      && WellFormed(s) && QueuedArePlaced(s)
      && Swaps(SetState(s, a, Yielded), now) && Yield(s, now).current == a
  {
    hide WellFormed, QueuedArePlaced, Tend, Schedule, Swaps, NoneQueued;
    var top, low := Tcb(0, Running, 0, 0, now, now, now), Tcb(1, Queued, 0, 0, now, now, now);
    var s := Sched([[], [b], [], [], []], a, map[a := top, b := low], 0);
    LowerWaits(s, a, b, top, low);
    SetStateKeepsPlaces(s, a, Yielded);
    var y := SetState(s, a, Yielded);
    NotAllEmpty(y);
    SwapsIff(y, now);
    RedispatchedIff(y, now);
    EarlyTend(y, now);
  }

  lemma LowerWaits<T>(s: Sched<T>, a: T, b: T, top: Tcb, low: Tcb)
    requires a != b && s == Sched([[], [b], [], [], []], a, map[a := top, b := low], 0)
    requires top.state == Running && top.priority == 0 && low.state == Queued && low.priority == 1
    ensures WellFormed(s) && QueuedArePlaced(s)
  {
    assert b in s.queues[1];
  }

  lemma NotAllEmpty<T>(s: Sched<T>)
    requires |s.queues| == RUN_QUEUES && s.queues[1] != []
    ensures !NoneQueued(s)
  {
  }

  lemma EarlyTend<T>(s: Sched<T>, now: int)
    requires |s.queues| == RUN_QUEUES && s.cycle + 1 < MAINTENANCE_THRESHOLD
    ensures Tend(s, now).queues == s.queues
  {
  }

  lemma TryLockKeepsPlaces<T>(s: Sched<T>, m: MutexState<T>, now: int)
    requires WellFormed(s) && QueuedArePlaced(s)
    ensures WellFormed(TryLock(s, m, now).0) && QueuedArePlaced(TryLock(s, m, now).0)
  {
    SetStateKeepsPlaces(s, s.current, Blocked);
    ScheduleEffect(SetState(s, s.current, Blocked), now);
  }

  /**
   * Without the rule that a holder does not lock again, the same thread can be put on
   * the wait queue twice: with nobody queued it finds the flag taken, is not swapped
   * out, and tries again.
   */
  lemma RelockWaitsTwice<T>(s: Sched<T>, m: MutexState<T>, now: int, later: int)
    requires WellFormed(s) && QueuedArePlaced(s) && NoneQueued(s) && m.flag
    ensures var (s1, m1, _) := TryLock(s, m, now);
            WellFormed(s1) && TryLock(s1, m1, later).1.waiters == m.waiters + [s.current, s.current]
  {
    BlockedLeavesIff(s, m, now);
    TryLockKeepsPlaces(s, m, now);
  }
}
