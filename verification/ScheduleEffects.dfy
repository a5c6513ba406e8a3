/**
 * One call of schedule, field by field: where the thread that leaves goes, what its slice has
 * cost it, when the next one starts, and that nobody else is touched but by maintenance.
 */
module ScheduleEffects {
  import opened RunQueues
  import opened SchedulerSpec

  /** t is the last of the queue of its priority. */
  predicate AtRear<T(==)>(s: Sched<T>, t: T) {
    && t in s.tcb && 0 <= s.tcb[t].priority < |s.queues|
    && var q := s.queues[s.tcb[t].priority];
       q != [] && q[|q| - 1] == t
  }

  /** The thread can run and is to be queued again when it leaves the processor. */
  predicate GoesBack(b: Tcb) {
    b.state == Running || b.state == Yielded || b.state == Joining
  }

  /** Leaving, on the scheduler whose accounting is done. */
  lemma LeaverAtRear<T>(c: Sched<T>)
    requires WellFormed(c) && Leaves(c)
    ensures
      var b, l := c.tcb[c.current], Leave(c);
      && (GoesBack(b) ==>
            var p := if b.state != Running then b.priority else if b.priority < 4 then b.priority + 1 else 4;
            l.tcb[c.current] == b.(priority := p, state := Queued, timeRun := 0) && AtRear(l, c.current))
      && (!GoesBack(b) ==> l == c)
      && l.tcb.Keys == c.tcb.Keys && l.current == c.current && |l.queues| == RUN_QUEUES
  {
  }

  /** The dispatch takes one thread from the front of its queue, and leaves the rears alone. */
  lemma DispatchLeavesRear<T>(l: Sched<T>, now: int, t: T)
    requires QueuesOk(l) && !NoneQueued(l) && t in l.tcb
    ensures var i := FirstQueue(l.queues); i < |l.queues| && l.queues[i][0] in l.tcb
    ensures
      var r := Dispatch(l, now);
      && r.current in r.tcb && r.tcb[r.current].state == Running && r.tcb[r.current].timeStart == now
      && (r.current != t ==> t in r.tcb && r.tcb[t] == l.tcb[t] && (AtRear(l, t) ==> AtRear(r, t)))
      && (r.current == t ==> r.tcb[t] == l.tcb[t].(state := Running, timeStart := now))
  {
    DispatchKeepsWellFormed(l, now);
    var i := FirstQueue(l.queues);
    var q := l.queues[i];
    if AtRear(l, t) && q[0] != t && l.tcb[t].priority == i {
      assert q[1..][|q| - 2] == t;
    }
  }

  /**
   * A swap. A thread that has used up its slice goes one queue down, but not below the last; one
   * that yields or joins goes back to its own. Either starts with a fresh account, and behind
   * all others of the queue unless it is the one dispatched. Who blocks or exits is charged and
   * queued nowhere. Whoever is dispatched starts a slice now.
   */
  lemma SwapRequeues<T>(s: Sched<T>, now: int)
    requires WellFormed(s) && Swaps(s, now)
    ensures
      var b, r, t := s.tcb[s.current], Schedule(s, now), s.current;
      var p := if b.state != Running then b.priority else if b.priority < 4 then b.priority + 1 else 4;
      && t in r.tcb && r.current in r.tcb
      && r.tcb[r.current].state == Running && r.tcb[r.current].timeStart == now
      && (GoesBack(b) ==> r.tcb[t].priority == p && r.tcb[t].timeRun == 0 && r.tcb[t].timeEnd == now)
      && (GoesBack(b) && r.current != t ==> r.tcb[t].state == Queued && AtRear(r, t))
      && (!GoesBack(b) ==>
            && r.current != t && r.tcb[t] == b.(timeEnd := now, timeRun := b.timeRun + now - b.timeStart)
            && forall i :: !InQueue(r, i, t))
  {
    hide WellFormed, QueuesOk, Swaps, Leaves, Leave, Dispatch, Schedule, NoneQueued, Counted, FirstQueue, AtRear,
      InQueue;
    CountedCurrent(s, now);
    SwapUnfolds(s, now);
    var c := Counted(s, now);
    WellFormedPriority(c);
    LeaverAtRear(c);
    DispatchLeavesRear(Leave(c), now, s.current);
    if !GoesBack(c.tcb[c.current]) {
      LeaverIsNowhere(c, now);
    }
  }

  lemma LeaverIsNowhere<T>(c: Sched<T>, now: int)
    requires WellFormed(c) && !NoneQueued(c) && !GoesBack(c.tcb[c.current])
    requires var i := FirstQueue(c.queues); i < |c.queues| ==> c.queues[i][0] in c.tcb
    ensures var r := Dispatch(c, now); r.current != c.current && forall i :: !InQueue(r, i, c.current)
  {
    DispatchKeepsWellFormed(c, now);
  }

  /** No swap: the thread goes on, charged, in a new slice unless it has exited as the last one. */
  lemma StayerGoesOn<T>(s: Sched<T>, now: int)
    requires WellFormed(s) && !Swaps(s, now)
    ensures
      var b, r := s.tcb[s.current], Schedule(s, now);
      && r.current == s.current && r.current in r.tcb
      && r.tcb[r.current] ==
         b.(timeEnd := now, timeRun := b.timeRun + now - b.timeStart,
            timeStart := if b.state == Exited then b.timeStart else now)
  {
    CountedCurrent(s, now);
    var c := Counted(s, now);
    assert !NoneQueued(c) ==> !Leaves(c);
  }

  // ---------------------------------------------------------------- everybody else

  /** Untouched, or moved to the top queue because born a second ago or more. */
  predicate AgedOnly(was: Tcb, after: Tcb, now: int) {
    after == was || (now - was.timeLife >= 1000000 && after == was.(priority := 0))
  }

  lemma {:induction false} MaintainTouchesAged<T>(s: Sched<T>, i: nat, now: int, t: T)
    requires QueuesOk(s) && 0 < i <= RUN_QUEUES && t in s.tcb
    ensures var r := MaintainFrom(s, i, now); t in r.tcb && AgedOnly(s.tcb[t], r.tcb[t], now)
    decreases RUN_QUEUES - i
  {
    if i < RUN_QUEUES {
      MaintainQueueKeepsQueues(s, i, now);
      PassMembers(s.queues[i], Aged(s, now), t);
      MaintainTouchesAged(MaintainQueue(s, i, now), i + 1, now, t);
    }
  }

  lemma TendTouchesAged<T>(s: Sched<T>, now: int, t: T)
    requires WellFormed(s) && t in s.tcb
    ensures
      var r := Tend(s, now);
      && t in r.tcb && AgedOnly(s.tcb[t], r.tcb[t], now)
      && (s.cycle < 19 ==> r.tcb == s.tcb && r.queues == s.queues)
  {
    if s.cycle + 1 >= MAINTENANCE_THRESHOLD {
      MaintainTouchesAged(s.(cycle := 0), 1, now, t);
    }
  }

  /**
   * A thread that neither leaves nor is dispatched keeps its control block, but for a promotion
   * to the top queue, which only every twentieth call makes and only for a thread born a
   * second ago. The one dispatched runs, and starts its slice.
   */
  lemma OthersKeepTcb<T>(s: Sched<T>, now: int, t: T)
    requires WellFormed(s) && t in s.tcb && t != s.current
    ensures
      var r := Schedule(s, now);
      && t in r.tcb
      && var after := if r.current == t then r.tcb[t].(state := s.tcb[t].state, timeStart := s.tcb[t].timeStart)
                   else r.tcb[t];
         AgedOnly(s.tcb[t], after, now) && (s.cycle < 19 ==> after == s.tcb[t])
  {
    hide WellFormed, QueuesOk, Leave, NoneQueued, FirstQueue, AgedOnly;
    TendTouchesAged(s, now, t);
    TendKeepsWellFormed(s, now);
    var c := Counted(s, now);
    CountedCurrent(s, now);
    if Swaps(s, now) {
      SwapUnfolds(s, now);
      WellFormedPriority(c);
      LeaveKeepsOthers(c, t);
      DispatchLeavesRear(Leave(c), now, t);
    }
  }

  lemma LeaveKeepsOthers<T>(c: Sched<T>, t: T)
    requires WellFormed(c) && Leaves(c) && t in c.tcb && t != c.current
    ensures t in Leave(c).tcb && Leave(c).tcb[t] == c.tcb[t]
  {
  }

  /** The queues after a swap without a maintenance pass: one thread more at a rear, one less at a front. */
  lemma SwapQueues<T>(s: Sched<T>, now: int, i: nat)
    requires WellFormed(s) && Swaps(s, now) && s.cycle < 19
    ensures
      var b, r, t := s.tcb[s.current], Schedule(s, now), s.current;
      var p := if b.state != Running then b.priority else if b.priority < 4 then b.priority + 1 else 4;
      && 0 <= p < |s.queues|
      && var q := if GoesBack(b) then s.queues[p := s.queues[p] + [t]] else s.queues;
         i < |q| && q[i] != [] && (forall j :: 0 <= j < i ==> q[j] == []) ==>
           r.queues == q[i := q[i][1..]] && r.current == q[i][0]
  {
    hide WellFormed, QueuesOk, Swaps, NoneQueued, Schedule, Tend;
    CountedCurrent(s, now);
    SwapUnfolds(s, now);
    TendTouchesAged(s, now, s.current);
    WellFormedPriority(s);
    var c := Counted(s, now);
    CountedQueues(s, now);
  }
}
