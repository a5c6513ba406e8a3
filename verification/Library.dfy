/**
 * The library calls of my_pthread.c on the heap: create, yield, exit, join, the timer
 * handler, and the mutex with its linked wait queue. The run queues and the wait queues
 * link threads through the same `next` field; the frames of these methods say that a
 * call never touches the link of a thread waiting on another mutex.
 *
 * A call that swaps threads returns the thread swapped out. When that thread is
 * dispatched again, its call goes on with another round of its loop.
 */
module Library {
  import opened SchedulerSpec
  import opened MutexSpec
  import opened ThreadQueue
  import opened Scheduler

  /** What a call returns that reached schedule with this scheduler: the thread swapped out, if there is one. */
  ghost predicate SwappedOut(s: Sched<Thread>, now: int, previous: Thread?) {
    WellFormed(s) && previous == if Swaps(s, now) then s.current else null
  }

  /** my_pthread_create, after the first call. */
  method CreateThread(s: Scheduler, now: int) returns (thread: Thread)
    requires s.Valid()
    modifies s`model, s.runQueues, s.QueuedThreads()`next
    ensures s.Valid() && fresh(thread) && s.model == Create(old(s.model), thread, now)
  {
    thread := new Thread(now);
    s.Admit(thread);
  }

  method YieldThread(s: Scheduler, now: int) returns (previous: Thread?)
    requires s.Valid()
    modifies s, s.runQueues, s.QueuedThreads()`next, s.currentThread`next, s.model.tcb.Keys`priority,
      s.model.tcb.Keys`state, s.model.tcb.Keys`timeRun, s.model.tcb.Keys`timeStart, s.model.tcb.Keys`timeEnd
    ensures s.Valid() && s.model == Yield(old(s.model), now)
    ensures SwappedOut(SchedulerSpec.SetState(old(s.model), old(s.currentThread), Yielded), now, previous)
  {
    s.SetCurrentState(Yielded);
    previous := s.Schedule(now);
  }

  method ExitThread(s: Scheduler, value: int, now: int) returns (previous: Thread?)
    requires s.Valid()
    modifies s, s.runQueues, s.QueuedThreads()`next, s.currentThread`next, s.model.tcb.Keys`priority,
      s.model.tcb.Keys`state, s.model.tcb.Keys`timeRun, s.model.tcb.Keys`timeStart, s.model.tcb.Keys`timeEnd,
      s.currentThread`retval
    ensures s.Valid() && s.model == Exit(old(s.model), value, now)
    ensures SwappedOut(Leaving(old(s.model), value), now, previous)
  {
    s.Retire(value);
    previous := s.Schedule(now);
  }

  /** One round of join's loop, and what follows the loop. */
  method JoinRound(s: Scheduler, thread: Thread, now: int) returns (joined: bool, value: int, previous: Thread?)
    requires s.Valid() && thread in s.model.tcb
    modifies s, s.runQueues, s.QueuedThreads()`next, s.currentThread`next, s.model.tcb.Keys`priority,
      s.model.tcb.Keys`state, s.model.tcb.Keys`timeRun, s.model.tcb.Keys`timeStart, s.model.tcb.Keys`timeEnd
    ensures s.Valid() && (s.model, joined) == TryJoin(old(s.model), thread, now)
    ensures joined ==> value == old(s.model).tcb[thread].retval && previous == null
    ensures !joined ==> SwappedOut(old(s.model), now, previous)
  {
    if thread.state != Exited {
      previous := s.Schedule(now);
      return false, 0, previous;
    }
    value := thread.retval;
    s.SetCurrentState(Running);
    return true, value, null;
  }

  method JoinThread(s: Scheduler, thread: Thread, now: int) returns (joined: bool, value: int, previous: Thread?)
    requires s.Valid() && thread in s.model.tcb
    modifies s, s.runQueues, s.QueuedThreads()`next, s.currentThread`next, s.model.tcb.Keys`priority,
      s.model.tcb.Keys`state, s.model.tcb.Keys`timeRun, s.model.tcb.Keys`timeStart, s.model.tcb.Keys`timeEnd
    ensures s.Valid()
    ensures
      var m := SchedulerSpec.SetState(old(s.model), old(s.currentThread), Joining);
      && WellFormed(m) && (s.model, joined) == TryJoin(m, thread, now)
      && (if joined then previous == null else SwappedOut(m, now, previous))
    ensures joined ==> thread in old(s.model).tcb && value == old(s.model).tcb[thread].retval
  {
    s.SetCurrentState(Joining);
    joined, value, previous := JoinRound(s, thread, now);
  }

  method TimerHandler(s: Scheduler, now: int) returns (previous: Thread?)
    requires s.Valid()
    modifies s, s.runQueues, s.QueuedThreads()`next, s.currentThread`next, s.model.tcb.Keys`priority,
      s.model.tcb.Keys`state, s.model.tcb.Keys`timeRun, s.model.tcb.Keys`timeStart, s.model.tcb.Keys`timeEnd
    ensures s.Valid()
    ensures s.model == if old(s.inScheduler) then old(s.model) else SchedulerSpec.Schedule(old(s.model), now)
    ensures if old(s.inScheduler) then previous == null else SwappedOut(old(s.model), now, previous)
  {
    if s.inScheduler {
      return null;
    }
    previous := s.Schedule(now);
  }

  class Mutex {
    var flag: bool
    const waitQueue: Queue

    ghost function Model(): MutexState<Thread>
      reads this, waitQueue
    {
      MutexState(flag, waitQueue.items)
    }

    /** The wait queue is well linked, and holds BLOCKED threads only. */
    ghost predicate Waits(s: Scheduler)
      reads this, waitQueue, s, s.model.tcb.Keys, (set u | u in waitQueue.items)`next
    {
      && waitQueue.Valid() && waitQueue !in s.runQueues
      && forall t :: t in waitQueue.items ==> t in s.model.tcb && t.state == Blocked
    }

    /** my_pthread_mutex_init. */
    constructor ()
      ensures fresh(waitQueue) && waitQueue.Valid() && Model() == MutexState(false, [])
    {
      flag := false;
      waitQueue := new Queue();
    }

    /** Who waits is in no run queue. */
    lemma WaitersApart(s: Scheduler)
      requires s.Valid() && Waits(s)
      ensures |s.model.queues| == RUN_QUEUES
      ensures forall i, t :: 0 <= i < RUN_QUEUES && t in s.model.queues[i] ==> t !in waitQueue.items
    {
    }

    lemma FirstAppearsOnce()
      requires waitQueue.Valid() && waitQueue.items != []
      ensures waitQueue.items[0] !in waitQueue.items[1..]
    {
    }

    /** The body of lock's loop before its call to schedule. */
    method Block(s: Scheduler)
      requires s.Valid() && Waits(s) && s.currentThread !in waitQueue.items
      modifies s`model, s.currentThread`state, waitQueue, (set u | u in waitQueue.items)`next
      ensures s.Valid() && Waits(s) && waitQueue.items == old(waitQueue.items) + [s.currentThread]
      ensures s.model == SchedulerSpec.SetState(old(s.model), s.currentThread, Blocked)
    {
      hide WellFormed, Scheduler.QueueMirrors;
      WaitersApart(s);
      s.SetCurrentState(Blocked);
      label marked:
      waitQueue.Enqueue(s.currentThread);
      s.LinkedElsewhere@marked(set t | t in old(waitQueue.items));
    }

    /** Nothing but the threads' links and states matters to the wait queue. */
    twostate lemma StillWaits(s: Scheduler)
      requires old(Waits(s)) && unchanged(this) && unchanged(waitQueue)
      requires forall t :: t in waitQueue.items ==> t.next == old(t.next) && t in s.model.tcb && t.state == Blocked
      ensures Waits(s)
    {
    }

    /** The call to schedule in lock's loop leaves those who wait on the mutex alone. */
    method Reschedule(s: Scheduler, now: int) returns (previous: Thread?)
      requires s.Valid() && Waits(s)
      modifies s, s.runQueues, s.QueuedThreads()`next, s.currentThread`next, s.model.tcb.Keys`priority,
        s.model.tcb.Keys`state, s.model.tcb.Keys`timeRun, s.model.tcb.Keys`timeStart, s.model.tcb.Keys`timeEnd
      ensures s.Valid() && Waits(s) && s.model == Schedule(old(s.model), now)
      ensures SwappedOut(old(s.model), now, previous)
    {
      hide QueuesOk, Schedule;
      forall t | t in waitQueue.items ensures t in s.model.tcb && Schedule(s.model, now).tcb[t].state == Blocked {
        ScheduleKeepsBlocked(s.model, now, t);
      }
      previous := s.Schedule(now);
      StillWaits(s);
    }

    /** The body of lock's loop: the current thread waits, and another one goes on. */
    method Wait(s: Scheduler, now: int) returns (previous: Thread?)
      requires s.Valid() && Waits(s) && s.currentThread !in waitQueue.items
      modifies waitQueue, (set u | u in waitQueue.items)`next,
        s, s.runQueues, s.QueuedThreads()`next, s.currentThread`next, s.model.tcb.Keys`priority,
        s.model.tcb.Keys`state, s.model.tcb.Keys`timeRun, s.model.tcb.Keys`timeStart, s.model.tcb.Keys`timeEnd
      ensures s.Valid() && Waits(s) && waitQueue.items == old(waitQueue.items) + [old(s.currentThread)]
      ensures
        var m := SchedulerSpec.SetState(old(s.model), old(s.currentThread), Blocked);
        WellFormed(m) && s.model == Schedule(m, now) && SwappedOut(m, now, previous)
    {
      Block(s);
      previous := Reschedule(s, now);
    }

    /** One round of my_pthread_mutex_lock's loop: the test-and-set, and the wait when it fails. */
    method LockRound(s: Scheduler, now: int) returns (taken: bool, previous: Thread?)
      requires s.Valid() && Waits(s) && (flag ==> s.currentThread !in waitQueue.items)
      modifies this`flag, waitQueue, (set u | u in waitQueue.items)`next,
        s, s.runQueues, s.QueuedThreads()`next, s.currentThread`next, s.model.tcb.Keys`priority,
        s.model.tcb.Keys`state, s.model.tcb.Keys`timeRun, s.model.tcb.Keys`timeStart, s.model.tcb.Keys`timeEnd
      ensures s.Valid() && Waits(s)
      ensures (s.model, Model(), taken) == TryLock(old(s.model), old(Model()), now)
      ensures if taken then previous == null
              else SwappedOut(SchedulerSpec.SetState(old(s.model), old(s.currentThread), Blocked), now, previous)
    {
      var held := flag;
      flag := true;
      if !held {
        return true, null;
      }
      previous := Wait(s, now);
      taken := false;
    }

    /** The thread that waited longest goes to its run queue. */
    method WakeFirst(s: Scheduler)
      requires s.Valid() && Waits(s) && s.currentThread !in waitQueue.items && waitQueue.items != []
      modifies waitQueue, (set u | u in waitQueue.items)`next, (set u | u in waitQueue.items)`state,
        s`model, s.runQueues, s.QueuedThreads()`next
      ensures s.Valid() && Waits(s) && waitQueue.items == old(waitQueue.items)[1..]
      ensures
        var m, w := old(s.model), old(waitQueue.items)[0];
        s.model == Append(SchedulerSpec.SetState(m, w, Queued), w)
    {
      hide QueuesOk, Thread.Block, Scheduler.Mirrors, Queue.Valid, RUN_QUEUES;
      WaitersApart(s);
      FirstAppearsOnce();
      ghost var waiting := set t | t in waitQueue.items;
      var ptr := waitQueue.Dequeue();
      s.LinkedElsewhere(waiting);
      label dequeued:
      assert Waits(s);
      s.Wake(ptr);
      StillWaits@dequeued(s);
    }

    /** my_pthread_mutex_unlock. */
    method Unlock(s: Scheduler)
      requires s.Valid() && Waits(s) && s.currentThread !in waitQueue.items
      modifies this`flag, waitQueue, (set u | u in waitQueue.items)`next, (set u | u in waitQueue.items)`state,
        s`model, s.runQueues, s.QueuedThreads()`next
      ensures s.Valid() && Waits(s)
      ensures (s.model, Model()) == MutexSpec.Unlock(old(s.model), old(Model()))
    {
      if waitQueue.front != null {
        WakeFirst(s);
      }
      flag := false;
    }
  }

  /** my_pthread_mutex_destroy: refused for NULL and for a mutex that is held; it changes nothing. */
  method DestroyMutex(mutex: Mutex?) returns (result: int)
    ensures result == if mutex == null then -1 else Destroy(mutex.Model())
  {
    if mutex == null {
      return -1;
    }
    if mutex.flag {
      return -1;
    }
    return 0;
  }
}
