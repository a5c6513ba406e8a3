/**
 * my_pthread.c on the heap: linked run queues, thread fields and the scheduler's
 * globals updated in place. Every method is proved against the functions of
 * SchedulerSpec and MutexSpec: `model` is the value the object stands for.
 *
 * A method that ends in swapcontext returns with currentThread changed; the caller's
 * own continuation is its next round of lock or join.
 */
module Scheduler {
  import opened SchedulerSpec
  import opened ThreadQueue
  import MutexSpec

  class Scheduler {
    const runQueues: seq<Queue>
    var currentThread: Thread
    var inScheduler: bool
    var swap: bool
    var maintenanceCycle: nat
    ghost var model: Sched<Thread>

    ghost predicate QueueMirrors(i: nat)
      requires i < |runQueues| && i < |model.queues|
      reads this`model, runQueues, model.tcb.Keys`next
    {
      && runQueues[i].items == model.queues[i]
      && (forall t :: t in model.queues[i] ==> t in model.tcb)
      && runQueues[i].Valid()
    }

    /** The objects mirror the model; the links of different queues never share a thread. */
    ghost predicate Mirrors()
      reads this`model, this`currentThread, this`maintenanceCycle, runQueues, model.tcb.Keys
    {
      && |runQueues| == RUN_QUEUES && |model.queues| == RUN_QUEUES
      && (forall i, j :: 0 <= i < j < RUN_QUEUES ==> runQueues[i] != runQueues[j])
      && (forall i :: 0 <= i < RUN_QUEUES ==> QueueMirrors(i))
      && (forall i, j, t :: 0 <= i < j < RUN_QUEUES && t in model.queues[i] ==> t !in model.queues[j])
      && model.current == currentThread && currentThread in model.tcb && model.cycle == maintenanceCycle
      && (forall t :: t in model.tcb ==> model.tcb[t] == t.Block())
    }

    ghost predicate Valid()
      reads this`model, this`currentThread, this`maintenanceCycle, runQueues, model.tcb.Keys
    {
      Mirrors() && WellFormed(model) && currentThread.next == null
    }

    /** The threads whose links belong to the run queues. */
    ghost function QueuedThreads(): set<Thread>
      reads this`model, model.tcb.Keys`state
    {
      set u | u in model.tcb && u.state == Queued
    }

    /** scheduler_init, and the adoption of the calling thread as the main thread. */
    constructor (main: Thread, now: int)
      requires main.next == null
      modifies main
      ensures Valid() && fresh(runQueues)
      ensures NoneQueued(model) && model.current == main && model.cycle == 0
      ensures model.tcb == map[main := Tcb(0, Running, 0, 0, now, old(main.timeEnd), now)]
    {
      hide Queue.Valid, WellFormed;
      main.priority, main.state, main.retval := 0, Running, 0;
      main.timeRun, main.timeStart, main.timeLife := 0, now, now;
      var queues := EmptyQueues();
      runQueues := queues;
      currentThread := main;
      inScheduler := false;
      swap := false;
      maintenanceCycle := 0;
      ghost var tcb: map<Thread, Tcb> := map[main := main.Block()];
      model := Sched(seq(RUN_QUEUES, _ => []), main, tcb, 0);
      new;
      assert forall i :: 0 <= i < RUN_QUEUES ==> QueueMirrors(i);
      EmptyIsWellFormed(model);
    }

    /** The queues of scheduler_init's loop, each with its front and rear NULL. */
    static method EmptyQueues() returns (queues: seq<Queue>)
      ensures fresh(queues) && |queues| == RUN_QUEUES
      ensures forall i, j :: 0 <= i < j < |queues| ==> queues[i] != queues[j]
      ensures forall i :: 0 <= i < |queues| ==> queues[i].Valid() && queues[i].items == []
    {
      queues := [];
      while |queues| < RUN_QUEUES
        invariant fresh(queues) && |queues| <= RUN_QUEUES
        invariant forall i, j :: 0 <= i < j < |queues| ==> queues[i] != queues[j]
        invariant forall i :: 0 <= i < |queues| ==> queues[i].Valid() && queues[i].items == []
      {
        var q := new Queue();
        queues := queues + [q];
      }
    }

    method CheckNextThread() returns (some: bool)
      requires Mirrors()
      ensures some <==> !NoneQueued(model)
    {
      var i := 0;
      while i < RUN_QUEUES
        invariant i <= RUN_QUEUES
        invariant forall k :: 0 <= k < i ==> model.queues[k] == []
      {
        assert QueueMirrors(i);
        if runQueues[i].front != null {
          assert runQueues[i].items != [];
          return true;
        }
        i := i + 1;
      }
      return false;
    }

    /** The first thread of the lowest non-empty queue; null when all are empty. */
    method GetNextThread() returns (ptr: Thread?)
      requires Mirrors() && QueuesOk(model)
      modifies this`model, runQueues, QueuedThreads()`next
      ensures Mirrors()
      ensures NoneQueued(old(model)) ==> ptr == null && model == old(model)
      ensures !NoneQueued(old(model)) ==>
                var i := FirstQueue(old(model).queues);
                && i < RUN_QUEUES && ptr == old(model).queues[i][0] && ptr.next == null
                && model == old(model).(queues := old(model).queues[i := old(model).queues[i][1..]])
    {
      var i := 0;
      while i < RUN_QUEUES
        invariant i <= RUN_QUEUES
        invariant Mirrors() && model == old(model)
        invariant forall k :: 0 <= k < i ==> model.queues[k] == []
      {
        assert QueueMirrors(i);
        ptr := TakeFrom(i);
        if ptr != null {
          FirstQueueIs(old(model).queues, i);
          return;
        }
        i := i + 1;
      }
      return null;
    }

    /** dequeue on run queue i. */
    method TakeFrom(i: nat) returns (ptr: Thread?)
      requires Mirrors() && i < RUN_QUEUES
      modifies this`model, runQueues[i], (set u | u in runQueues[i].items)`next
      ensures Mirrors()
      ensures old(model).queues[i] == [] ==> ptr == null && model == old(model)
      ensures old(model).queues[i] != [] ==>
                && ptr == old(model).queues[i][0] && ptr.next == null
                && model == old(model).(queues := old(model).queues[i := old(model).queues[i][1..]])
    {
      hide Queue.Valid, Thread.Block;
      assert QueueMirrors(i);
      ptr := runQueues[i].Dequeue();
      if ptr != null {
        model := model.(queues := model.queues[i := model.queues[i][1..]]);
      }
      forall j | 0 <= j < RUN_QUEUES ensures QueueMirrors(j) {
        assert old(QueueMirrors(j)) && old(QueueMirrors(i));
        if j != i {
          assert forall t :: t in runQueues[j].items ==> t !in old(runQueues[i].items);
        }
      }
    }

    /** A thread that is in no run queue and just left its wait queue, or the processor. */
    ghost predicate Loose(t: Thread)
      reads this, t`next
    {
      t in model.tcb && t.next == null && forall i :: 0 <= i < |model.queues| ==> t !in model.queues[i]
    }

    lemma IsLoose(t: Thread)
      requires Valid() && t in model.tcb && t.next == null && t.state != Queued
      ensures Loose(t) && 0 <= t.priority < RUN_QUEUES
    {
    }

    lemma CurrentIsLoose()
      requires Valid()
      ensures Loose(currentThread)
    {
    }

    /** enqueue on the run queue of the thread's priority. */
    method EnqueueRun(t: Thread)
      requires Mirrors() && Loose(t) && 0 <= t.priority < RUN_QUEUES
      modifies this`model, runQueues[t.priority], (set u | u in runQueues[t.priority].items)`next
      ensures Mirrors() && model == Append(old(model), t)
    {
      hide Queue.Valid;
      var p := t.priority;
      assert QueueMirrors(p);
      runQueues[p].Enqueue(t);
      model := Append(model, t);
      forall j | 0 <= j < RUN_QUEUES ensures QueueMirrors(j) {
        assert old(QueueMirrors(j)) && old(QueueMirrors(p));
        if j != p {
          assert forall u :: u in runQueues[j].items ==> u !in old(runQueues[p].items);
        }
      }
    }

    /** Take ptr, the k-th thread of queue i, out of its links; prev is the thread before it. */
    method UnlinkThread(i: nat, prev: Thread?, ptr: Thread, ghost k: nat)
      requires Mirrors() && i < RUN_QUEUES && k < |model.queues[i]| && ptr == model.queues[i][k]
      requires prev == if k == 0 then null else model.queues[i][k - 1]
      modifies this`model, runQueues[i], (set u | u in runQueues[i].items)`next
      ensures Mirrors()
      ensures model == old(model).(queues :=
                old(model).queues[i := old(model).queues[i][..k] + old(model).queues[i][k + 1..]])
      ensures ptr.next == if k + 1 < |old(model).queues[i]| then old(model).queues[i][k + 1] else null
      ensures forall j :: 0 <= j < RUN_QUEUES ==> ptr !in model.queues[j]
    {
      hide Queue.Valid, Thread.Block;
      assert QueueMirrors(i);
      ghost var q := model.queues[i];
      runQueues[i].Unlink(prev, ptr, k);
      ghost var left := q[..k] + q[k + 1..];
      assert forall u :: u in left ==> u in q && u != ptr;
      model := model.(queues := model.queues[i := left]);
      forall j | 0 <= j < RUN_QUEUES ensures QueueMirrors(j) {
        assert old(QueueMirrors(j)) && old(QueueMirrors(i));
        if j != i {
          assert forall u :: u in runQueues[j].items ==> u !in old(runQueues[i].items);
        }
      }
    }

    /** An unlinked thread gets priority 0 and goes to the back of the top queue. */
    method MoveToTop(t: Thread)
      requires Mirrors() && t in model.tcb && forall j :: 0 <= j < RUN_QUEUES ==> t !in model.queues[j]
      modifies this`model, runQueues[0], (set u | u in runQueues[0].items)`next, t`next, t`priority
      ensures Mirrors()
      ensures model == Append(SetTcb(old(model), t, old(model).tcb[t].(priority := 0)), t)
    {
      hide Queue.Valid;
      t.priority := 0;
      t.next := null;
      model := SetTcb(model, t, t.Block());
      forall j | 0 <= j < RUN_QUEUES ensures QueueMirrors(j) {
        assert old(QueueMirrors(j));
      }
      EnqueueRun(t);
    }

    /** What is linked into a run queue is QUEUED. */
    lemma ItemsAreQueued(i: nat)
      requires Valid() && i < RUN_QUEUES
      ensures QueueMirrors(i) && forall u :: u in runQueues[i].items ==> u in QueuedThreads()
    {
      assert QueueMirrors(i);
    }

    lemma ValidMirrors()
      requires Valid()
      ensures Mirrors() && WellFormed(model) && currentThread == model.current && currentThread in model.tcb
      ensures 0 <= currentThread.priority < RUN_QUEUES
    {
    }

    lemma KnownAt(i: nat, k: nat)
      requires Valid() && i < RUN_QUEUES
      ensures |model.queues| == RUN_QUEUES && |runQueues| == RUN_QUEUES
      ensures k < |model.queues[i]| ==>
                var t := model.queues[i][k]; t in model.tcb && model.tcb[t] == t.Block()
    {
      assert QueueMirrors(i);
      assert k < |model.queues[i]| ==> model.queues[i][k] in model.queues[i];
    }

    /** One promotion of maintenance. Returns the thread that followed the promoted one. */
    method PromoteThread(i: nat, prev: Thread?, ptr: Thread, ghost k: nat) returns (after: Thread?)
      requires Valid() && 0 < i < RUN_QUEUES && k < |model.queues[i]| && ptr == model.queues[i][k]
      requires prev == (if k == 0 then null else model.queues[i][k - 1])
      modifies this`model, runQueues, QueuedThreads()`next, ptr`priority
      ensures ptr in old(model).tcb && model == Promote(old(model), i, k) && Valid()
      ensures after == if k + 1 < |old(model).queues[i]| then old(model).queues[i][k + 1] else null
    {
      assert QueueMirrors(i) && ptr in model.queues[i];
      ghost var was := model;
      UnlinkThread(i, prev, ptr, k);
      after := ptr.next;
      assert QueueMirrors(0);
      MoveToTop(ptr);
      PromoteKeepsQueues(was, i, k);
      assert model == Promote(was, i, k);
    }

    /** The test of maintenance's inner loop. The thread returned is at position k afterwards. */
    method PromoteIfAged(i: nat, prev: Thread?, ptr: Thread, now: int, ghost k: nat, ghost all: set<Thread>,
                         ghost queued: set<Thread>, ghost goal: Sched<Thread>)
      returns (ptr': Thread?)
      requires Valid() && 0 < i < RUN_QUEUES && Scanning(model, i, k, prev, ptr, now, goal)
      requires all == model.tcb.Keys && queued == QueuedThreads()
      modifies this`model, runQueues, queued`next, all`priority
      ensures Valid() && all == model.tcb.Keys && queued == QueuedThreads()
      ensures k <= |model.queues[i]| && ptr' == if k < |model.queues[i]| then model.queues[i][k] else null
      ensures |model.queues[i]| - (if ptr' == null then k else k + 1) < old(|model.queues[i]|) - k
      ensures Ahead(model, i, k + 1, now, goal) && (ptr' == null ==> Ahead(model, i, k, now, goal))
    {
      hide Valid, Mirrors, QueueMirrors, WellFormed, Sweep;
      KnownAt(i, k);
      ghost var s := model;
      ptr' := ptr;
      if now - ptr.timeLife >= LIFETIME_THRESHOLD {
        ptr' := PromoteThread(i, prev, ptr, k);
      }
      StepAhead(s, model, i, k, now, goal);
    }

    /** One round of maintenance's inner loop, at the k-th thread of queue i. */
    method SweepStep(i: nat, prev: Thread?, ptr: Thread, now: int, ghost k: nat, ghost all: set<Thread>,
                     ghost queued: set<Thread>, ghost goal: Sched<Thread>)
      returns (prev': Thread?, ptr': Thread?, ghost k': nat)
      requires Valid() && 0 < i < RUN_QUEUES && Scanning(model, i, k, prev, ptr, now, goal)
      requires all == model.tcb.Keys && queued == QueuedThreads()
      modifies this`model, runQueues, queued`next, all`priority
      ensures Valid() && all == model.tcb.Keys && queued == QueuedThreads()
      ensures Scanning(model, i, k', prev', ptr', now, goal) && |model.queues[i]| - k' < old(|model.queues[i]|) - k
    {
      hide Valid, Mirrors, QueueMirrors, Ahead, WellFormed;
      prev', k' := prev, k;
      ptr' := PromoteIfAged(i, prev, ptr, now, k, all, queued, goal);
      KnownAt(i, k);
      if ptr' != null {
        ValidMirrors();
        NextPosition(i, k, ptr', now, goal);
        prev' := ptr';
        ptr' := ptr'.next;
        k' := k + 1;
      }
    }

    /** maintenance's loop over run queue i, from its front. */
    method SweepLoop(i: nat, now: int, ghost all: set<Thread>, ghost queued: set<Thread>)
      requires Valid() && 0 < i < RUN_QUEUES
      requires all == model.tcb.Keys && queued == QueuedThreads()
      modifies this`model, runQueues, queued`next, all`priority
      ensures Valid() && all == model.tcb.Keys && queued == QueuedThreads()
      ensures model == Sweep(old(model), i, 0, now)
    {
      assert QueueMirrors(i);
      var ptr := runQueues[i].front;
      var prev: Thread? := null;
      ghost var k := 0;
      ghost var goal := Sweep(model, i, 0, now);
      while ptr != null
        invariant Valid() && all == model.tcb.Keys && queued == QueuedThreads()
        invariant Scanning(model, i, k, prev, ptr, now, goal)
        decreases |model.queues[i]| - k
      {
        prev, ptr, k := SweepStep(i, prev, ptr, now, k, all, queued, goal);
      }
    }

    method SweepQueue(i: nat, now: int, ghost all: set<Thread>, ghost queued: set<Thread>)
      requires Valid() && 0 < i < RUN_QUEUES
      requires all == model.tcb.Keys && queued == QueuedThreads()
      modifies this`model, runQueues, queued`next, all`priority
      ensures Valid() && all == model.tcb.Keys && queued == QueuedThreads()
      ensures model == MaintainQueue(old(model), i, now)
    {
      SweepIsMaintainQueue(model, i, now);
      SweepLoop(i, now, all, queued);
    }

    lemma NextPosition(i: nat, k: nat, ptr: Thread, now: int, goal: Sched<Thread>)
      requires Mirrors() && i < RUN_QUEUES && k < |model.queues[i]| && ptr == model.queues[i][k]
      requires Ahead(model, i, k + 1, now, goal)
      ensures Scanning(model, i, k + 1, ptr, ptr.next, now, goal)
    {
      assert QueueMirrors(i);
    }

    /** maintenance's outer loop, over the queues from `first` on. */
    method SweepQueues(first: nat, now: int)
      requires Valid() && 0 < first <= RUN_QUEUES
      modifies this`model, runQueues, QueuedThreads()`next, model.tcb.Keys`priority
      ensures Valid() && model == MaintainFrom(old(model), first, now) && model.tcb.Keys == old(model.tcb.Keys)
    {
      var i := first;
      ghost var all, queued, goal := model.tcb.Keys, QueuedThreads(), MaintainFrom(model, first, now);
      while i < RUN_QUEUES
        invariant first <= i <= RUN_QUEUES
        invariant Valid() && all == model.tcb.Keys && queued == QueuedThreads()
        invariant PassAhead(model, i, now, goal)
      {
        NextPass(model, i, now, goal);
        SweepQueue(i, now, all, queued);
        i := i + 1;
      }
    }

    /** maintenance: one pass over the lower queues. */
    method Maintenance(now: int)
      requires Valid()
      modifies this`model, runQueues, QueuedThreads()`next, model.tcb.Keys`priority
      ensures Valid() && model == MaintainFrom(old(model), 1, now) && model.tcb.Keys == old(model.tcb.Keys)
    {
      SweepQueues(1, now);
    }

    /** The counter of schedule, and its maintenance pass. */
    method Tend(now: int)
      requires Valid()
      modifies this`model, this`maintenanceCycle, runQueues, QueuedThreads()`next, model.tcb.Keys`priority
      ensures Valid() && model == SchedulerSpec.Tend(old(model), now) && model.tcb.Keys == old(model.tcb.Keys)
    {
      maintenanceCycle := maintenanceCycle + 1;
      if maintenanceCycle >= MAINTENANCE_THRESHOLD {
        maintenanceCycle := 0;
      }
      model := model.(cycle := maintenanceCycle);
      forall j | 0 <= j < RUN_QUEUES ensures QueueMirrors(j) {
        assert old(QueueMirrors(j));
      }
      if maintenanceCycle == 0 {
        Maintenance(now);
      }
    }

    method SetState(t: Thread, state: ThreadState)
      requires Mirrors() && t in model.tcb
      modifies this`model, t`state
      ensures Mirrors() && model == SchedulerSpec.SetState(old(model), t, state)
    {
      hide Queue.Valid;
      t.state := state;
      model := SetTcb(model, t, t.Block());
      forall j | 0 <= j < RUN_QUEUES ensures QueueMirrors(j) {
        assert old(QueueMirrors(j));
      }
    }

    /** yield, join and lock mark the current thread before they call schedule. */
    method SetCurrentState(state: ThreadState)
      requires Valid() && state != Queued
      modifies this`model, currentThread`state
      ensures Valid() && model == SchedulerSpec.SetState(old(model), currentThread, state)
    {
      hide WellFormed, QueueMirrors;
      StateKeepsWellFormed(model, model.tcb[currentThread].(state := state));
      SetState(currentThread, state);
    }

    /** The stores of my_pthread_exit. */
    method Retire(value: int)
      requires Valid()
      modifies this`model, currentThread`state, currentThread`retval
      ensures Valid() && model == MutexSpec.Leaving(old(model), value)
    {
      hide WellFormed, Queue.Valid;
      ghost var s := model;
      currentThread.state := Exited;
      if value != 0 {
        currentThread.retval := value;
      }
      model := SetTcb(model, currentThread, currentThread.Block());
      forall j | 0 <= j < RUN_QUEUES ensures QueueMirrors(j) {
        assert old(QueueMirrors(j));
      }
      StateKeepsWellFormed(s, model.tcb[currentThread]);
    }

    /** A thread just created goes to its run queue. */
    method Admit(t: Thread)
      requires Valid() && t !in model.tcb && t.next == null && t.state == Queued && 0 <= t.priority < RUN_QUEUES
      modifies this`model, runQueues, QueuedThreads()`next
      ensures Valid() && model == Append(SetTcb(old(model), t, t.Block()), t)
    {
      hide WellFormed, Queue.Valid;
      ItemsAreQueued(t.priority);
      ghost var s := model;
      model := SetTcb(model, t, t.Block());
      forall j | 0 <= j < RUN_QUEUES ensures QueueMirrors(j) {
        assert old(QueueMirrors(j));
      }
      AdmittedWellFormed(s, t, t.Block());
      EnqueueRun(t);
    }

    /** unlock: a thread that waited on a mutex goes back to its run queue. */
    method Wake(t: Thread)
      requires Valid() && t in model.tcb && t.next == null && t.state == Blocked && t != currentThread
      modifies this`model, runQueues, QueuedThreads()`next, t`state
      ensures Valid() && model == Append(SchedulerSpec.SetState(old(model), t, Queued), t)
    {
      hide WellFormed, QueuesOk, Queue.Valid, Append;
      ghost var s := model;
      IsLoose(t);
      ItemsAreQueued(t.priority);
      SetState(t, Queued);
      WokenWellFormed(s, t);
      EnqueueRun(t);
    }

    /** Links that change outside the run queues do not concern the scheduler. */
    twostate lemma LinkedElsewhere(apart: set<Thread>)
      requires old(Valid()) && unchanged(this) && unchanged(runQueues)
      requires forall i, t :: 0 <= i < RUN_QUEUES && t in model.queues[i] ==> t !in apart
      requires currentThread.next == null
      requires forall t :: t in model.tcb ==> t.Block() == old(t.Block())
      requires forall t :: t in model.tcb && t !in apart ==> t.next == old(t.next)
      ensures Valid()
    {
      forall j | 0 <= j < RUN_QUEUES ensures QueueMirrors(j) {
        assert old(QueueMirrors(j));
        assert forall t :: t in runQueues[j].items ==> t !in apart;
      }
    }

    /** The run time of the current thread up to now. */
    method Charge(now: int)
      requires Valid()
      modifies this`model, currentThread`timeEnd, currentThread`timeRun
      ensures Valid() && model == SchedulerSpec.Charge(old(model), now) && model.tcb.Keys == old(model.tcb.Keys)
    {
      hide WellFormed, Queue.Valid;
      ghost var s := model;
      currentThread.timeEnd := now;
      currentThread.timeRun := currentThread.timeRun + (currentThread.timeEnd - currentThread.timeStart);
      model := SetTcb(model, currentThread, currentThread.Block());
      forall j | 0 <= j < RUN_QUEUES ensures QueueMirrors(j) {
        assert old(QueueMirrors(j));
      }
      TimesKeepWellFormed(s, currentThread, model.tcb[currentThread]);
    }

    method Restart(now: int)
      requires Valid()
      modifies this`model, currentThread`timeStart
      ensures Valid() && model == SchedulerSpec.Restart(old(model), now)
    {
      hide WellFormed, Queue.Valid;
      ghost var s := model;
      currentThread.timeStart := now;
      model := SetTcb(model, currentThread, currentThread.Block());
      forall j | 0 <= j < RUN_QUEUES ensures QueueMirrors(j) {
        assert old(QueueMirrors(j));
      }
      TimesKeepWellFormed(s, currentThread, model.tcb[currentThread]);
    }

    /** The current thread becomes QUEUED, at the priority it has now. */
    method Requeue(priority: int)
      requires Valid() && 0 <= priority < RUN_QUEUES
      modifies this`model, runQueues, QueuedThreads()`next,
        currentThread`priority, currentThread`state, currentThread`timeRun
      ensures Mirrors()
      ensures
        var t, s := currentThread, old(model);
        model == Append(SetTcb(s, t, s.tcb[t].(priority := priority, state := Queued, timeRun := 0)), t)
    {
      hide WellFormed, QueuesOk, Queue.Valid;
      CurrentIsLoose();
      ItemsAreQueued(priority);
      currentThread.priority := priority;
      currentThread.state := Queued;
      currentThread.timeRun := 0;
      model := SetTcb(model, currentThread, currentThread.Block());
      forall j | 0 <= j < RUN_QUEUES ensures QueueMirrors(j) {
        assert old(QueueMirrors(j));
      }
      EnqueueRun(currentThread);
    }

    /** The switch of schedule for a thread that yields or joins: back to the queue it came from. */
    method StepAside()
      requires Valid() && (currentThread.state == Yielded || currentThread.state == Joining)
      modifies this`model, this`swap, runQueues, QueuedThreads()`next,
        currentThread`priority, currentThread`state, currentThread`timeRun
      ensures QueuedThreads() <= old(QueuedThreads()) + {currentThread}
      ensures swap && Leaves(old(model)) && Mirrors()
      ensures model == Leave(old(model)) && model.tcb.Keys == old(model.tcb.Keys)
    {
      hide WellFormed, QueueMirrors;
      ValidMirrors();
      Requeue(currentThread.priority);
      swap := true;
    }

    /** The switch of schedule for a RUNNING thread: it is demoted when its slice is used up. */
    method CheckSlice()
      requires Valid() && currentThread.state == Running && !swap
      modifies this`model, this`swap, runQueues, QueuedThreads()`next,
        currentThread`priority, currentThread`state, currentThread`timeRun
      ensures QueuedThreads() <= old(QueuedThreads()) + {currentThread}
      ensures Mirrors() && swap == Leaves(old(model)) && (!swap ==> currentThread.next == null)
      ensures model == (if swap then Leave(old(model)) else old(model)) && model.tcb.Keys == old(model.tcb.Keys)
    {
      hide WellFormed, QueueMirrors;
      ValidMirrors();
      var ptr := currentThread;
      if ptr.timeRun >= (ptr.priority + 1) * TIME_SLICE {
        var priority := ptr.priority + 1;
        if priority >= RUN_QUEUES {
          priority := RUN_QUEUES - 1;
        }
        Requeue(priority);
        swap := true;
      }
    }

    /** The switch of schedule, with the reset of swap before it. */
    method SwitchOnState()
      requires Valid()
      modifies this`model, this`swap, runQueues, QueuedThreads()`next,
        currentThread`priority, currentThread`state, currentThread`timeRun
      ensures QueuedThreads() <= old(QueuedThreads()) + {currentThread}
      ensures old(currentThread.state) == Blocked ==> currentThread.state == Blocked && currentThread.next == null
      ensures Mirrors() && swap == Leaves(old(model)) && (!swap ==> currentThread.next == null)
      ensures model == (if swap then Leave(old(model)) else old(model)) && model.tcb.Keys == old(model.tcb.Keys)
    {
      hide WellFormed, QueueMirrors, Append;
      swap := false;
      var ptr := currentThread;
      match ptr.state {
        case Queued =>
        case Yielded =>
          StepAside();
        case Exited =>
          swap := true;
        case Joining =>
          StepAside();
        case Blocked =>
          swap := true;
        case Running =>
          CheckSlice();
      }
    }

    /** A thread taken from its run queue becomes the current one and starts its slice. */
    method Install(next: Thread, now: int)
      requires Mirrors() && Loose(next)
      modifies this`model, this`currentThread, next`state, next`timeStart
      ensures Mirrors() && currentThread == next
      ensures
        var s := old(model);
        model == Sched(s.queues, next, s.tcb[next := s.tcb[next].(state := Running, timeStart := now)], s.cycle)
    {
      hide Queue.Valid;
      currentThread := next;
      currentThread.state := Running;
      currentThread.timeStart := now;
      model := Sched(model.queues, next, model.tcb[next := currentThread.Block()], model.cycle);
      forall j | 0 <= j < RUN_QUEUES ensures QueueMirrors(j) {
        assert old(QueueMirrors(j));
      }
    }

    /** The thread at the front of the first non-empty queue becomes the current one. */
    method Dispatch(now: int)
      requires Mirrors() && QueuesOk(model) && !NoneQueued(model)
      modifies this`model, this`currentThread, runQueues, QueuedThreads()`next,
        QueuedThreads()`state, QueuedThreads()`timeStart
      ensures Valid()
      ensures
        var s := old(model); var i := FirstQueue(s.queues);
        && i < |s.queues| && s.queues[i][0] in s.tcb
        && model == SchedulerSpec.Dispatch(s, now)
    {
      ghost var s := model;
      DispatchKeepsWellFormed(s, now);
      var next := GetNextThread();
      FrontIsTaken(s, model.queues);
      Install(next, now);
    }

    /** Everything schedule does before its switch; is anybody queued? */
    method Count(now: int) returns (checkNext: bool)
      requires Valid()
      modifies this`model, this`maintenanceCycle, runQueues, QueuedThreads()`next, model.tcb.Keys`priority,
        currentThread`timeEnd, currentThread`timeRun
      ensures Valid() && model == SchedulerSpec.Charge(SchedulerSpec.Tend(old(model), now), now)
      ensures model.tcb.Keys == old(model.tcb.Keys)
      ensures checkNext == !NoneQueued(model)
    {
      Tend(now);
      checkNext := CheckNextThread();
      Charge(now);
    }

    /** The rest of schedule when somebody is queued. */
    method SwapOrStay(now: int) returns (previous: Thread?)
      requires Valid() && !NoneQueued(model)
      modifies this`model, this`swap, this`currentThread, runQueues, QueuedThreads()`next, currentThread`next,
        model.tcb.Keys`priority, model.tcb.Keys`state, model.tcb.Keys`timeRun, model.tcb.Keys`timeStart
      ensures old(currentThread.state) == Blocked ==> old(currentThread).next == null
      ensures Valid()
      ensures previous == if Leaves(old(model)) then old(currentThread) else null
      ensures Leaves(old(model)) ==> Dispatched(old(model), model, now)
      ensures !Leaves(old(model)) ==> model == SchedulerSpec.Restart(old(model), now)
    {
      hide QueueMirrors, QueuesOk, Leave, NoneQueued, SchedulerSpec.Dispatch, SchedulerSpec.Restart;
      var ptr := currentThread;
      ghost var s := model;
      SwitchOnState();
      if !swap {
        Restart(now);
        previous := null;
      } else {
        LeaveKeepsQueues(s);
        Dispatch(now);
        previous := ptr;
      }
    }

    /** schedule from its test of checkNext on. */
    method Settle(checkNext: bool, now: int) returns (previous: Thread?)
      requires Valid() && checkNext == !NoneQueued(model)
      modifies this`model, this`swap, this`currentThread, runQueues, QueuedThreads()`next, currentThread`next,
        model.tcb.Keys`priority, model.tcb.Keys`state, model.tcb.Keys`timeRun, model.tcb.Keys`timeStart
      ensures old(currentThread.state) == Blocked ==> old(currentThread).next == null
      ensures Valid() && Settled(old(model), model, now)
      ensures previous == if !NoneQueued(old(model)) && Leaves(old(model)) then old(currentThread) else null
    {
      previous := null;
      if !checkNext {
        if currentThread.state != Exited {
          Restart(now);
        }
      } else {
        previous := SwapOrStay(now);
      }
    }

    /**
     * schedule. The thread returned is the one swapped out, whose frames are to be
     * protected and whose context is saved; null when the caller goes on.
     */
    method Schedule(now: int) returns (previous: Thread?)
      requires Valid()
      modifies this, runQueues, QueuedThreads()`next, currentThread`next, model.tcb.Keys`priority,
        model.tcb.Keys`state, model.tcb.Keys`timeRun, model.tcb.Keys`timeStart, model.tcb.Keys`timeEnd
      ensures old(currentThread.state) == Blocked ==> old(currentThread).next == null
      ensures Valid() && model == SchedulerSpec.Schedule(old(model), now) && !inScheduler
      ensures previous == if Swaps(old(model), now) then old(currentThread) else null
    {
      hide Mirrors, WellFormed, Settled, Swaps, Leaves,
        SchedulerSpec.Tend, SchedulerSpec.Charge, SchedulerSpec.Schedule;
      ValidMirrors();
      inScheduler := true;
      ghost var s := model;
      var checkNext := Count(now);
      previous := Settle(checkNext, now);
      inScheduler := false;
      SettledIsSchedule(s, model, now);
    }
  }

  /** A new thread at the rear of the run queue of its priority. */
  lemma AdmittedWellFormed<T>(s: Sched<T>, t: T, b: Tcb)
    requires WellFormed(s) && t !in s.tcb && b.state == Queued && 0 <= b.priority < RUN_QUEUES
    ensures forall i :: 0 <= i < RUN_QUEUES ==> t !in s.queues[i]
    ensures WellFormed(Append(SetTcb(s, t, b), t))
  {
    var r := SetTcb(s, t, b);
    assert QueuesOk(r);
    AppendKeepsQueues(r, t);
  }

  /** A blocked thread at the rear of the run queue of its priority. */
  lemma WokenWellFormed<T>(s: Sched<T>, t: T)
    requires WellFormed(s) && t in s.tcb && s.tcb[t].state == Blocked && t != s.current
    ensures var r := SchedulerSpec.SetState(s, t, Queued);
      |r.queues| == RUN_QUEUES && t in r.tcb && 0 <= r.tcb[t].priority < RUN_QUEUES && WellFormed(Append(r, t))
  {
    var r := SchedulerSpec.SetState(s, t, Queued);
    assert QueuesOk(r);
    AppendKeepsQueues(r, t);
  }

  lemma EmptyIsWellFormed<T>(s: Sched<T>)
    requires s.queues == seq(RUN_QUEUES, _ => []) && s.current in s.tcb && s.tcb[s.current].state == Running
    requires forall t :: t in s.tcb ==> 0 <= s.tcb[t].priority < RUN_QUEUES
    ensures WellFormed(s) && NoneQueued(s)
  {
  }

  lemma StateKeepsWellFormed<T>(s: Sched<T>, b: Tcb)
    requires WellFormed(s) && b.state != Queued && b.priority == s.tcb[s.current].priority
    ensures WellFormed(SetTcb(s, s.current, b))
  {
  }

  lemma TimesKeepWellFormed<T>(s: Sched<T>, t: T, b: Tcb)
    requires WellFormed(s) && t in s.tcb && b.state == s.tcb[t].state && b.priority == s.tcb[t].priority
    ensures WellFormed(SetTcb(s, t, b))
  {
  }

  /** ptr is the k-th thread of q, or null at its end, and prev the one before it. */
  ghost predicate AtPosition(q: seq<Thread>, k: nat, prev: Thread?, ptr: Thread?) {
    && k <= |q|
    && (k == |q| ==> ptr == null)
    && (k < |q| ==> ptr == q[k] && prev == if k == 0 then null else q[k - 1])
  }

  /** The loop body at position k of queue i. */
  function SweepNext<T(==)>(s: Sched<T>, i: nat, k: nat, now: int): Sched<T>
    requires |s.queues| == RUN_QUEUES && 0 < i < RUN_QUEUES && k < |s.queues[i]| && s.queues[i][k] in s.tcb
  {
    if IsAged(s.tcb[s.queues[i][k]], now) then Promote(s, i, k) else s
  }

  /** The loop over queue i, at position k, ends in state goal. */
  ghost predicate Ahead<T>(s: Sched<T>, i: nat, k: nat, now: int, goal: Sched<T>) {
    && |s.queues| == RUN_QUEUES && 0 < i < RUN_QUEUES
    && (forall t :: t in s.queues[i] ==> t in s.tcb)
    && Sweep(s, i, k, now) == goal
  }

  /** The loop variables at position k, on the way to goal. */
  ghost predicate Scanning(s: Sched<Thread>, i: nat, k: nat, prev: Thread?, ptr: Thread?, now: int,
                           goal: Sched<Thread>)
  {
    Ahead(s, i, k, now, goal) && AtPosition(s.queues[i], k, prev, ptr)
  }

  lemma StepAhead<T>(s: Sched<T>, r: Sched<T>, i: nat, k: nat, now: int, goal: Sched<T>)
    requires Ahead(s, i, k, now, goal) && k < |s.queues[i]|
    requires r == SweepNext(s, i, k, now)
    ensures Ahead(r, i, k + 1, now, goal)
    ensures k == |r.queues[i]| ==> Ahead(r, i, k, now, goal)
  {
  }

  /** maintenance, about to sweep queue i, ends in state goal. */
  ghost predicate PassAhead<T>(s: Sched<T>, i: nat, now: int, goal: Sched<T>) {
    |s.queues| == RUN_QUEUES && 0 < i <= RUN_QUEUES && MaintainFrom(s, i, now) == goal
  }

  lemma NextPass<T>(s: Sched<T>, i: nat, now: int, goal: Sched<T>)
    requires PassAhead(s, i, now, goal) && i < RUN_QUEUES
    ensures PassAhead(MaintainQueue(s, i, now), i + 1, now, goal)
  {
  }

  /** r is s after the switch of schedule and the dispatch that follows it. */
  ghost predicate Dispatched<T>(s: Sched<T>, r: Sched<T>, now: int)
    requires WellFormed(s) && Leaves(s)
  {
    var l := Leave(s);
    && !NoneQueued(l)
    && (var i := FirstQueue(l.queues); i < |l.queues| ==> l.queues[i][0] in l.tcb)
    && r == SchedulerSpec.Dispatch(l, now)
  }

  /** r is s after the part of schedule that follows the accounting. */
  ghost predicate Settled<T>(s: Sched<T>, r: Sched<T>, now: int)
    requires WellFormed(s)
  {
    if NoneQueued(s) then
      r == if s.tcb[s.current].state == Exited then s else SchedulerSpec.Restart(s, now)
    else if Leaves(s) then Dispatched(s, r, now)
    else r == SchedulerSpec.Restart(s, now)
  }

  lemma SettledIsSchedule<T>(s: Sched<T>, r: Sched<T>, now: int)
    requires WellFormed(s) && Settled(Counted(s, now), r, now)
    ensures r == SchedulerSpec.Schedule(s, now)
    ensures Swaps(s, now) <==> !NoneQueued(Counted(s, now)) && Leaves(Counted(s, now))
  {
    TendKeepsWellFormed(s, now);
    var c := Counted(s, now);
    if !NoneQueued(c) && Leaves(c) {
      LeaveKeepsQueues(c);
      DispatchKeepsWellFormed(Leave(c), now);
    }
  }

  /** Once dequeued, the thread is in no queue. */
  lemma FrontIsTaken<T>(s: Sched<T>, rest: seq<seq<T>>)
    requires QueuesOk(s) && !NoneQueued(s)
    requires var i := FirstQueue(s.queues); i < RUN_QUEUES ==> rest == s.queues[i := s.queues[i][1..]]
    ensures
      var i := FirstQueue(s.queues);
      i < RUN_QUEUES && forall j :: 0 <= j < RUN_QUEUES ==> s.queues[i][0] !in rest[j]
  {
    var i := FirstQueue(s.queues);
    var t := s.queues[i][0];
    assert t in s.queues[i];
    RemovedIsGone(s.queues[i], 0);
    assert s.queues[i][..0] + s.queues[i][0 + 1..] == rest[i];
    assert t !in rest[i];
    assert s.tcb[t].priority == i;
    forall j | 0 <= j < RUN_QUEUES && j != i ensures t !in rest[j] {
      assert rest[j] == s.queues[j];
      assert !InQueue(s, j, t);
    }
  }

  lemma {:induction false} FirstQueueIs<T>(queues: seq<seq<T>>, i: nat)
    requires i < |queues| && queues[i] != [] && forall k :: 0 <= k < i ==> queues[k] == []
    ensures FirstQueue(queues) == i
  {
  }
}
