/**
 * The scheduler of my_pthread.c as functions on values: five FIFO run queues, the
 * current thread, one control block per thread and the maintenance counter. The
 * clock reading of a call to schedule is its argument `now`.
 */
module SchedulerSpec {
  import opened RunQueues

  const RUN_QUEUES: nat := 5
  const MAINTENANCE_THRESHOLD: nat := 20
  const LIFETIME_THRESHOLD: int := 1000000
  const TIME_SLICE: int := 50000

  datatype ThreadState = Queued | Yielded | Exited | Joining | Blocked | Running

  datatype Tcb = Tcb(
    priority: int, state: ThreadState, retval: int,
    timeRun: int, timeStart: int, timeEnd: int, timeLife: int)

  datatype Sched<T> = Sched(queues: seq<seq<T>>, current: T, tcb: map<T, Tcb>, cycle: nat)

  predicate InQueue<T(==)>(s: Sched<T>, i: int, t: T) {
    0 <= i < |s.queues| && t in s.queues[i]
  }

  /** Every queued thread is QUEUED, in the queue of its priority, and there once. */
  ghost predicate QueuesOk<T>(s: Sched<T>) {
    && |s.queues| == RUN_QUEUES
    && (forall t :: t in s.tcb ==> 0 <= s.tcb[t].priority < RUN_QUEUES)
    && (forall i, t :: 0 <= i < RUN_QUEUES && t in s.queues[i] ==>
          t in s.tcb && s.tcb[t].state == Queued && s.tcb[t].priority == i)
    && (forall i :: 0 <= i < RUN_QUEUES ==> Distinct(s.queues[i]))
  }

  /** The current thread is never in a run queue, since it is never QUEUED. */
  ghost predicate WellFormed<T>(s: Sched<T>) {
    QueuesOk(s) && s.current in s.tcb && s.tcb[s.current].state != Queued
  }

  predicate NoneQueued<T(==)>(s: Sched<T>) {
    forall i :: 0 <= i < |s.queues| ==> s.queues[i] == []
  }

  /** checkNextThread and getNextThread look for the lowest non-empty queue. */
  function FirstQueue<T(==)>(queues: seq<seq<T>>): (i: nat)
    ensures i <= |queues|
    ensures forall k :: 0 <= k < i ==> queues[k] == []
    ensures i < |queues| ==> queues[i] != []
  {
    if queues == [] then 0
    else if queues[0] != [] then 0
    else
      var i := FirstQueue(queues[1..]);
      assert forall k :: 1 <= k < 1 + i ==> queues[k] == queues[1..][k - 1];
      1 + i
  }

  // ---------------------------------------------------------------- maintenance

  predicate IsAged(tcb: Tcb, now: int) {
    now - tcb.timeLife >= LIFETIME_THRESHOLD
  }

  ghost function Aged<T>(s: Sched<T>, now: int): set<T> {
    set t | t in s.tcb && IsAged(s.tcb[t], now)
  }

  /** The k-th thread of queue i leaves it for the back of queue 0. */
  function Promote<T(==)>(s: Sched<T>, i: nat, k: nat): Sched<T>
    requires |s.queues| == RUN_QUEUES && 0 < i < RUN_QUEUES && k < |s.queues[i]|
    requires s.queues[i][k] in s.tcb
  {
    var t := s.queues[i][k];
    s.(queues := s.queues[i := s.queues[i][..k] + s.queues[i][k + 1..]][0 := s.queues[0] + [t]],
       tcb := s.tcb[t := s.tcb[t].(priority := 0)])
  }

  /**
   * The scanning loop over queue i, from position k. When the thread at k leaves, its
   * successor moves to k and the loop goes on at k + 1: the successor is skipped.
   */
  function Sweep<T(==)>(s: Sched<T>, i: nat, k: nat, now: int): Sched<T>
    requires |s.queues| == RUN_QUEUES && 0 < i < RUN_QUEUES
    requires forall t :: t in s.queues[i] ==> t in s.tcb
    decreases |s.queues[i]| - k
  {
    if k >= |s.queues[i]| then s
    else if IsAged(s.tcb[s.queues[i][k]], now) then Sweep(Promote(s, i, k), i, k + 1, now)
    else Sweep(s, i, k + 1, now)
  }

  /** The promoted threads get priority 0. */
  function Raise<T(==)>(tcb: map<T, Tcb>, promoted: seq<T>): map<T, Tcb> {
    map t | t in tcb :: if t in promoted then tcb[t].(priority := 0) else tcb[t]
  }

  /** What sweeping queue i does in one go: keep, promote, and set the priority. */
  ghost function MaintainQueue<T>(s: Sched<T>, i: nat, now: int): Sched<T>
    requires |s.queues| == RUN_QUEUES && 0 < i < RUN_QUEUES
  {
    var aged := Aged(s, now);
    var promoted := Promoted(s.queues[i], aged);
    s.(queues := s.queues[i := Kept(s.queues[i], aged)][0 := s.queues[0] + promoted],
       tcb := Raise(s.tcb, promoted))
  }

  /** maintenance: every lower queue, from queue i on. */
  ghost function MaintainFrom<T>(s: Sched<T>, i: nat, now: int): Sched<T>
    requires |s.queues| == RUN_QUEUES && 0 < i <= RUN_QUEUES
    decreases RUN_QUEUES - i
  {
    if i == RUN_QUEUES then s else MaintainFrom(MaintainQueue(s, i, now), i + 1, now)
  }

  // ---------------------------------------------------------------- schedule

  function Append<T(==)>(s: Sched<T>, t: T): Sched<T>
    requires |s.queues| == RUN_QUEUES && t in s.tcb && 0 <= s.tcb[t].priority < RUN_QUEUES
  {
    var p := s.tcb[t].priority;
    s.(queues := s.queues[p := s.queues[p] + [t]])
  }

  function SetTcb<T(==)>(s: Sched<T>, t: T, b: Tcb): Sched<T> {
    s.(tcb := s.tcb[t := b])
  }

  function SetState<T(==)>(s: Sched<T>, t: T, state: ThreadState): Sched<T>
    requires t in s.tcb
  {
    SetTcb(s, t, s.tcb[t].(state := state))
  }

  /** The maintenance counter, and the pass that every twentieth call makes. */
  ghost function Tend<T>(s: Sched<T>, now: int): Sched<T>
    requires |s.queues| == RUN_QUEUES
  {
    if s.cycle + 1 >= MAINTENANCE_THRESHOLD then MaintainFrom(s.(cycle := 0), 1, now)
    else s.(cycle := s.cycle + 1)
  }

  function Charge<T(==)>(s: Sched<T>, now: int): Sched<T>
    requires s.current in s.tcb
  {
    var b := s.tcb[s.current];
    SetTcb(s, s.current, b.(timeEnd := now, timeRun := b.timeRun + now - b.timeStart))
  }

  /** The current thread starts a slice. */
  function Restart<T(==)>(s: Sched<T>, now: int): Sched<T>
    requires s.current in s.tcb
  {
    SetTcb(s, s.current, s.tcb[s.current].(timeStart := now))
  }

  predicate SliceExpired(b: Tcb) {
    b.timeRun >= (b.priority + 1) * TIME_SLICE
  }

  function Demoted(p: int): int {
    if p + 1 >= RUN_QUEUES then RUN_QUEUES - 1 else p + 1
  }

  /** Does the switch of schedule give up the processor? */
  predicate Leaves<T(==)>(s: Sched<T>)
    requires s.current in s.tcb
  {
    var b := s.tcb[s.current];
    match b.state
    case Queued => false
    case Running => SliceExpired(b)
    case _ => true
  }

  /** Where the switch puts a current thread that gives up the processor. */
  function Leave<T(==)>(s: Sched<T>): Sched<T>
    requires |s.queues| == RUN_QUEUES && s.current in s.tcb && Leaves(s)
    requires 0 <= s.tcb[s.current].priority < RUN_QUEUES
  {
    var t := s.current;
    var b := s.tcb[t];
    if b.state == Exited || b.state == Blocked then s
    else
      var p := if b.state == Running then Demoted(b.priority) else b.priority;
      Append(SetTcb(s, t, b.(priority := p, state := Queued, timeRun := 0)), t)
  }

  /** getNextThread and the start of its slice. */
  function Dispatch<T(==)>(s: Sched<T>, now: int): Sched<T>
    requires !NoneQueued(s)
    requires var i := FirstQueue(s.queues); i < |s.queues| ==> s.queues[i][0] in s.tcb
  {
    var i := FirstQueue(s.queues);
    var t := s.queues[i][0];
    Sched(s.queues[i := s.queues[i][1..]], t, s.tcb[t := s.tcb[t].(state := Running, timeStart := now)], s.cycle)
  }

  /** Does this call to schedule change threads? */
  ghost predicate Swaps<T>(s: Sched<T>, now: int)
    requires WellFormed(s)
  {
    TendKeepsWellFormed(s, now);
    var c := Charge(Tend(s, now), now);
    !NoneQueued(c) && Leaves(c)
  }

  ghost function Schedule<T>(s: Sched<T>, now: int): (r: Sched<T>)
    requires WellFormed(s)
    ensures QueuesOk(r) && r.current in r.tcb && r.tcb.Keys == s.tcb.Keys
    ensures Swaps(s, now) ==> r.tcb[r.current].state == Running
    ensures !Swaps(s, now) ==> r.current == s.current && r.tcb[r.current].state == s.tcb[s.current].state
  {
    TendKeepsWellFormed(s, now);
    var c := Charge(Tend(s, now), now);
    if NoneQueued(c) then
      if c.tcb[c.current].state == Exited then c else Restart(c, now)
    else if Leaves(c) then
      LeaveKeepsQueues(c);
      DispatchKeepsWellFormed(Leave(c), now);
      Dispatch(Leave(c), now)
    else
      Restart(c, now)
  }

  // ---------------------------------------------------------------- what the pieces keep

  /** What is left of the pass over queue i from position k on. */
  ghost function PassFrom<T>(s: Sched<T>, i: nat, k: nat, now: int): Sched<T>
    requires |s.queues| == RUN_QUEUES && 0 < i < RUN_QUEUES
  {
    var q := s.queues[i];
    if k >= |q| then s else
      var promoted := Promoted(q[k..], Aged(s, now));
      s.(queues := s.queues[i := q[..k] + Kept(q[k..], Aged(s, now))][0 := s.queues[0] + promoted],
         tcb := Raise(s.tcb, promoted))
  }

  /** The loop with its shifting queue does what the pass does in one go. */
  lemma SweepIsMaintainQueue<T>(s: Sched<T>, i: nat, now: int)
    requires QueuesOk(s) && 0 < i < RUN_QUEUES
    ensures Sweep(s, i, 0, now) == MaintainQueue(s, i, now)
  {
    SweepIsPass(s, i, 0, now);
    var q := s.queues[i];
    assert q[0..] == q;
    assert q[..0] + Kept(q, Aged(s, now)) == Kept(q, Aged(s, now));
    if q == [] {
      assert s.queues[0] + [] == s.queues[0];
      assert MaintainQueue(s, i, now).queues == s.queues;
    }
  }

  lemma {:induction false} SweepIsPass<T>(s: Sched<T>, i: nat, k: nat, now: int)
    requires QueuesOk(s) && 0 < i < RUN_QUEUES
    ensures Sweep(s, i, k, now) == PassFrom(s, i, k, now)
    decreases |s.queues[i]| - k
  {
    var q := s.queues[i];
    if k < |q| {
      if IsAged(s.tcb[q[k]], now) {
        PromoteKeepsQueues(s, i, k);
        SweepIsPass(Promote(s, i, k), i, k + 1, now);
        PassPromoting(s, i, k, now);
      } else {
        SweepIsPass(s, i, k + 1, now);
        PassSkipping(s, i, k, now);
      }
    }
  }

  lemma PassSkipping<T>(s: Sched<T>, i: nat, k: nat, now: int)
    requires QueuesOk(s) && 0 < i < RUN_QUEUES && k < |s.queues[i]|
    requires !IsAged(s.tcb[s.queues[i][k]], now)
    ensures PassFrom(s, i, k, now) == PassFrom(s, i, k + 1, now)
  {
    var q := s.queues[i];
    var aged := Aged(s, now);
    assert q[k..][1..] == q[k + 1..];
    assert q[..k] + ([q[k]] + Kept(q[k + 1..], aged)) == q[..k + 1] + Kept(q[k + 1..], aged);
    if k + 1 == |q| {
      assert q[k + 1..] == [];
      assert q[..k] + Kept(q[k..], aged) == q && Promoted(q[k..], aged) == [];
      assert s.queues[0] + [] == s.queues[0];
      assert PassFrom(s, i, k, now).queues == s.queues;
      assert Raise(s.tcb, []) == s.tcb;
    }
  }

  lemma PassPromoting<T>(s: Sched<T>, i: nat, k: nat, now: int)
    requires QueuesOk(s) && 0 < i < RUN_QUEUES && k < |s.queues[i]|
    requires IsAged(s.tcb[s.queues[i][k]], now)
    ensures PassFrom(s, i, k, now) == PassFrom(Promote(s, i, k), i, k + 1, now)
  {
    var q := s.queues[i];
    var t := q[k];
    var aged := Aged(s, now);
    var p := Promote(s, i, k);
    assert Aged(p, now) == aged;
    var l, r := PassFrom(s, i, k, now), PassFrom(p, i, k + 1, now);
    if k + 1 == |q| {
      assert q[k..] == [t];
      assert q[..k] + [] == q[..k] + q[k + 1..];
      assert l.queues == p.queues;
      assert Raise(s.tcb, [t]) == p.tcb;
    } else {
      PromotedQueue(q, k, aged);
      var rest := Promoted(q[k + 2..], aged);
      assert Promoted(q[k..], aged) == [t] + rest;
      assert s.queues[0] + ([t] + rest) == p.queues[0] + rest;
      assert p.queues[i] == q[..k] + q[k + 1..];
      assert p.queues[i][k + 1..] == q[k + 2..];
      assert l.queues[i] == r.queues[i];
      assert r.queues[0] == p.queues[0] + rest == l.queues[0];
      assert l.queues == r.queues;
      assert Raise(s.tcb, [t] + rest) == Raise(p.tcb, rest);
    }
  }

  lemma PromotedQueue<T>(q: seq<T>, k: nat, aged: set<T>)
    requires k + 1 < |q| && q[k] in aged
    ensures var pq := q[..k] + q[k + 1..];
            && pq[k + 1..] == q[k + 2..]
            && pq[..k + 1] + Kept(pq[k + 1..], aged) == q[..k] + Kept(q[k..], aged)
            && Promoted(q[k..], aged) == [q[k]] + Promoted(q[k + 2..], aged)
  {
    var pq := q[..k] + q[k + 1..];
    assert q[k..][2..] == q[k + 2..] == pq[k + 1..];
    assert pq[..k + 1] == q[..k] + [q[k + 1]];
  }

  lemma RemovedIsGone<T>(q: seq<T>, k: nat)
    requires Distinct(q) && k < |q|
    ensures q[k] !in q[..k] + q[k + 1..]
  {
  }

  lemma PromoteKeepsQueues<T>(s: Sched<T>, i: nat, k: nat)
    requires QueuesOk(s) && 0 < i < RUN_QUEUES && k < |s.queues[i]|
    ensures QueuesOk(Promote(s, i, k))
    ensures Promote(s, i, k).tcb.Keys == s.tcb.Keys
  {
    var r := Promote(s, i, k);
    var q := s.queues[i];
    var t := q[k];
    assert t !in s.queues[0];
    forall j, u | 0 <= j < RUN_QUEUES && u in r.queues[j]
      ensures u in r.tcb && r.tcb[u].state == Queued && r.tcb[u].priority == j
    {
      if u == t && j == i {
        RemovedIsGone(q, k);
        assert false;
      }
    }
  }

  lemma MaintainQueueKeepsQueues<T>(s: Sched<T>, i: nat, now: int)
    requires QueuesOk(s) && 0 < i < RUN_QUEUES
    ensures QueuesOk(MaintainQueue(s, i, now))
    ensures MaintainQueue(s, i, now).tcb.Keys == s.tcb.Keys
    ensures forall t :: t in s.tcb && s.tcb[t].state != Queued ==> MaintainQueue(s, i, now).tcb[t] == s.tcb[t]
    ensures forall t :: t in s.tcb ==>
              MaintainQueue(s, i, now).tcb[t] == s.tcb[t].(priority := MaintainQueue(s, i, now).tcb[t].priority)
  {
    var aged := Aged(s, now);
    var q := s.queues[i];
    var r := MaintainQueue(s, i, now);
    PassKeepsDistinct(q, aged);
    forall t | t in s.tcb && s.tcb[t].state != Queued ensures t !in Promoted(q, aged) {
      PassMembers(q, aged, t);
    }
    forall j, u | 0 <= j < RUN_QUEUES && u in r.queues[j]
      ensures u in r.tcb && r.tcb[u].state == Queued && r.tcb[u].priority == j
    {
      PassMembers(q, aged, u);
      if j == 0 && u !in s.queues[0] {
        assert u in Promoted(q, aged) && u in q;
      } else if j == i {
        assert u in Kept(q, aged) && u in q && u !in Promoted(q, aged);
      } else {
        assert u in s.queues[j];
        assert j != 0 ==> u !in q;
      }
    }
    var q0, p := s.queues[0], Promoted(q, aged);
    forall u | u in p ensures u !in q0 {
      PassMembers(q, aged, u);
    }
    DistinctJoin(q0, p);
  }

  lemma {:induction false} MaintainFromKeepsQueues<T>(s: Sched<T>, i: nat, now: int)
    requires QueuesOk(s) && 0 < i <= RUN_QUEUES
    ensures var r := MaintainFrom(s, i, now);
            && QueuesOk(r) && r.tcb.Keys == s.tcb.Keys && r.current == s.current && r.cycle == s.cycle
            && (forall t :: t in s.tcb && s.tcb[t].state != Queued ==> r.tcb[t] == s.tcb[t])
            && (forall t :: t in s.tcb ==> r.tcb[t] == s.tcb[t].(priority := r.tcb[t].priority))
    decreases RUN_QUEUES - i
  {
    if i < RUN_QUEUES {
      MaintainQueueKeepsQueues(s, i, now);
      MaintainFromKeepsQueues(MaintainQueue(s, i, now), i + 1, now);
    }
  }

  lemma TendKeepsWellFormed<T>(s: Sched<T>, now: int)
    requires WellFormed(s)
    ensures var r := Tend(s, now);
            && WellFormed(r) && r.tcb.Keys == s.tcb.Keys && r.current == s.current
            && (forall t :: t in s.tcb && s.tcb[t].state != Queued ==> r.tcb[t] == s.tcb[t])
            && (forall t :: t in s.tcb ==> r.tcb[t] == s.tcb[t].(priority := r.tcb[t].priority))
  {
    if s.cycle + 1 >= MAINTENANCE_THRESHOLD { MaintainFromKeepsQueues(s.(cycle := 0), 1, now); }
  }

  lemma AppendKeepsQueues<T>(s: Sched<T>, t: T)
    requires QueuesOk(s) && t in s.tcb && s.tcb[t].state == Queued
    requires forall i :: 0 <= i < RUN_QUEUES ==> t !in s.queues[i]
    ensures QueuesOk(Append(s, t))
  {
  }

  lemma LeaveKeepsQueues<T>(s: Sched<T>)
    requires WellFormed(s) && Leaves(s) && !NoneQueued(s)
    ensures var r := Leave(s);
            QueuesOk(r) && r.tcb.Keys == s.tcb.Keys && r.current == s.current && !NoneQueued(r)
  {
    var t := s.current;
    var b := s.tcb[t];
    var j :| 0 <= j < |s.queues| && s.queues[j] != [];
    assert Leave(s).queues[j] != [];
    assert forall i :: 0 <= i < RUN_QUEUES ==> t !in s.queues[i];
    if b.state != Exited && b.state != Blocked {
      var p := if b.state == Running then Demoted(b.priority) else b.priority;
      var s1 := SetTcb(s, t, b.(priority := p, state := Queued, timeRun := 0));
      assert QueuesOk(s1);
      AppendKeepsQueues(s1, t);
    }
  }

  /** The run queues are not empty, so there is a thread to dispatch, and it was QUEUED. */
  lemma DispatchKeepsWellFormed<T>(s: Sched<T>, now: int)
    requires QueuesOk(s) && !NoneQueued(s)
    ensures var i := FirstQueue(s.queues);
            i < RUN_QUEUES && s.queues[i][0] in s.tcb && s.tcb[s.queues[i][0]].state == Queued
    ensures var r := Dispatch(s, now);
            WellFormed(r) && r.tcb.Keys == s.tcb.Keys && r.tcb[r.current].state == Running
  {
    var i := FirstQueue(s.queues);
    var t := s.queues[i][0];
    assert t in s.queues[i];
    var r := Dispatch(s, now);
    forall j, u | 0 <= j < RUN_QUEUES && u in r.queues[j] ensures u in s.queues[j] && u != t {
      if j == i {
        var m :| 0 <= m < |r.queues[i]| && r.queues[i][m] == u;
        assert s.queues[i][m + 1] == u;
      }
    }
  }

  // ---------------------------------------------------------------- what one call does to the states

  /** Every QUEUED thread is in the queue of its priority. */
  ghost predicate QueuedArePlaced<T>(s: Sched<T>) {
    forall t :: t in s.tcb && s.tcb[t].state == Queued ==> InQueue(s, s.tcb[t].priority, t)
  }

  lemma MaintainQueueKeepsPlaces<T>(s: Sched<T>, i: nat, now: int)
    requires QueuesOk(s) && 0 < i < RUN_QUEUES && QueuedArePlaced(s)
    ensures QueuedArePlaced(MaintainQueue(s, i, now))
    ensures NoneQueued(s) ==> NoneQueued(MaintainQueue(s, i, now))
  {
    MaintainQueueKeepsQueues(s, i, now);
    var r := MaintainQueue(s, i, now);
    var aged := Aged(s, now);
    var q := s.queues[i];
    forall t | t in r.tcb && r.tcb[t].state == Queued ensures InQueue(r, r.tcb[t].priority, t) {
      PassMembers(q, aged, t);
      assert InQueue(s, s.tcb[t].priority, t);
    }
    if NoneQueued(s) {
      assert s.queues[0] + [] == [];
    }
  }

  lemma {:induction false} MaintainFromKeepsPlaces<T>(s: Sched<T>, i: nat, now: int)
    requires QueuesOk(s) && 0 < i <= RUN_QUEUES && QueuedArePlaced(s)
    ensures QueuedArePlaced(MaintainFrom(s, i, now))
    ensures NoneQueued(s) ==> NoneQueued(MaintainFrom(s, i, now))
    decreases RUN_QUEUES - i
  {
    if i < RUN_QUEUES {
      MaintainQueueKeepsQueues(s, i, now);
      MaintainQueueKeepsPlaces(s, i, now);
      MaintainFromKeepsPlaces(MaintainQueue(s, i, now), i + 1, now);
    }
  }

  /** With everything placed, empty run queues mean that no thread is QUEUED. */
  lemma NoneQueuedIffNoState<T>(s: Sched<T>)
    requires QueuesOk(s) && QueuedArePlaced(s)
    ensures NoneQueued(s) <==> forall t :: t in s.tcb ==> s.tcb[t].state != Queued
  {
    if !NoneQueued(s) {
      var i :| 0 <= i < |s.queues| && s.queues[i] != [];
      var t := s.queues[i][0];
      assert t in s.queues[i];
      assert t in s.tcb && s.tcb[t].state == Queued;
    } else {
      forall t | t in s.tcb ensures s.tcb[t].state != Queued {
        var p := s.tcb[t].priority;
        assert s.queues[p] == [];
        assert !InQueue(s, p, t);
      }
    }
  }

  lemma TendKeepsPlaced<T>(s: Sched<T>, now: int)
    requires WellFormed(s) && QueuedArePlaced(s)
    ensures QueuedArePlaced(Tend(s, now))
  {
    if s.cycle + 1 >= MAINTENANCE_THRESHOLD { MaintainFromKeepsPlaces(s.(cycle := 0), 1, now); }
  }

  lemma TendKeepsPlaces<T>(s: Sched<T>, now: int)
    requires WellFormed(s) && QueuedArePlaced(s)
    ensures QueuedArePlaced(Tend(s, now))
    ensures NoneQueued(Tend(s, now)) <==> NoneQueued(s)
  {
    TendKeepsWellFormed(s, now);
    TendKeepsPlaced(s, now);
    SameStatesSameQueued(s, Tend(s, now));
  }

  lemma SameStatesSameQueued<T>(s: Sched<T>, r: Sched<T>)
    requires QueuesOk(s) && QueuedArePlaced(s) && QueuesOk(r) && QueuedArePlaced(r) && SameStates(s, r)
    ensures NoneQueued(r) <==> NoneQueued(s)
  {
    NoneQueuedIffNoState(s);
    NoneQueuedIffNoState(r);
  }

  /**
   * A call changes threads exactly when somebody is queued and the current thread yields,
   * joins, blocks or exits, or has used up its slice.
   */
  lemma SwapsIff<T>(s: Sched<T>, now: int)
    requires WellFormed(s) && QueuedArePlaced(s)
    ensures
      var b := s.tcb[s.current];
      Swaps(s, now) <==>
      !NoneQueued(s) && (b.state != Running || b.timeRun + now - b.timeStart >= (b.priority + 1) * 50000)
  {
    CountedEffect(s, now);
    TendKeepsWellFormed(s, now);
  }

  lemma CountedCurrent<T>(s: Sched<T>, now: int)
    requires WellFormed(s)
    ensures
      var b, c := s.tcb[s.current], Counted(s, now);
      && WellFormed(c) && c.current == s.current
      && c.tcb[c.current] == b.(timeEnd := now, timeRun := b.timeRun + now - b.timeStart)
  {
    TendKeepsWellFormed(s, now);
  }

  lemma SwapUnfolds<T>(s: Sched<T>, now: int)
    requires WellFormed(s) && Swaps(s, now)
    ensures
      var c := Counted(s, now);
      && !NoneQueued(c) && Leaves(c) && QueuesOk(Leave(c)) && !NoneQueued(Leave(c))
      && var l := Leave(c); var i := FirstQueue(l.queues);
         && (i < |l.queues| ==> l.queues[i][0] in l.tcb)
         && Schedule(s, now) == Dispatch(l, now)
  {
    TendKeepsWellFormed(s, now);
    var c := Counted(s, now);
    LeaveKeepsQueues(c);
    DispatchKeepsWellFormed(Leave(c), now);
  }

  lemma WellFormedPriority<T>(s: Sched<T>)
    requires WellFormed(s)
    ensures |s.queues| == RUN_QUEUES && s.current in s.tcb && 0 <= s.tcb[s.current].priority < RUN_QUEUES
  {
  }

  lemma CountedQueues<T>(s: Sched<T>, now: int)
    requires WellFormed(s)
    ensures Counted(s, now).queues == Tend(s, now).queues
  {
  }

  /** Where a current thread that is queued again goes. */
  function BackTo(b: Tcb): int {
    if b.state != Running then b.priority else if b.priority < RUN_QUEUES - 1 then b.priority + 1 else RUN_QUEUES - 1
  }

  /**
   * The thread that leaves is the one dispatched exactly when it is queued again and the
   * queues up to its own are empty after the call's maintenance.
   */
  lemma RedispatchedIff<T>(s: Sched<T>, now: int)
    requires WellFormed(s) && QueuedArePlaced(s) && Swaps(s, now)
    ensures
      var queues, b := Tend(s, now).queues, s.tcb[s.current];
      && |queues| == RUN_QUEUES && 0 <= BackTo(b) < RUN_QUEUES
      && (Schedule(s, now).current == s.current <==>
          b.state != Exited && b.state != Blocked && forall i :: 0 <= i <= BackTo(b) ==> queues[i] == [])
  {
    hide WellFormed, QueuesOk, QueuedArePlaced, Swaps, Schedule, Leaves, Leave, NoneQueued, Counted, FirstQueue, Tend;
    CountedCurrent(s, now);
    CountedQueues(s, now);
    SwapUnfolds(s, now);
    WellFormedPriority(s);
    WellFormedPriority(Counted(s, now));
    FrontAfterLeave(Counted(s, now));
  }

  lemma FrontAfterLeave<T>(c: Sched<T>)
    requires WellFormed(c) && Leaves(c) && !NoneQueued(c)
    ensures
      var l, b := Leave(c), c.tcb[c.current];
      var i := FirstQueue(l.queues);
      && i < |l.queues|
      && (l.queues[i][0] == c.current <==>
          b.state != Exited && b.state != Blocked && forall j :: 0 <= j <= BackTo(b) ==> c.queues[j] == [])
  {
    LeaveKeepsQueues(c);
    var l, b, t := Leave(c), c.tcb[c.current], c.current;
    DispatchKeepsWellFormed(l, 0);
    var i, p := FirstQueue(l.queues), BackTo(b);
    assert forall j :: 0 <= j < RUN_QUEUES ==> t !in c.queues[j];
    if b.state == Exited || b.state == Blocked {
      assert l.queues[i][0] in c.queues[i];
    } else {
      FrontAfterAppend(c.queues, p, t);
    }
  }

  lemma FrontAfterAppend<T>(queues: seq<seq<T>>, p: nat, t: T)
    requires p < |queues| && forall j :: 0 <= j < |queues| ==> t !in queues[j]
    ensures
      var l := queues[p := queues[p] + [t]];
      var i := FirstQueue(l);
      i < |queues| && (l[i][0] == t <==> forall j :: 0 <= j <= p ==> queues[j] == [])
  {
    var l := queues[p := queues[p] + [t]];
    var i := FirstQueue(l);
    assert l[p] != [];
    if j :| 0 <= j <= p && queues[j] != [] {
      assert l[j] != [] && i <= j;
      assert queues[i] != [] && l[i][0] == queues[i][0];
      assert queues[i][0] in queues[i];
    } else {
      assert i == p && l[p] == [t];
    }
  }

  lemma DispatchKeepsPlaces<T>(s: Sched<T>, now: int)
    requires QueuesOk(s) && !NoneQueued(s) && QueuedArePlaced(s)
    ensures QueuedArePlaced(Dispatch(s, now))
    ensures var r := Dispatch(s, now);
            forall t :: t in s.tcb && t != r.current ==> r.tcb[t] == s.tcb[t]
  {
    DispatchKeepsWellFormed(s, now);
    var i := FirstQueue(s.queues);
    var q := s.queues[i];
    var r := Dispatch(s, now);
    forall t | t in r.tcb && r.tcb[t].state == Queued ensures InQueue(r, r.tcb[t].priority, t) {
      assert InQueue(s, s.tcb[t].priority, t);
      if s.tcb[t].priority == i {
        assert q == [q[0]] + q[1..];
        assert t in q[1..];
      }
    }
  }

  /** The schedule call up to its switch: nothing moves between states or out of the queues. */
  ghost function Counted<T>(s: Sched<T>, now: int): (c: Sched<T>)
    requires WellFormed(s)
    ensures WellFormed(c)
  {
    TendKeepsWellFormed(s, now);
    Charge(Tend(s, now), now)
  }

  lemma CountedEffect<T>(s: Sched<T>, now: int)
    requires WellFormed(s) && QueuedArePlaced(s)
    ensures var c := Counted(s, now);
            && QueuedArePlaced(c) && c.current == s.current && c.tcb.Keys == s.tcb.Keys
            && (NoneQueued(c) <==> NoneQueued(s))
            && SameStates(s, c) && SameLives(s, c)
  {
    TendKeepsWellFormed(s, now);
    TendKeepsPlaces(s, now);
    TendEffect(s, now);
    ChargeEffect(Tend(s, now), now);
  }

  lemma TendEffect<T>(s: Sched<T>, now: int)
    requires WellFormed(s)
    ensures SameStates(s, Tend(s, now)) && SameLives(s, Tend(s, now))
  {
    TendKeepsWellFormed(s, now);
  }

  lemma ChargeEffect<T>(s: Sched<T>, now: int)
    requires WellFormed(s) && QueuedArePlaced(s)
    ensures var c := Charge(s, now);
            && QueuedArePlaced(c) && SameStates(s, c) && SameLives(s, c)
            && c.current == s.current && (NoneQueued(c) <==> NoneQueued(s))
  {
    var c := Charge(s, now);
    forall t | t in c.tcb && c.tcb[t].state == Queued ensures InQueue(c, c.tcb[t].priority, t) {
      assert InQueue(s, s.tcb[t].priority, t);
    }
  }

  ghost predicate SameStates<T>(s: Sched<T>, r: Sched<T>) {
    s.tcb.Keys == r.tcb.Keys && forall t :: t in s.tcb ==> r.tcb[t].state == s.tcb[t].state
  }

  /** Birth time and exit value survive every call. */
  ghost predicate SameLives<T>(s: Sched<T>, r: Sched<T>) {
    && s.tcb.Keys == r.tcb.Keys
    && forall t :: t in s.tcb ==> r.tcb[t].retval == s.tcb[t].retval && r.tcb[t].timeLife == s.tcb[t].timeLife
  }

  /** The processor goes from s.current to r.current, who may be the same thread. */
  ghost predicate Handover<T>(s: Sched<T>, r: Sched<T>) {
    && s.tcb.Keys == r.tcb.Keys && s.current in s.tcb && r.current in s.tcb
    && (forall t :: t in s.tcb && t != s.current && t != r.current ==> r.tcb[t].state == s.tcb[t].state)
    && r.tcb[r.current].state == Running
    && var was := s.tcb[s.current].state;
       var left := was == Exited || was == Blocked;
       && (r.current == s.current ==> !left)
       && (r.current != s.current ==>
             s.tcb[r.current].state == Queued && r.tcb[s.current].state == (if left then was else Queued))
  }

  lemma SwapEffect<T>(c: Sched<T>, now: int)
    requires WellFormed(c) && QueuedArePlaced(c) && !NoneQueued(c) && Leaves(c)
    requires QueuesOk(Leave(c)) && !NoneQueued(Leave(c))
    requires var l := Leave(c); l.queues[FirstQueue(l.queues)][0] in l.tcb
    ensures var r := Dispatch(Leave(c), now);
            WellFormed(r) && QueuedArePlaced(r) && Handover(c, r) && SameLives(c, r)
  {
    hide QueuedArePlaced, NoneQueued;
    LeaveKeepsQueues(c);
    LeaveKeepsPlaces(c);
    DispatchKeepsWellFormed(Leave(c), now);
    DispatchKeepsPlaces(Leave(c), now);
  }

  /**
   * The state changes of one call: a swap hands the processor over, anything else
   * leaves every state as it was.
   */
  lemma ScheduleEffect<T>(s: Sched<T>, now: int)
    requires WellFormed(s) && QueuedArePlaced(s)
    ensures var r := Schedule(s, now);
            && WellFormed(r) && QueuedArePlaced(r) && SameLives(s, r)
            && (Swaps(s, now) ==> Handover(s, r))
            && (!Swaps(s, now) ==> r.current == s.current && SameStates(s, r))
  {
    CountedEffect(s, now);
    var c := Counted(s, now);
    if !NoneQueued(c) && Leaves(c) {
      LeaveKeepsQueues(c);
      DispatchKeepsWellFormed(Leave(c), now);
      SwapEffect(c, now);
    } else {
      RestartEffect(c, now);
    }
  }

  lemma RestartEffect<T>(c: Sched<T>, now: int)
    requires WellFormed(c) && QueuedArePlaced(c)
    ensures var r := Restart(c, now);
            WellFormed(r) && QueuedArePlaced(r) && SameStates(c, r) && SameLives(c, r) && r.current == c.current
  {
    var r := Restart(c, now);
    forall t | t in r.tcb && r.tcb[t].state == Queued ensures InQueue(r, r.tcb[t].priority, t) {
      assert InQueue(c, c.tcb[t].priority, t);
    }
  }

  lemma LeaveKeepsPlaces<T>(s: Sched<T>)
    requires WellFormed(s) && Leaves(s) && QueuedArePlaced(s)
    ensures QueuedArePlaced(Leave(s))
    ensures var r := Leave(s);
            && (forall t :: t in s.tcb && t != s.current ==> r.tcb[t] == s.tcb[t])
            && (s.tcb[s.current].state == Exited || s.tcb[s.current].state == Blocked ==> r == s)
            && (s.tcb[s.current].state != Exited && s.tcb[s.current].state != Blocked ==>
                  r.tcb[s.current].state == Queued)
            && r.tcb[s.current].retval == s.tcb[s.current].retval
            && r.tcb[s.current].timeLife == s.tcb[s.current].timeLife
  {
    var r := Leave(s);
    forall t | t in r.tcb && r.tcb[t].state == Queued ensures InQueue(r, r.tcb[t].priority, t) {
      if t != s.current { assert InQueue(s, s.tcb[t].priority, t); }
    }
  }
}
