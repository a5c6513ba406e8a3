/**
 * The thread library as a step system: any number of threads and mutexes, the clock
 * an input of each step. A step is one library call of the current thread up to the
 * point where the processor changes hands, one more round of the loop in lock or join
 * by a thread that got the processor back, or a timer tick.
 *
 * The programs are arbitrary, under three rules: a thread takes mutexes in ascending
 * order (so it never locks one it holds), it unlocks only what it holds, and it exits
 * holding nothing. mtsort.c and mcounter.c both keep them.
 */
module ThreadSystem {
  import opened RunQueues
  import opened SchedulerSpec
  import opened MutexSpec

  type Tid = nat
  type Mid = nat

  /** Where a thread is when it next gets the processor. */
  datatype Mode = User | Acquiring(m: Mid) | JoiningOn(t: Tid) | Done

  /** `held[t]` are the mutexes for which t is between lock's return and unlock. */
  datatype System = System(
    sched: Sched<Tid>,
    mutexes: map<Mid, MutexState<Tid>>,
    mode: map<Tid, Mode>,
    held: map<Tid, set<Mid>>,
    finished: bool)

  datatype Step =
    | Create(t: Tid, now: int)
    | Yield(now: int)
    | Exit(value: int, now: int)
    | Join(t: Tid, now: int)
    | Lock(m: Mid, now: int)
    | Unlock(m: Mid)
    | Resume(now: int)
    | Tick(now: int)

  /** After the scheduler is set up: the main thread runs, the mutexes are initialised. */
  ghost function Init(main: Tid, mutexes: set<Mid>, now: int): System {
    System(
      Sched([[], [], [], [], []], main, map[main := Tcb(0, Running, 0, 0, now, 0, now)], 0),
      map m | m in mutexes :: MutexState(false, []),
      map[main := User], map[main := {}], false)
  }

  ghost predicate Allowed(s: System, step: Step) {
    var cur := s.sched.current;
    && !s.finished && cur in s.mode && cur in s.held
    && match step
       case Create(t, _) => s.mode[cur] == User && t !in s.sched.tcb
       case Yield(_) => s.mode[cur] == User
       case Exit(_, _) => s.mode[cur] == User && s.held[cur] == {}
       case Join(t, _) => s.mode[cur] == User && t in s.sched.tcb
       case Lock(m, _) => s.mode[cur] == User && m in s.mutexes && forall h :: h in s.held[cur] ==> h < m
       case Unlock(m) => s.mode[cur] == User && m in s.held[cur]
       case Resume(_) => s.mode[cur].Acquiring? || s.mode[cur].JoiningOn?
       case Tick(_) => true
  }

  ghost function Next(s: System, step: Step): System
    requires Inv(s) && Allowed(s, step)
  {
    var cur := s.sched.current;
    match step
    case Create(t, now) => CreateStep(s, t, now)
    case Yield(now) => s.(sched := MutexSpec.Yield(s.sched, now))
    case Exit(value, now) => ExitStep(s, value, now)
    case Join(t, now) => TryJoinStep(s.(sched := SetState(s.sched, cur, Joining)), t, now)
    case Lock(m, now) => TryLockStep(s, m, now)
    case Unlock(m) =>
      assert MutexOk(s, m);
      UnlockStep(s, m)
    case Resume(now) =>
      if s.mode[cur].Acquiring? then TryLockStep(s, s.mode[cur].m, now)
      else TryJoinStep(s, s.mode[cur].t, now)
    case Tick(now) => s.(sched := Schedule(s.sched, now))
  }

  ghost function CreateStep(s: System, t: Tid, now: int): System
    requires |s.sched.queues| == RUN_QUEUES
  {
    s.(sched := MutexSpec.Create(s.sched, t, now), mode := s.mode[t := User], held := s.held[t := {}])
  }

  ghost function ExitStep(s: System, value: int, now: int): System
    requires WellFormed(s.sched)
  {
    s.(sched := MutexSpec.Exit(s.sched, value, now), mode := s.mode[s.sched.current := Done],
       finished := NoneQueued(s.sched))
  }

  ghost function UnlockStep(s: System, m: Mid): System
    requires WellFormed(s.sched) && m in s.mutexes && s.sched.current in s.held
    requires forall w :: w in s.mutexes[m].waiters ==> w in s.sched.tcb
  {
    var cur := s.sched.current;
    assert s.mutexes[m].waiters != [] ==> s.mutexes[m].waiters[0] in s.mutexes[m].waiters;
    var (sched, mutex) := MutexSpec.Unlock(s.sched, s.mutexes[m]);
    s.(sched := sched, mutexes := s.mutexes[m := mutex], held := s.held[cur := s.held[cur] - {m}])
  }

  ghost function TryLockStep(s: System, m: Mid, now: int): System
    requires WellFormed(s.sched) && m in s.mutexes && s.sched.current in s.held
  {
    var cur := s.sched.current;
    var (sched, mutex, taken) := TryLock(s.sched, s.mutexes[m], now);
    var r := s.(sched := sched, mutexes := s.mutexes[m := mutex]);
    if taken then r.(mode := s.mode[cur := User], held := s.held[cur := s.held[cur] + {m}])
    else r.(mode := s.mode[cur := Acquiring(m)])
  }

  ghost function TryJoinStep(s: System, t: Tid, now: int): System
    requires WellFormed(s.sched) && t in s.sched.tcb
  {
    var (sched, joined) := TryJoin(s.sched, t, now);
    s.(sched := sched, mode := s.mode[s.sched.current := if joined then User else JoiningOn(t)])
  }

  // ---------------------------------------------------------------- the invariant

  ghost predicate Holds(s: System, t: Tid, m: Mid) {
    t in s.held && m in s.held[t]
  }

  function StateOf(s: System, t: Tid): ThreadState
    requires t in s.sched.tcb
  {
    s.sched.tcb[t].state
  }

  /** Woken by an unlock of m, or preempted, and not yet back at the test of the flag. */
  ghost predicate Woken(s: System, t: Tid, m: Mid) {
    t in s.mode && s.mode[t] == Acquiring(m) && t in s.sched.tcb && StateOf(s, t) != Blocked
  }

  ghost predicate MutexOk(s: System, m: Mid)
    requires m in s.mutexes
  {
    var q := s.mutexes[m].waiters;
    && Distinct(q)
    && (forall w :: w in q ==> w in s.sched.tcb && StateOf(s, w) == Blocked && w in s.mode && s.mode[w] == Acquiring(m))
    && (s.mutexes[m].flag <==> exists t :: Holds(s, t, m))
    && (q != [] ==> s.mutexes[m].flag || exists w :: Woken(s, w, m))
  }

  predicate IsActive(state: ThreadState) {
    state.Running? || state.Yielded? || state.Joining?
  }

  ghost predicate ThreadOk(s: System, t: Tid)
    requires t in s.sched.tcb && t in s.mode && t in s.held
  {
    && s.held[t] <= s.mutexes.Keys
    && (StateOf(s, t) == Exited <==> s.mode[t] == Done)
    && (StateOf(s, t) == Exited ==> s.held[t] == {})
    && (StateOf(s, t) == Blocked ==> s.mode[t].Acquiring?)
    && (s.mode[t].Acquiring? ==>
          && s.mode[t].m in s.mutexes
          && (forall h :: h in s.held[t] ==> h < s.mode[t].m)
          && (StateOf(s, t) == Blocked ==> t in s.mutexes[s.mode[t].m].waiters))
    && (s.mode[t].JoiningOn? ==> s.mode[t].t in s.sched.tcb)
    && (IsActive(StateOf(s, t)) ==> t == s.sched.current)
  }

  ghost predicate Exclusive(s: System) {
    forall t, u, m :: Holds(s, t, m) && Holds(s, u, m) ==> t == u
  }

  /** States, wait queues, modes and held mutexes agree. */
  ghost predicate Linked(s: System) {
    && s.mode.Keys == s.sched.tcb.Keys && s.held.Keys == s.sched.tcb.Keys && s.sched.current in s.sched.tcb
    && (forall m :: m in s.mutexes ==> MutexOk(s, m))
    && (forall t :: t in s.sched.tcb ==> ThreadOk(s, t))
    && Exclusive(s)
  }

  ghost predicate Placed(s: System) {
    WellFormed(s.sched) && QueuedArePlaced(s.sched)
  }

  /** Everything that holds whenever schedule is entered, the current thread marked blocked or not. */
  ghost predicate Consistent(s: System) {
    Placed(s) && Linked(s)
  }

  ghost predicate Inv(s: System) {
    && Consistent(s)
    && StateOf(s, s.sched.current) != Blocked
    && (StateOf(s, s.sched.current) == Exited <==> s.finished)
    && (s.finished ==> forall t :: t in s.sched.tcb ==> StateOf(s, t) == Exited)
  }

  lemma InitInv(main: Tid, mutexes: set<Mid>, now: int)
    ensures Inv(Init(main, mutexes, now))
    ensures
      var s := Init(main, mutexes, now);
      && s.sched.tcb.Keys == {main} && NoneQueued(s.sched) && s.sched.cycle == 0 && s.mutexes.Keys == mutexes
      && (forall m :: m in s.mutexes ==> !s.mutexes[m].flag && s.mutexes[m].waiters == [])
      && var b := s.sched.tcb[main];
         b.state == Running && b.priority == 0 && b.retval == 0 && b.timeRun == 0 && b.timeStart == b.timeLife == now
  {
    var s := Init(main, mutexes, now);
    assert forall t, m :: !Holds(s, t, m);
    forall m | m in s.mutexes ensures MutexOk(s, m) {}
    assert ThreadOk(s, main);
  }

  // ---------------------------------------------------------------- somebody can run

  lemma HolderFacts(s: System, h: Tid, m: Mid)
    requires Consistent(s) && Holds(s, h, m)
    ensures h in s.sched.tcb && m in s.mutexes && StateOf(s, h) != Exited
    ensures StateOf(s, h) == Blocked ==>
              h in s.mode && s.mode[h].Acquiring? && s.mode[h].m in s.mutexes && m < s.mode[h].m &&
              s.mutexes[s.mode[h].m].waiters != []
    ensures IsActive(StateOf(s, h)) ==> h == s.sched.current
  {
    assert ThreadOk(s, h);
  }

  lemma WokenFacts(s: System, t: Tid, m: Mid)
    requires Consistent(s) && Woken(s, t, m)
    ensures StateOf(s, t) == Queued || t == s.sched.current
  {
    assert ThreadOk(s, t);
  }

  lemma AboveShrinks(s: System, m: Mid, m2: Mid)
    requires m < m2 && m2 in s.mutexes
    ensures |set k | k in s.mutexes && k > m2| < |set k | k in s.mutexes && k > m|
  {
    var above, above2 := set k | k in s.mutexes && k > m, set k | k in s.mutexes && k > m2;
    assert above2 <= above - {m2};
    Cardinality(above2, above - {m2});
  }

  lemma {:induction false} Cardinality(a: set<nat>, b: set<nat>)
    requires a <= b
    ensures |a| <= |b|
  {
    if a != {} {
      var x :| x in a;
      Cardinality(a - {x}, b - {x});
    }
  }

  /**
   * A taken or wanted mutex has a holder or a woken thread; a holder is queued or
   * waits for a higher mutex. The chain ends at a thread in a run queue.
   */
  lemma {:induction false} LeadsToQueued(s: System, m: Mid) returns (t: Tid)
    requires Consistent(s) && m in s.mutexes && (s.mutexes[m].flag || s.mutexes[m].waiters != [])
    requires StateOf(s, s.sched.current) == Blocked || StateOf(s, s.sched.current) == Exited
    requires !Holds(s, s.sched.current, m)
    requires forall k :: k in s.held[s.sched.current] ==> k < m
    ensures t in s.sched.tcb && StateOf(s, t) == Queued
    decreases |set k | k in s.mutexes && k > m|
  {
    hide Placed, ThreadOk, Exclusive;
    assert MutexOk(s, m);
    if s.mutexes[m].flag {
      var h :| Holds(s, h, m);
      HolderFacts(s, h, m);
      if StateOf(s, h) == Queued {
        t := h;
      } else {
        AboveShrinks(s, m, s.mode[h].m);
        t := LeadsToQueued(s, s.mode[h].m);
      }
    } else {
      t :| Woken(s, t, m);
      WokenFacts(s, t, m);
      WokenIsNotLeaving(s, t, m);
    }
  }

  lemma WokenIsNotLeaving(s: System, t: Tid, m: Mid)
    requires Consistent(s) && Woken(s, t, m)
    requires StateOf(s, s.sched.current) == Blocked || StateOf(s, s.sched.current) == Exited
    ensures t != s.sched.current
  {
    assert ThreadOk(s, t);
  }

  // ---------------------------------------------------------------- every step keeps the invariant

  lemma KeepsMutex(s: System, r: System, m: Mid)
    requires m in s.mutexes && m in r.mutexes && MutexOk(s, m) && r.mutexes[m] == s.mutexes[m]
    requires forall u :: Holds(r, u, m) <==> Holds(s, u, m)
    requires forall w :: w in s.mutexes[m].waiters ==>
               w in r.sched.tcb && StateOf(r, w) == Blocked && w in r.mode && r.mode[w] == Acquiring(m)
    requires s.mutexes[m].flag || forall u :: Woken(s, u, m) ==> Woken(r, u, m)
    ensures MutexOk(r, m)
  {
    if s.mutexes[m].flag {
      var t :| Holds(s, t, m);
      assert Holds(r, t, m);
    }
  }

  lemma KeepsExclusive(s: System, r: System)
    requires Exclusive(s)
    requires forall u, m :: Holds(r, u, m) ==> Holds(s, u, m)
    ensures Exclusive(r)
  {
    forall t, u, m | Holds(r, t, m) && Holds(r, u, m) ensures t == u {
      assert Holds(s, t, m) && Holds(s, u, m);
    }
  }

  /** A change of states alone keeps everything linked if it blocks, wakes and ends nobody. */
  lemma StatesMove(s: System, r: System)
    requires Linked(s)
    requires r.mutexes == s.mutexes && r.mode == s.mode && r.held == s.held
    requires r.sched.tcb.Keys == s.sched.tcb.Keys && r.sched.current in r.sched.tcb
    requires forall t :: t in s.sched.tcb ==>
               && (StateOf(r, t) == Blocked <==> StateOf(s, t) == Blocked)
               && (StateOf(r, t) == Exited <==> StateOf(s, t) == Exited)
               && (IsActive(StateOf(r, t)) ==> t == r.sched.current)
    ensures Linked(r)
  {
    forall m | m in r.mutexes ensures MutexOk(r, m) {
      KeepsMutex(s, r, m);
    }
    forall t | t in r.sched.tcb ensures ThreadOk(r, t) {
      assert ThreadOk(s, t);
    }
    KeepsExclusive(s, r);
  }

  /** Calling schedule keeps everything consistent and leaves a thread that can run. */
  lemma RescheduleKeeps(s: System, now: int)
    requires Consistent(s)
    ensures Consistent(s.(sched := Schedule(s.sched, now)))
    ensures !NoneQueued(s.sched) ==>
              var r := s.(sched := Schedule(s.sched, now));
              StateOf(r, r.sched.current) != Blocked && StateOf(r, r.sched.current) != Exited
    ensures NoneQueued(s.sched) ==>
              var r := s.(sched := Schedule(s.sched, now));
              r.sched.current == s.sched.current && SameStates(s.sched, r.sched)
    ensures !NoneQueued(s.sched) && StateOf(s, s.sched.current) == Blocked ==>
              Schedule(s.sched, now).current != s.sched.current
  {
    hide MutexOk, ThreadOk, Exclusive, Schedule;
    ScheduleLeavesRunnable(s.sched, now);
    ScheduleEffect(s.sched, now);
    ActivesAreCurrent(s);
    ScheduleMoves(s.sched, now);
    StatesMove(s, s.(sched := Schedule(s.sched, now)));
  }

  /** With a thread queued, the current one afterwards can run, and is another one if it was blocked. */
  lemma ScheduleLeavesRunnable(s: Sched<Tid>, now: int)
    requires WellFormed(s) && QueuedArePlaced(s)
    ensures
      var r := Schedule(s, now);
      && r.current in r.tcb
      && (!NoneQueued(s) ==> r.tcb[r.current].state != Blocked && r.tcb[r.current].state != Exited)
      && (!NoneQueued(s) && s.tcb[s.current].state == Blocked ==> r.current != s.current)
      && (NoneQueued(s) ==> r.current == s.current && SameStates(s, r))
  {
    SwapsIff(s, now);
    ScheduleEffect(s, now);
  }

  lemma ActivesAreCurrent(s: System)
    requires Linked(s)
    ensures forall t :: t in s.sched.tcb && IsActive(StateOf(s, t)) ==> t == s.sched.current
  {
    forall t | t in s.sched.tcb && IsActive(StateOf(s, t)) ensures t == s.sched.current {
      assert ThreadOk(s, t);
    }
  }

  lemma ScheduleMoves(s: Sched<Tid>, now: int)
    requires WellFormed(s) && QueuedArePlaced(s)
    requires forall t :: t in s.tcb && IsActive(s.tcb[t].state) ==> t == s.current
    ensures var r := Schedule(s, now);
            && r.tcb.Keys == s.tcb.Keys && r.current in r.tcb
            && forall t :: t in s.tcb ==>
               && (r.tcb[t].state == Blocked <==> s.tcb[t].state == Blocked)
               && (r.tcb[t].state == Exited <==> s.tcb[t].state == Exited)
               && (IsActive(r.tcb[t].state) ==> t == r.current)
  {
    ScheduleEffect(s, now);
  }

  /** The current thread goes from one active state to another: yield, join and its end. */
  lemma ActiveMoves(s: System, state: ThreadState)
    requires Consistent(s) && IsActive(StateOf(s, s.sched.current)) && IsActive(state)
    ensures var r := s.(sched := SetState(s.sched, s.sched.current, state));
            Consistent(r) && (NoneQueued(r.sched) <==> NoneQueued(s.sched))
  {
    SetStateKeepsPlaces(s.sched, s.sched.current, state);
    ActiveLinks(s, state);
  }

  lemma ActiveLinks(s: System, state: ThreadState)
    requires Linked(s) && IsActive(StateOf(s, s.sched.current)) && IsActive(state)
    ensures Linked(s.(sched := SetState(s.sched, s.sched.current, state)))
  {
    ActivesAreCurrent(s);
    StatesMove(s, s.(sched := SetState(s.sched, s.sched.current, state)));
  }

  lemma YieldKeeps(s: System, now: int)
    requires Inv(s) && Allowed(s, Yield(now))
    ensures Inv(Next(s, Yield(now)))
  {
    CurrentIsActive(s);
    ActiveMoves(s, Yielded);
    RescheduleKeeps(s.(sched := SetState(s.sched, s.sched.current, Yielded)), now);
  }

  lemma CurrentIsActive(s: System)
    requires Inv(s) && !s.finished
    ensures IsActive(StateOf(s, s.sched.current))
  {
  }

  lemma TickKeeps(s: System, now: int)
    requires Inv(s) && Allowed(s, Tick(now))
    ensures Inv(Next(s, Tick(now)))
  {
    RescheduleKeeps(s, now);
  }

  lemma CreatePlaces(s: Sched<Tid>, t: Tid, now: int)
    requires WellFormed(s) && QueuedArePlaced(s) && t !in s.tcb
    ensures var r := MutexSpec.Create(s, t, now);
            WellFormed(r) && QueuedArePlaced(r) && r.current == s.current
  {
    var b := SetTcb(s, t, Tcb(0, Queued, 0, 0, 0, 0, now));
    assert forall i :: 0 <= i < RUN_QUEUES ==> t !in s.queues[i];
    AppendKeepsQueues(b, t);
    var r := MutexSpec.Create(s, t, now);
    forall u | u in r.tcb && r.tcb[u].state == Queued ensures InQueue(r, r.tcb[u].priority, u) {
      if u != t { assert InQueue(s, s.tcb[u].priority, u); }
    }
  }

  lemma CreateLinks(s: System, r: System, t: Tid)
    requires Linked(s) && t !in s.sched.tcb
    requires r.sched.tcb.Keys == s.sched.tcb.Keys + {t} && r.sched.current == s.sched.current
    requires forall u :: u in s.sched.tcb ==> r.sched.tcb[u] == s.sched.tcb[u]
    requires StateOf(r, t) == Queued
    requires r.mutexes == s.mutexes && r.mode == s.mode[t := User] && r.held == s.held[t := {}]
    ensures Linked(r)
  {
    hide Exclusive, MutexOk, ThreadOk;
    forall m | m in r.mutexes ensures MutexOk(r, m) {
      assert MutexOk(s, m);
      CreateKeepsMutex(s, r, t, m);
    }
    forall u | u in r.sched.tcb ensures ThreadOk(r, u) {
      if u == t { CreatedIsOk(r, t); } else { CreateKeepsThread(s, r, t, u); }
    }
    KeepsExclusive(s, r);
  }

  lemma CreateKeepsMutex(s: System, r: System, t: Tid, m: Mid)
    requires m in s.mutexes && MutexOk(s, m) && t !in s.sched.tcb && t !in s.held && t !in s.mode
    requires t in r.sched.tcb && forall u :: u in s.sched.tcb ==> u in r.sched.tcb && r.sched.tcb[u] == s.sched.tcb[u]
    requires r.mutexes == s.mutexes && r.mode == s.mode[t := User] && r.held == s.held[t := {}]
    ensures MutexOk(r, m)
  {
    KeepsMutex(s, r, m);
  }

  lemma CreatedIsOk(r: System, t: Tid)
    requires t in r.sched.tcb && StateOf(r, t) == Queued
    requires t in r.mode && r.mode[t] == User && t in r.held && r.held[t] == {}
    ensures ThreadOk(r, t)
  {
  }

  lemma CreateKeepsThread(s: System, r: System, t: Tid, u: Tid)
    requires u in s.sched.tcb && u in s.mode && u in s.held && ThreadOk(s, u) && u != t
    requires forall v :: v in s.sched.tcb ==> v in r.sched.tcb && r.sched.tcb[v] == s.sched.tcb[v]
    requires r.sched.current == s.sched.current
    requires r.mutexes == s.mutexes && r.mode == s.mode[t := User] && r.held == s.held[t := {}]
    ensures ThreadOk(r, u)
  {
  }

  lemma CreateKeeps(s: System, t: Tid, now: int)
    requires Inv(s) && Allowed(s, Create(t, now))
    ensures Inv(Next(s, Create(t, now)))
  {
    CreatePlaces(s.sched, t, now);
    CreateLinks(s, Next(s, Create(t, now)), t);
  }

  ghost function Left(s: System, value: int): System
    requires s.sched.current in s.sched.tcb
  {
    s.(sched := Leaving(s.sched, value), mode := s.mode[s.sched.current := Done])
  }

  lemma LeavingPlaces(s: Sched<Tid>, value: int)
    requires WellFormed(s) && QueuedArePlaced(s)
    ensures WellFormed(Leaving(s, value)) && QueuedArePlaced(Leaving(s, value))
    ensures NoneQueued(Leaving(s, value)) <==> NoneQueued(s)
  {
    var r := Leaving(s, value);
    forall u | u in r.tcb && r.tcb[u].state == Queued ensures InQueue(r, r.tcb[u].priority, u) {
      assert InQueue(s, s.tcb[u].priority, u);
    }
  }

  lemma LeavingLinks(s: System, value: int)
    requires Linked(s) && s.mode[s.sched.current] == User && s.held[s.sched.current] == {}
    requires IsActive(StateOf(s, s.sched.current))
    ensures Linked(Left(s, value))
  {
    hide Exclusive;
    var r := Left(s, value);
    forall m | m in r.mutexes ensures MutexOk(r, m) {
      assert MutexOk(s, m);
      KeepsMutex(s, r, m);
    }
    forall u | u in r.sched.tcb ensures ThreadOk(r, u) {
      assert ThreadOk(s, u);
    }
    KeepsExclusive(s, r);
  }

  lemma LeavingKeeps(s: System, value: int, now: int)
    requires Inv(s) && Allowed(s, Exit(value, now))
    ensures Consistent(Left(s, value))
    ensures NoneQueued(Left(s, value).sched) <==> NoneQueued(s.sched)
  {
    CurrentIsActive(s);
    LeavingPlaces(s.sched, value);
    LeavingLinks(s, value);
  }

  /** If the leaving thread finds the run queues empty, every other thread has exited. */
  lemma LastOneOut(s: System, t: Tid)
    requires Consistent(s) && StateOf(s, s.sched.current) == Exited && NoneQueued(s.sched)
    requires t in s.sched.tcb
    ensures StateOf(s, t) == Exited
  {
    NoneQueuedIffNoState(s.sched);
    assert ThreadOk(s, t) && ThreadOk(s, s.sched.current);
    if StateOf(s, t) == Blocked {
      var u := LeadsToQueued(s, s.mode[t].m);
      assert false;
    }
  }

  lemma ExitKeeps(s: System, value: int, now: int)
    requires Inv(s) && Allowed(s, Exit(value, now))
    ensures Inv(Next(s, Exit(value, now)))
  {
    var b := Left(s, value);
    LeavingKeeps(s, value, now);
    RescheduleKeeps(b, now);
    var r := Next(s, Exit(value, now));
    assert r.sched == b.(sched := Schedule(b.sched, now)).sched;
    if NoneQueued(s.sched) {
      forall t | t in r.sched.tcb ensures StateOf(r, t) == Exited {
        LastOneOut(b, t);
      }
    }
    ActivesAreCurrent(b.(sched := r.sched));
    StatesMove(b.(sched := r.sched), r);
  }

  // lock

  ghost function Waiting(s: System, m: Mid): System
    requires m in s.mutexes && s.sched.current in s.sched.tcb
  {
    var cur := s.sched.current;
    s.(sched := SetState(s.sched, cur, Blocked),
       mutexes := s.mutexes[m := s.mutexes[m].(waiters := s.mutexes[m].waiters + [cur])],
       mode := s.mode[cur := Acquiring(m)])
  }

  /** What lets the current thread try mutex m: the ascending order, and nothing else in progress. */
  ghost predicate MayTry(s: System, m: Mid) {
    && Inv(s) && !s.finished && m in s.mutexes
    && (s.mode[s.sched.current] == User || s.mode[s.sched.current] == Acquiring(m))
    && forall h :: h in s.held[s.sched.current] ==> h < m
  }

  lemma WaitingLinks(s: System, m: Mid)
    requires Linked(s) && m in s.mutexes && s.mutexes[m].flag && IsActive(StateOf(s, s.sched.current))
    requires s.mode[s.sched.current] == User || s.mode[s.sched.current] == Acquiring(m)
    requires forall h :: h in s.held[s.sched.current] ==> h < m
    ensures Linked(Waiting(s, m))
  {
    var r := Waiting(s, m);
    forall k | k in r.mutexes ensures MutexOk(r, k) {
      assert MutexOk(s, k);
      WaitingMutex(s, m, k);
    }
    forall u | u in r.sched.tcb ensures ThreadOk(r, u) {
      assert ThreadOk(s, u);
      WaitingThread(s, m, u);
    }
    KeepsExclusive(s, r);
  }

  lemma WaitingMutex(s: System, m: Mid, k: Mid)
    requires s.sched.current in s.sched.tcb && s.sched.current in s.mode
    requires m in s.mutexes && s.mutexes[m].flag && IsActive(StateOf(s, s.sched.current))
    requires s.mode[s.sched.current] == User || s.mode[s.sched.current] == Acquiring(m)
    requires k in s.mutexes && MutexOk(s, k)
    ensures MutexOk(Waiting(s, m), k)
  {
    var r := Waiting(s, m);
    if k == m {
      var t :| Holds(s, t, m);
      assert Holds(r, t, m);
    } else {
      KeepsMutex(s, r, k);
    }
  }

  lemma WaitingThread(s: System, m: Mid, u: Tid)
    requires s.sched.current in s.sched.tcb && u in s.sched.tcb && u in s.mode && u in s.held
    requires m in s.mutexes && IsActive(StateOf(s, s.sched.current)) && ThreadOk(s, u)
    requires u == s.sched.current ==> forall h :: h in s.held[u] ==> h < m
    ensures ThreadOk(Waiting(s, m), u)
  {
  }

  lemma WaitingKeeps(s: System, m: Mid)
    requires MayTry(s, m) && s.mutexes[m].flag
    ensures Consistent(Waiting(s, m))
    ensures NoneQueued(Waiting(s, m).sched) <==> NoneQueued(s.sched)
  {
    SetStateKeepsPlaces(s.sched, s.sched.current, Blocked);
    CurrentIsActive(s);
    WaitingLinks(s, m);
  }

  /** A thread that finds the mutex taken always finds another thread to run. */
  lemma BlockingFindsQueued(s: System, m: Mid)
    requires MayTry(s, m) && s.mutexes[m].flag
    ensures !NoneQueued(s.sched)
  {
    var b := Waiting(s, m);
    WaitingKeeps(s, m);
    assert !Holds(b, b.sched.current, m);
    var t := LeadsToQueued(b, m);
    NoneQueuedIffNoState(b.sched);
  }

  ghost function Taken(s: System, m: Mid): System
    requires m in s.mutexes && s.sched.current in s.held
  {
    var cur := s.sched.current;
    s.(mutexes := s.mutexes[m := s.mutexes[m].(flag := true)],
       mode := s.mode[cur := User], held := s.held[cur := s.held[cur] + {m}])
  }

  lemma TakingLinks(s: System, m: Mid)
    requires Linked(s) && m in s.mutexes && !s.mutexes[m].flag && IsActive(StateOf(s, s.sched.current))
    requires s.mode[s.sched.current] == User || s.mode[s.sched.current] == Acquiring(m)
    ensures Linked(Taken(s, m))
  {
    var r := Taken(s, m);
    NobodyHolds(s, m);
    forall k | k in r.mutexes ensures MutexOk(r, k) {
      assert MutexOk(s, k);
      if k == m { TakenMutex(s, m); } else { TakingKeepsOther(s, m, k); }
    }
    forall u | u in r.sched.tcb ensures ThreadOk(r, u) {
      assert ThreadOk(s, u);
      TakingThread(s, m, u);
    }
    TakingExclusive(s, m);
  }

  lemma NobodyHolds(s: System, m: Mid)
    requires Linked(s) && m in s.mutexes && !s.mutexes[m].flag
    ensures forall u :: !Holds(s, u, m)
  {
    assert MutexOk(s, m);
  }

  lemma TakenMutex(s: System, m: Mid)
    requires m in s.mutexes && MutexOk(s, m) && s.sched.current in s.sched.tcb && s.sched.current in s.held
    requires IsActive(StateOf(s, s.sched.current))
    ensures MutexOk(Taken(s, m), m)
  {
    assert Holds(Taken(s, m), s.sched.current, m);
    assert s.sched.current !in s.mutexes[m].waiters;
  }

  lemma TakingThread(s: System, m: Mid, u: Tid)
    requires m in s.mutexes && u in s.sched.tcb && u in s.mode && u in s.held && s.sched.current in s.held
    requires ThreadOk(s, u)
    requires u == s.sched.current ==> IsActive(StateOf(s, u))
    ensures ThreadOk(Taken(s, m), u)
  {
  }

  lemma TakingKeepsOther(s: System, m: Mid, k: Mid)
    requires m in s.mutexes && s.sched.current in s.sched.tcb && s.sched.current in s.mode && s.sched.current in s.held
    requires IsActive(StateOf(s, s.sched.current))
    requires s.mode[s.sched.current] == User || s.mode[s.sched.current] == Acquiring(m)
    requires k in s.mutexes && k != m && MutexOk(s, k)
    ensures MutexOk(Taken(s, m), k)
  {
    KeepsMutex(s, Taken(s, m), k);
  }

  lemma TakingExclusive(s: System, m: Mid)
    requires Linked(s) && m in s.mutexes && (forall u :: !Holds(s, u, m))
    ensures Exclusive(Taken(s, m))
  {
    var r := Taken(s, m);
    forall u, v, k | Holds(r, u, k) && Holds(r, v, k) ensures u == v {
      if k != m {
        assert Holds(s, u, k) && Holds(s, v, k);
      } else {
        assert !Holds(s, u, m) && !Holds(s, v, m);
      }
    }
  }

  lemma TakingKeeps(s: System, m: Mid, now: int)
    requires MayTry(s, m) && !s.mutexes[m].flag
    ensures Inv(TryLockStep(s, m, now))
  {
    CurrentIsActive(s);
    TakingLinks(s, m);
    assert TryLockStep(s, m, now) == Taken(s, m);
  }

  lemma TryLockKeeps(s: System, m: Mid, now: int)
    requires MayTry(s, m)
    ensures Inv(TryLockStep(s, m, now))
  {
    if s.mutexes[m].flag {
      var b := Waiting(s, m);
      WaitingKeeps(s, m);
      BlockingFindsQueued(s, m);
      RescheduleKeeps(b, now);
      assert TryLockStep(s, m, now) == b.(sched := Schedule(b.sched, now));
    } else {
      TakingKeeps(s, m, now);
    }
  }

  // unlock

  /** What an unlock changes, wherever the scheduler put the woken thread. */
  ghost predicate Unlocks(s: System, r: System, m: Mid)
    requires m in s.mutexes
  {
    var cur := s.sched.current;
    var q := s.mutexes[m].waiters;
    && r.sched.current == cur && r.mode == s.mode
    && cur in s.held && r.held == s.held[cur := s.held[cur] - {m}]
    && r.mutexes == s.mutexes[m := MutexState(false, if q == [] then [] else q[1..])]
    && r.sched.tcb.Keys == s.sched.tcb.Keys
    && forall t :: t in s.sched.tcb ==>
         StateOf(r, t) == if q != [] && t == q[0] then Queued else StateOf(s, t)
  }

  lemma UnlockLinks(s: System, r: System, m: Mid)
    requires Linked(s) && m in s.mutexes && Holds(s, s.sched.current, m) && Unlocks(s, r, m)
    requires s.mode[s.sched.current] == User
    ensures Linked(r)
  {
    hide MutexOk, ThreadOk, Exclusive;
    var q := s.mutexes[m].waiters;
    assert MutexOk(s, m);
    forall u ensures !Holds(r, u, m) {
      assert Holds(r, u, m) ==> Holds(s, u, m);
      OneHolder(s, s.sched.current, u, m);
    }
    forall k | k in r.mutexes ensures MutexOk(r, k) {
      assert MutexOk(s, k);
      if k == m {
        UnlockedMutex(s, r, m);
      } else {
        UnlockKeepsOther(s, r, m, k);
      }
    }
    forall u | u in r.sched.tcb ensures ThreadOk(r, u) {
      assert ThreadOk(s, u) && MutexOk(s, m);
      UnlockKeepsThread(s, r, m, u);
    }
    KeepsExclusive(s, r);
  }

  lemma OneHolder(s: System, t: Tid, u: Tid, m: Mid)
    requires Exclusive(s) && Holds(s, t, m)
    ensures Holds(s, u, m) ==> u == t
  {
  }

  lemma UnlockKeepsOther(s: System, r: System, m: Mid, k: Mid)
    requires m in s.mutexes && k in s.mutexes && k != m && MutexOk(s, k) && MutexOk(s, m) && Unlocks(s, r, m)
    ensures MutexOk(r, k)
  {
    var q := s.mutexes[m].waiters;
    if q != [] { assert q[0] in q && s.mode[q[0]] == Acquiring(m); }
    KeepsMutex(s, r, k);
  }

  lemma UnlockKeepsThread(s: System, r: System, m: Mid, u: Tid)
    requires m in s.mutexes && MutexOk(s, m) && Unlocks(s, r, m)
    requires u in s.sched.tcb && u in s.mode && u in s.held && u in r.held && ThreadOk(s, u)
    requires u == s.sched.current ==> s.mode[u] == User
    ensures ThreadOk(r, u)
  {
    var q := s.mutexes[m].waiters;
    if q != [] {
      assert q[0] in q && q == [q[0]] + q[1..];
      assert u in q && u != q[0] ==> u in q[1..];
    }
  }

  lemma UnlockedMutex(s: System, r: System, m: Mid)
    requires m in s.mutexes && MutexOk(s, m) && Unlocks(s, r, m) && (forall u :: !Holds(r, u, m))
    ensures MutexOk(r, m)
  {
    var q := s.mutexes[m].waiters;
    if q != [] {
      assert q[0] in q && Woken(r, q[0], m);
      forall w | w in q[1..] ensures w in q && w != q[0] {
        var i :| 0 <= i < |q[1..]| && q[1..][i] == w;
        assert q[i + 1] == w;
      }
    }
  }

  lemma UnlockKeeps(s: System, m: Mid)
    requires Inv(s) && Allowed(s, Unlock(m))
    ensures Inv(Next(s, Unlock(m)))
  {
    CurrentIsActive(s);
    assert MutexOk(s, m) && ThreadOk(s, s.sched.current);
    UnlockPlaces(s, m);
    UnlockLinks(s, UnlockStep(s, m), m);
  }

  lemma UnlockPlaces(s: System, m: Mid)
    requires Placed(s) && m in s.mutexes && MutexOk(s, m)
    requires s.sched.current in s.held && IsActive(StateOf(s, s.sched.current))
    ensures Placed(UnlockStep(s, m)) && Unlocks(s, UnlockStep(s, m), m)
  {
    var q := s.mutexes[m].waiters;
    if q != [] {
      assert q[0] in q;
      WakingKeepsPlaces(s.sched, q[0]);
    }
  }

  lemma WakingKeepsPlaces(s: Sched<Tid>, w: Tid)
    requires WellFormed(s) && QueuedArePlaced(s) && w in s.tcb && s.tcb[w].state == Blocked && w != s.current
    ensures var r := Append(SetState(s, w, Queued), w);
            && WellFormed(r) && QueuedArePlaced(r) && r.current == s.current
            && r.tcb == SetState(s, w, Queued).tcb
  {
    var b := SetState(s, w, Queued);
    assert forall i :: 0 <= i < RUN_QUEUES ==> w !in s.queues[i];
    AppendKeepsQueues(b, w);
    var r := Append(b, w);
    forall u | u in r.tcb && r.tcb[u].state == Queued ensures InQueue(r, r.tcb[u].priority, u) {
      if u != w { assert InQueue(s, s.tcb[u].priority, u); }
    }
  }

  // join

  lemma ModeMoves(s: System, mode: Mode)
    requires Consistent(s) && IsActive(StateOf(s, s.sched.current))
    requires mode == User || (mode.JoiningOn? && mode.t in s.sched.tcb)
    requires !s.mode[s.sched.current].Acquiring?
    ensures Consistent(s.(mode := s.mode[s.sched.current := mode]))
  {
    hide Exclusive, WellFormed, QueuedArePlaced;
    var r := s.(mode := s.mode[s.sched.current := mode]);
    forall k | k in r.mutexes ensures MutexOk(r, k) {
      KeepsMutex(s, r, k);
    }
    forall u | u in r.sched.tcb ensures ThreadOk(r, u) {
      assert ThreadOk(s, u);
    }
    KeepsExclusive(s, r);
  }

  lemma TryJoinKeeps(s: System, t: Tid, now: int)
    requires Inv(s) && !s.finished && t in s.sched.tcb && !s.mode[s.sched.current].Acquiring?
    ensures Inv(TryJoinStep(s, t, now))
  {
    var cur := s.sched.current;
    CurrentIsActive(s);
    var joined := StateOf(s, t) == Exited;
    var mode := if joined then User else JoiningOn(t);
    ModeMoves(s, mode);
    var b := s.(mode := s.mode[cur := mode]);
    if joined {
      ActiveMoves(b, Running);
      assert TryJoinStep(s, t, now) == b.(sched := SetState(b.sched, cur, Running));
    } else {
      RescheduleKeeps(b, now);
      assert TryJoinStep(s, t, now) == b.(sched := Schedule(b.sched, now));
    }
  }

  lemma JoinKeeps(s: System, t: Tid, now: int)
    requires Inv(s) && Allowed(s, Join(t, now))
    ensures Inv(Next(s, Join(t, now)))
  {
    CurrentIsActive(s);
    ActiveMoves(s, Joining);
    TryJoinKeeps(s.(sched := SetState(s.sched, s.sched.current, Joining)), t, now);
  }

  lemma StepKeepsInv(s: System, step: Step)
    requires Inv(s) && Allowed(s, step)
    ensures Inv(Next(s, step))
  {
    var cur := s.sched.current;
    assert ThreadOk(s, cur);
    match step
    case Create(t, now) => CreateKeeps(s, t, now);
    case Yield(now) => YieldKeeps(s, now);
    case Exit(value, now) => ExitKeeps(s, value, now);
    case Join(t, now) => JoinKeeps(s, t, now);
    case Lock(m, now) => TryLockKeeps(s, m, now);
    case Unlock(m) => UnlockKeeps(s, m);
    case Resume(now) =>
      if s.mode[cur].Acquiring? {
        TryLockKeeps(s, s.mode[cur].m, now);
      } else {
        TryJoinKeeps(s, s.mode[cur].t, now);
      }
    case Tick(now) => TickKeeps(s, now);
  }

  // ---------------------------------------------------------------- runs

  ghost predicate Feasible(s: System, steps: seq<Step>)
    requires Inv(s)
    decreases |steps|
  {
    steps == [] ||
    (Allowed(s, steps[0]) &&
     (StepKeepsInv(s, steps[0]); Feasible(Next(s, steps[0]), steps[1..])))
  }

  /** The state after a run; that it satisfies Inv is the invariant over all runs. */
  ghost function Run(s: System, steps: seq<Step>): (r: System)
    requires Inv(s) && Feasible(s, steps)
    ensures Inv(r)
    decreases |steps|
  {
    if steps == [] then s
    else
      StepKeepsInv(s, steps[0]);
      Run(Next(s, steps[0]), steps[1..])
  }

  // ---------------------------------------------------------------- main results

  /** The flag is 1 exactly when a thread is between lock's return and unlock, and then only one is. */
  lemma MutualExclusion(s: System, m: Mid)
    requires Inv(s) && m in s.mutexes
    ensures s.mutexes[m].flag <==> exists t :: Holds(s, t, m)
    ensures forall t, u :: Holds(s, t, m) && Holds(s, u, m) ==> t == u
  {
    assert MutexOk(s, m);
  }

  /**
   * No wake-up is lost: if somebody waits for m, either a thread that has not exited
   * holds m, or a thread that is on the processor or in a run queue is about to test the flag.
   */
  lemma NoLostWakeup(s: System, m: Mid)
    requires Inv(s) && m in s.mutexes && s.mutexes[m].waiters != []
    ensures (s.mutexes[m].flag && exists t :: Holds(s, t, m) && t in s.sched.tcb && StateOf(s, t) != Exited) ||
            (exists t :: Woken(s, t, m) &&
               (t == s.sched.current || InQueue(s.sched, s.sched.tcb[t].priority, t)))
  {
    assert MutexOk(s, m);
    if s.mutexes[m].flag {
      var t :| Holds(s, t, m);
      HolderFacts(s, t, m);
    } else {
      var t :| Woken(s, t, m);
      WokenFacts(s, t, m);
    }
  }

  /**
   * destroy refuses a mutex exactly while some thread that has not exited is between lock's
   * return and unlock. A mutex that it lets go may still have threads on its wait queue, but
   * then one that is on the processor or in a run queue is about to take it.
   */
  lemma DestroyRefusedIffHeld(s: System, m: Mid)
    requires Inv(s) && m in s.mutexes
    ensures Destroy(s.mutexes[m]) != 0 <==>
      exists t :: Holds(s, t, m) && t in s.sched.tcb && StateOf(s, t) != Exited
    ensures Destroy(s.mutexes[m]) == 0 && s.mutexes[m].waiters != [] ==>
      exists t :: Woken(s, t, m) && (t == s.sched.current || InQueue(s.sched, s.sched.tcb[t].priority, t))
  {
    MutualExclusion(s, m);
    if s.mutexes[m].flag {
      var t :| Holds(s, t, m);
      HolderFacts(s, t, m);
    } else if s.mutexes[m].waiters != [] {
      NoLostWakeup(s, m);
    }
  }

  /** The mutex a step of the current thread tries to take. */
  ghost predicate Tries(s: System, step: Step, m: Mid)
    requires Inv(s)
  {
    (step.Lock? && step.m == m) ||
    (step.Resume? && s.mode[s.sched.current] == Acquiring(m))
  }

  /**
   * A thread that finds the mutex taken is put on the wait queue once, and another
   * thread gets the processor: it never comes back to the test still on that queue.
   */
  lemma BlockedOnce(s: System, step: Step, m: Mid)
    requires Inv(s) && Allowed(s, step) && Tries(s, step, m) && m in s.mutexes && s.mutexes[m].flag
    ensures var r := Next(s, step);
            var cur := s.sched.current;
            && !NoneQueued(s.sched)
            && r.sched.current != cur
            && cur in r.sched.tcb && StateOf(r, cur) == Blocked
            && m in r.mutexes
            && r.mutexes[m].waiters == s.mutexes[m].waiters + [cur]
            && cur !in s.mutexes[m].waiters
  {
    var cur := s.sched.current;
    assert ThreadOk(s, cur) && MutexOk(s, m);
    BlockingFindsQueued(s, m);
    WaitingKeeps(s, m);
    var b := Waiting(s, m);
    RescheduleKeeps(b, Clock(step));
    ScheduleEffect(b.sched, Clock(step));
    assert Next(s, step) == b.(sched := Schedule(b.sched, Clock(step)));
    StepKeepsInv(s, step);
    SwapsIff(b.sched, Clock(step));
  }

  function Clock(step: Step): int
    requires !step.Unlock?
  {
    step.now
  }

  /** When schedule reports that all threads have finished, every created thread has exited. */
  lemma FinishedMeansAllExited(s: System, value: int, time: int, t: Tid)
    requires Inv(s) && Allowed(s, Exit(value, time)) && NoneQueued(s.sched) && t in s.sched.tcb
    ensures t != s.sched.current ==> StateOf(s, t) == Exited
    ensures s.mode[t] == Done || t == s.sched.current
  {
    LeavingKeeps(s, value, time);
    LastOneOut(Left(s, value), t);
    assert ThreadOk(s, t);
  }

  ghost predicate OnProcessor(s: System, t: Tid)
    requires t in s.sched.tcb
  {
    t == s.sched.current && StateOf(s, t) != Exited
  }

  ghost predicate InRunQueue(s: System, t: Tid) {
    exists i :: InQueue(s.sched, i, t)
  }

  ghost predicate InWaitQueue(s: System, t: Tid) {
    exists m :: m in s.mutexes && t in s.mutexes[m].waiters
  }

  /**
   * Every created thread is in exactly one place: on the processor, in one run queue,
   * in one wait queue, or exited; and once in its queue.
   */
  lemma Partition(s: System, t: Tid)
    requires Inv(s) && t in s.sched.tcb
    ensures (if OnProcessor(s, t) then 1 else 0) + (if InRunQueue(s, t) then 1 else 0) +
            (if InWaitQueue(s, t) then 1 else 0) + (if StateOf(s, t) == Exited then 1 else 0) == 1
    ensures forall i :: InQueue(s.sched, i, t) ==> i == s.sched.tcb[t].priority && Distinct(s.sched.queues[i])
    ensures forall m :: m in s.mutexes && t in s.mutexes[m].waiters ==>
              s.mode[t] == Acquiring(m) && Distinct(s.mutexes[m].waiters)
  {
    assert ThreadOk(s, t);
    forall m | m in s.mutexes ensures MutexOk(s, m) {}
    if StateOf(s, t) == Queued {
      assert InQueue(s.sched, s.sched.tcb[t].priority, t);
    }
    if StateOf(s, t) == Blocked {
      assert t in s.mutexes[s.mode[t].m].waiters;
    }
  }

  /** The processor never sits with a QUEUED or blocked thread, or with one that has exited unfinished business. */
  lemma DispatchedThreadRuns(s: System)
    requires Inv(s) && !s.finished
    ensures s.sched.current in s.sched.tcb && IsActive(StateOf(s, s.sched.current))
    ensures forall i :: !InQueue(s.sched, i, s.sched.current)
  {
  }

  ghost predicate FrozenIn(s: Sched<Tid>, r: Sched<Tid>, t: Tid) {
    t in s.tcb && t in r.tcb && r.tcb[t].state == Exited && r.tcb[t].retval == s.tcb[t].retval
  }

  lemma ScheduleFreezes(s: Sched<Tid>, n: int, t: Tid)
    requires WellFormed(s) && QueuedArePlaced(s) && t in s.tcb && s.tcb[t].state == Exited
    ensures FrozenIn(s, Schedule(s, n), t)
  {
    ScheduleEffect(s, n);
  }

  lemma TryLockFreezes(s: System, m: Mid, n: int, t: Tid)
    requires Placed(s) && m in s.mutexes && s.sched.current in s.held && t in s.sched.tcb
    requires StateOf(s, t) == Exited && t != s.sched.current
    ensures FrozenIn(s.sched, TryLockStep(s, m, n).sched, t)
  {
    var b := SetState(s.sched, s.sched.current, Blocked);
    SetStateKeepsPlaces(s.sched, s.sched.current, Blocked);
    ScheduleFreezes(b, n, t);
  }

  lemma TryJoinFreezes(s: System, u: Tid, n: int, t: Tid)
    requires Placed(s) && u in s.sched.tcb && t in s.sched.tcb
    requires StateOf(s, t) == Exited && t != s.sched.current
    ensures FrozenIn(s.sched, TryJoinStep(s, u, n).sched, t)
  {
    ScheduleFreezes(s.sched, n, t);
  }

  lemma UnlockFreezes(s: System, m: Mid, t: Tid)
    requires Inv(s) && Allowed(s, Unlock(m)) && t in s.sched.tcb && StateOf(s, t) == Exited
    ensures FrozenIn(s.sched, Next(s, Unlock(m)).sched, t)
  {
    assert ThreadOk(s, s.sched.current) && MutexOk(s, m);
  }

  lemma CurrentIsNotExited(s: System, t: Tid)
    requires Inv(s) && !s.finished && t in s.sched.tcb && StateOf(s, t) == Exited
    ensures t != s.sched.current && s.sched.current in s.sched.tcb && StateOf(s, s.sched.current) != Queued
    ensures Placed(s) && s.sched.current in s.held && s.sched.current in s.mode
    ensures
      var mode := s.mode[s.sched.current];
      && (mode.Acquiring? ==> mode.m in s.mutexes) && (mode.JoiningOn? ==> mode.t in s.sched.tcb)
  {
    CurrentIsActive(s);
    assert ThreadOk(s, s.sched.current);
  }

  lemma MarkedPlaces(s: System, state: ThreadState)
    requires Placed(s) && s.sched.current in s.sched.tcb && StateOf(s, s.sched.current) != Queued && state != Queued
    ensures Placed(s.(sched := SetState(s.sched, s.sched.current, state)))
  {
    SetStateKeepsPlaces(s.sched, s.sched.current, state);
  }

  lemma YieldFreezes(s: System, n: int, t: Tid)
    requires Placed(s) && s.sched.current in s.sched.tcb && StateOf(s, s.sched.current) != Queued
    requires t in s.sched.tcb && StateOf(s, t) == Exited && t != s.sched.current
    ensures FrozenIn(s.sched, MutexSpec.Yield(s.sched, n), t)
  {
    hide WellFormed, QueuedArePlaced, Schedule;
    MarkedPlaces(s, Yielded);
    ScheduleFreezes(SetState(s.sched, s.sched.current, Yielded), n, t);
  }

  lemma ExitFreezes(s: System, v: int, n: int, t: Tid)
    requires Inv(s) && Allowed(s, Exit(v, n)) && t in s.sched.tcb && StateOf(s, t) == Exited
    requires t != s.sched.current && s.sched.current in s.sched.tcb
    ensures FrozenIn(s.sched, MutexSpec.Exit(s.sched, v, n), t)
  {
    hide Linked, WellFormed, QueuedArePlaced, Schedule;
    LeavingKeeps(s, v, n);
    ScheduleFreezes(Leaving(s.sched, v), n, t);
  }

  lemma JoinFreezes(s: System, u: Tid, n: int, t: Tid)
    requires Placed(s) && s.sched.current in s.sched.tcb && StateOf(s, s.sched.current) != Queued
    requires u in s.sched.tcb && t in s.sched.tcb && StateOf(s, t) == Exited && t != s.sched.current
    ensures Placed(s.(sched := SetState(s.sched, s.sched.current, Joining)))
    ensures
      FrozenIn(s.sched, TryJoinStep(s.(sched := SetState(s.sched, s.sched.current, Joining)), u, n).sched, t)
  {
    hide WellFormed, QueuedArePlaced, TryJoinStep;
    MarkedPlaces(s, Joining);
    TryJoinFreezes(s.(sched := SetState(s.sched, s.sched.current, Joining)), u, n, t);
  }

  /** An exited thread stays exited and keeps the value it passed to exit. */
  lemma ExitedIsFrozen(s: System, step: Step, t: Tid)
    requires Inv(s) && Allowed(s, step) && t in s.sched.tcb && StateOf(s, t) == Exited
    ensures FrozenIn(s.sched, Next(s, step).sched, t)
  {
    hide Inv, WellFormed, QueuedArePlaced, TryLockStep, TryJoinStep, UnlockStep, MutexSpec.Yield, MutexSpec.Exit;
    var cur := s.sched.current;
    CurrentIsNotExited(s, t);
    match step
    case Create(_, _) =>
    case Unlock(m) => UnlockFreezes(s, m, t);
    case Yield(n) => YieldFreezes(s, n, t);
    case Exit(v, n) => ExitFreezes(s, v, n, t);
    case Join(u, n) => JoinFreezes(s, u, n, t);
    case Tick(n) => ScheduleFreezes(s.sched, n, t);
    case Lock(m, n) => TryLockFreezes(s, m, n, t);
    case Resume(n) =>
      if s.mode[cur].Acquiring? {
        TryLockFreezes(s, s.mode[cur].m, n, t);
      } else {
        TryJoinFreezes(s, s.mode[cur].t, n, t);
      }
  }

  /** So a join, however late, finds the value its thread left. */
  lemma {:induction false} ExitValueSurvives(s: System, steps: seq<Step>, t: Tid)
    requires Inv(s) && Feasible(s, steps) && t in s.sched.tcb && StateOf(s, t) == Exited
    ensures FrozenIn(s.sched, Run(s, steps).sched, t)
    decreases |steps|
  {
    if steps != [] {
      StepKeepsInv(s, steps[0]);
      ExitedIsFrozen(s, steps[0], t);
      ExitValueSurvives(Next(s, steps[0]), steps[1..], t);
    }
  }

  /** Join returns exactly to a caller whose thread has exited. */
  lemma JoinReturnsIffExited(s: System, t: Tid, n: int)
    requires Inv(s) && Allowed(s, Join(t, n))
    ensures Next(s, Join(t, n)).mode[s.sched.current] == User <==>
              StateOf(s, t) == Exited
  {
  }

  // ---------------------------------------------------------------- what a call leaves alone

  /** r differs from s, among modes and held mutexes, at `cur` and the new threads only. */
  ghost predicate LocalTo(s: System, r: System, cur: Tid, created: set<Tid>) {
    && r.mutexes.Keys == s.mutexes.Keys
    && r.sched.tcb.Keys == s.sched.tcb.Keys + created
    && r.mode.Keys == s.mode.Keys + created && r.held.Keys == s.held.Keys + created
    && (forall u :: u in s.mode && u != cur && u !in created ==> r.mode[u] == s.mode[u])
    && (forall u :: u in s.held && u != cur && u !in created ==> r.held[u] == s.held[u])
    && (forall u :: u in created ==> r.mode[u] == User && r.held[u] == {})
  }

  lemma TryLockIsLocal(s: System, m: Mid, n: int)
    requires WellFormed(s.sched) && m in s.mutexes && s.sched.current in s.held && s.sched.current in s.mode
    ensures var r := TryLockStep(s, m, n);
            var cur := s.sched.current;
            && LocalTo(s, r, cur, {})
            && r.mode[cur] == (if s.mutexes[m].flag then Acquiring(m) else User)
            && r.held[cur] == (if s.mutexes[m].flag then s.held[cur] else s.held[cur] + {m})
  {
  }

  lemma TryJoinIsLocal(s: System, t: Tid, n: int)
    requires WellFormed(s.sched) && t in s.sched.tcb && s.sched.current in s.mode && s.sched.current in s.held
    ensures var r := TryJoinStep(s, t, n);
            var cur := s.sched.current;
            && LocalTo(s, r, cur, {})
            && r.mode[cur] == (if StateOf(s, t) == Exited then User else JoiningOn(t))
            && r.held[cur] == s.held[cur]
  {
    CallerMoves(s, TryJoinStep(s, t, n), s.sched.current, if StateOf(s, t) == Exited then User else JoiningOn(t));
  }

  lemma UnlockIsLocal(s: System, m: Mid)
    requires Inv(s) && Allowed(s, Unlock(m))
    ensures var r := Next(s, Unlock(m));
            var cur := s.sched.current;
            && LocalTo(s, r, cur, {})
            && r.mode[cur] == User && r.held[cur] == s.held[cur] - {m}
  {
    assert ThreadOk(s, s.sched.current) && MutexOk(s, m);
    UnlockStepIsLocal(s, m);
  }

  lemma UnlockStepIsLocal(s: System, m: Mid)
    requires WellFormed(s.sched) && m in s.mutexes && s.sched.current in s.held && s.sched.current in s.mode
    requires forall w :: w in s.mutexes[m].waiters ==> w in s.sched.tcb
    ensures var r := UnlockStep(s, m);
            && LocalTo(s, r, s.sched.current, {})
            && r.mode == s.mode && r.held[s.sched.current] == s.held[s.sched.current] - {m}
  {
    var q := s.mutexes[m].waiters;
    if q != [] { assert q[0] in q; }
  }

  lemma LockIsLocal(s: System, m: Mid, n: int)
    requires Inv(s) && Allowed(s, Lock(m, n))
    ensures var r := Next(s, Lock(m, n));
            var cur := s.sched.current;
            && LocalTo(s, r, cur, {})
            && r.mode[cur] == (if s.mutexes[m].flag then Acquiring(m) else User)
            && r.held[cur] == (if s.mutexes[m].flag then s.held[cur] else s.held[cur] + {m})
  {
    TryLockIsLocal(s, m, n);
  }

  lemma ResumedLockIsLocal(s: System, m: Mid, n: int)
    requires Inv(s) && Allowed(s, Resume(n)) && s.mode[s.sched.current] == Acquiring(m)
    ensures m in s.mutexes
    ensures var r := Next(s, Resume(n));
            var cur := s.sched.current;
            && LocalTo(s, r, cur, {})
            && r.mode[cur] == (if s.mutexes[m].flag then Acquiring(m) else User)
            && r.held[cur] == (if s.mutexes[m].flag then s.held[cur] else s.held[cur] + {m})
  {
    assert ThreadOk(s, s.sched.current);
    TryLockIsLocal(s, m, n);
  }

  lemma JoinIsLocal(s: System, t: Tid, n: int)
    requires Inv(s) && Allowed(s, Join(t, n)) && t != s.sched.current
    ensures var r := Next(s, Join(t, n));
            var cur := s.sched.current;
            && LocalTo(s, r, cur, {})
            && r.mode[cur] == (if StateOf(s, t) == Exited then User else JoiningOn(t))
            && r.held[cur] == s.held[cur]
  {
    CurrentIsActive(s);
    JoinStepIsLocal(s, t, n);
  }

  lemma JoinStepIsLocal(s: System, t: Tid, n: int)
    requires WellFormed(s.sched) && t in s.sched.tcb && s.sched.current in s.mode && s.sched.current in s.held
    requires t != s.sched.current
    ensures var r := TryJoinStep(s.(sched := SetState(s.sched, s.sched.current, Joining)), t, n);
            var cur := s.sched.current;
            && LocalTo(s, r, cur, {})
            && r.mode[cur] == (if StateOf(s, t) == Exited then User else JoiningOn(t))
            && r.held[cur] == s.held[cur]
  {
    var b := s.(sched := SetState(s.sched, s.sched.current, Joining));
    TryJoinIsLocal(b, t, n);
  }

  lemma ResumedJoinIsLocal(s: System, t: Tid, n: int)
    requires Inv(s) && Allowed(s, Resume(n)) && s.mode[s.sched.current] == JoiningOn(t)
    ensures t in s.sched.tcb
    ensures var r := Next(s, Resume(n));
            var cur := s.sched.current;
            && LocalTo(s, r, cur, {})
            && r.mode[cur] == (if StateOf(s, t) == Exited then User else JoiningOn(t))
            && r.held[cur] == s.held[cur]
  {
    assert ThreadOk(s, s.sched.current);
    TryJoinIsLocal(s, t, n);
  }

  lemma TickIsLocal(s: System, n: int)
    requires Inv(s) && Allowed(s, Tick(n))
    ensures LocalTo(s, Next(s, Tick(n)), s.sched.current, {})
    ensures var r := Next(s, Tick(n)); r.mode == s.mode && r.held == s.held
  {
    hide Inv, WellFormed, QueuedArePlaced, LocalTo;
    CurrentFacts(s);
    CallerMoves(s, Next(s, Tick(n)), s.sched.current, s.mode[s.sched.current]);
  }

  lemma ExitIsLocal(s: System, v: int, n: int)
    requires Inv(s) && Allowed(s, Exit(v, n))
    ensures LocalTo(s, Next(s, Exit(v, n)), s.sched.current, {})
    ensures var r := Next(s, Exit(v, n));
            r.mode[s.sched.current] == Done && r.held == s.held
  {
    ExitStepIsLocal(s, v, n);
  }

  lemma ExitStepIsLocal(s: System, v: int, n: int)
    requires WellFormed(s.sched) && s.sched.current in s.mode
    ensures LocalTo(s, ExitStep(s, v, n), s.sched.current, {})
  {
    CallerMoves(s, ExitStep(s, v, n), s.sched.current, Done);
  }

  lemma CallerMoves(s: System, r: System, cur: Tid, mode: Mode)
    requires r.mutexes == s.mutexes && r.sched.tcb.Keys == s.sched.tcb.Keys && r.held == s.held
    requires cur in s.mode && r.mode == s.mode[cur := mode]
    ensures LocalTo(s, r, cur, {})
  {
  }

  lemma CreateIsLocal(s: System, t: Tid, n: int)
    requires Inv(s) && Allowed(s, Create(t, n))
    ensures LocalTo(s, Next(s, Create(t, n)), s.sched.current, {t})
    ensures var r := Next(s, Create(t, n)); r.mode == s.mode[t := User] && r.held == s.held[t := {}]
  {
    hide WellFormed, MutexOk, ThreadOk, Exclusive, QueuedArePlaced;
  }

  // ---------------------------------------------------------------- calls of schedule

  /** The step gets as far as schedule. */
  predicate CallsSchedule(s: System, step: Step) {
    var cur := s.sched.current;
    match step
    case Lock(m, _) => m in s.mutexes && s.mutexes[m].flag
    case Join(t, _) => t in s.sched.tcb && StateOf(s, t) != Exited
    case Resume(_) =>
      cur in s.mode &&
      if s.mode[cur].Acquiring? then s.mode[cur].m in s.mutexes && s.mutexes[s.mode[cur].m].flag
      else s.mode[cur].JoiningOn? && s.mode[cur].t in s.sched.tcb && StateOf(s, s.mode[cur].t) != Exited
    case _ => step.Yield? || step.Exit? || step.Tick?
  }

  /** The scheduler as schedule finds it. */
  function AtSchedule(s: System, step: Step): Sched<Tid>
    requires s.sched.current in s.sched.tcb
  {
    var cur := s.sched.current;
    match step
    case Yield(_) => SetState(s.sched, cur, Yielded)
    case Exit(value, _) => Leaving(s.sched, value)
    case Lock(_, _) => SetState(s.sched, cur, Blocked)
    case Join(_, _) => SetState(s.sched, cur, Joining)
    case Resume(_) =>
      if cur in s.mode && s.mode[cur].Acquiring? then SetState(s.sched, cur, Blocked) else s.sched
    case _ => s.sched
  }

  lemma AtScheduleOk(s: System, step: Step)
    requires Inv(s)
    ensures s.sched.current in s.sched.tcb
    ensures
      var e := AtSchedule(s, step);
      WellFormed(e) && QueuedArePlaced(e) && e.current == s.sched.current && e.cycle == s.sched.cycle
  {
    hide MutexOk, Exclusive;
    var cur := s.sched.current;
    assert ThreadOk(s, cur);
    assert WellFormed(s.sched) && QueuedArePlaced(s.sched);
    CurrentNotQueued(s.sched);
    AtScheduleKeeps(s, step);
  }

  lemma CurrentNotQueued(s: Sched<Tid>)
    requires WellFormed(s)
    ensures s.current in s.tcb && s.tcb[s.current].state != Queued
  {
  }

  lemma AtScheduleKeeps(s: System, step: Step)
    requires WellFormed(s.sched) && QueuedArePlaced(s.sched)
    requires s.sched.current in s.sched.tcb && s.sched.tcb[s.sched.current].state != Queued
    ensures
      var e := AtSchedule(s, step);
      WellFormed(e) && QueuedArePlaced(e) && e.current == s.sched.current && e.cycle == s.sched.cycle
  {
    hide WellFormed, QueuedArePlaced, NoneQueued;
    var cur := s.sched.current;
    SetStateKeepsPlaces(s.sched, cur, Yielded);
    SetStateKeepsPlaces(s.sched, cur, Blocked);
    SetStateKeepsPlaces(s.sched, cur, Joining);
    if step.Exit? {
      LeavingPlaces(s.sched, step.value);
    }
  }

  lemma LockRuns(s: System, m: Mid, now: int)
    requires WellFormed(s.sched) && m in s.mutexes && s.sched.current in s.held
    ensures WellFormed(SetState(s.sched, s.sched.current, Blocked))
    ensures
      TryLockStep(s, m, now).sched ==
      if s.mutexes[m].flag then Schedule(SetState(s.sched, s.sched.current, Blocked), now) else s.sched
  {
    hide Schedule, NoneQueued;
  }

  lemma JoinRuns(s: System, t: Tid, now: int)
    requires WellFormed(s.sched) && t in s.sched.tcb
    ensures
      TryJoinStep(s, t, now).sched ==
      if s.sched.tcb[t].state != Exited then Schedule(s.sched, now) else SetState(s.sched, s.sched.current, Running)
  {
    hide Schedule, WellFormed, NoneQueued;
  }

  lemma UnlockRuns(s: System, m: Mid)
    requires WellFormed(s.sched) && m in s.mutexes && s.sched.current in s.held
    requires forall w :: w in s.mutexes[m].waiters ==> w in s.sched.tcb
    ensures UnlockStep(s, m).sched.current == s.sched.current && UnlockStep(s, m).sched.cycle == s.sched.cycle
  {
  }

  lemma CurrentFacts(s: System)
    requires Inv(s)
    ensures WellFormed(s.sched) && QueuedArePlaced(s.sched)
    ensures s.sched.current in s.sched.tcb && s.sched.current in s.mode
    ensures s.sched.current in s.held && s.held[s.sched.current] <= s.mutexes.Keys
    ensures
      var mode := s.mode[s.sched.current];
      && (mode.Acquiring? ==> mode.m in s.mutexes) && (mode.JoiningOn? ==> mode.t in s.sched.tcb)
  {
    hide WellFormed, QueuedArePlaced, MutexOk, Exclusive;
    assert ThreadOk(s, s.sched.current);
  }

  lemma ResumeMayTry(s: System)
    requires Inv(s) && !s.finished && s.sched.current in s.mode && s.mode[s.sched.current].Acquiring?
    ensures MayTry(s, s.mode[s.sched.current].m)
  {
    hide WellFormed, QueuedArePlaced, MutexOk, Exclusive;
    assert ThreadOk(s, s.sched.current);
  }

  lemma WaitersKnown(s: System, m: Mid)
    requires Inv(s) && m in s.mutexes
    ensures forall w :: w in s.mutexes[m].waiters ==> w in s.sched.tcb
  {
    hide WellFormed, QueuedArePlaced, ThreadOk, Exclusive;
    assert MutexOk(s, m);
  }

  /** After a step that gets as far as schedule the scheduler is what schedule made of it. */
  lemma CallRuns(s: System, step: Step)
    requires Inv(s) && Allowed(s, step)
    ensures WellFormed(AtSchedule(s, step))
    ensures CallsSchedule(s, step) ==> Next(s, step).sched == Schedule(AtSchedule(s, step), step.now)
    ensures !CallsSchedule(s, step) ==>
              Next(s, step).sched.current == s.sched.current && Next(s, step).sched.cycle == s.sched.cycle
  {
    hide Inv, WellFormed, QueuedArePlaced, Schedule, TryLockStep, TryJoinStep,
      NoneQueued, UnlockStep;
    AtScheduleOk(s, step);
    CurrentFacts(s);
    var cur := s.sched.current;
    match step
    case Create(t, now) =>
    case Yield(now) =>
    case Exit(value, now) =>
    case Tick(now) =>
    case Lock(m, now) => LockRuns(s, m, now);
    case Join(t, now) =>
      CurrentIsActive(s);
      JoinRuns(s.(sched := SetState(s.sched, cur, Joining)), t, now);
    case Unlock(m) =>
      WaitersKnown(s, m);
      UnlockRuns(s, m);
    case Resume(now) =>
      if s.mode[cur].Acquiring? { LockRuns(s, s.mode[cur].m, now); } else { JoinRuns(s, s.mode[cur].t, now); }
  }
}
