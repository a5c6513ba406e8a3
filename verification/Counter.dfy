/**
 * mcounter.c on the thread system: main creates the counter threads and joins them;
 * each counter thread adds one to the shared c, iters times, under one mutex, in three
 * separate steps (load, add, store). A tick may preempt anybody between any two steps.
 */
module Counter {
  import opened RunQueues
  import opened SchedulerSpec
  import opened ThreadSystem

  const LOCK: Mid := 0

  datatype Line = Head | Locking | Load | Add | Store | Unlocking | Gone

  /** `i` and `temp` are the local variables of counter. */
  datatype Worker = Worker(line: Line, i: nat, temp: int)

  /** `ids` are the threads main has created, in order; it has joined the first `joined`. */
  datatype Program = Program(
    sys: System, c: int, workers: map<Tid, Worker>,
    main: Tid, ids: seq<Tid>, joined: nat, numThreads: nat, iters: nat)

  ghost function Init(main: Tid, numThreads: nat, iters: nat, now: int): Program {
    Program(ThreadSystem.Init(main, {LOCK}, now), 0, map[], main, [], 0, numThreads, iters)
  }

  /** The current thread takes its next program step (`newThread` is where main puts a new thread), or a tick comes. */
  datatype Event = Turn(now: int, newThread: Tid) | Tick(now: int)

  /** The library call of the current thread's next program step, if it makes one. */
  ghost function Call(p: Program, e: Event): (step: Step)
    requires Inv(p) && Enabled(p, e) && CallsLibrary(p, e)
    ensures Allowed(p.sys, step)
  {
    var cur := p.sys.sched.current;
    assert ThreadOk(p.sys, cur) && ThreadOk(p.sys, p.main);
    if e.Tick? then Step.Tick(e.now)
    else if cur == p.main then
      if |p.ids| < p.numThreads then Create(e.newThread, e.now)
      else
        assert p.ids[p.joined] in p.workers;
        if p.sys.mode[cur] == User then Join(p.ids[p.joined], e.now) else Resume(e.now)
    else
      assert WorkerOk(p, cur);
      match p.workers[cur].line
      case Head => if p.workers[cur].i < p.iters then Lock(LOCK, e.now) else Exit(0, e.now)
      case Locking => Resume(e.now)
      case _ => Unlock(LOCK)
  }

  ghost predicate CallsLibrary(p: Program, e: Event) {
    e.Turn? && p.sys.sched.current in p.workers ==>
      !p.workers[p.sys.sched.current].line.Load? && !p.workers[p.sys.sched.current].line.Add? &&
      !p.workers[p.sys.sched.current].line.Store?
  }

  /** Main stops at its print; everything else always has a next step. */
  ghost predicate Enabled(p: Program, e: Event) {
    && !Printing(p)
    && (e.Turn? && p.sys.sched.current == p.main && |p.ids| < p.numThreads ==> e.newThread !in p.sys.sched.tcb)
  }

  ghost predicate Printing(p: Program) {
    |p.ids| == p.numThreads && p.joined == p.numThreads
  }

  ghost function Next(p: Program, e: Event): Program
    requires Inv(p) && Enabled(p, e)
  {
    var cur := p.sys.sched.current;
    if !CallsLibrary(p, e) then ComputeStep(p, cur)
    else
      ModeStays(p.sys, Call(p, e), cur);
      var r := p.(sys := ThreadSystem.Next(p.sys, Call(p, e)));
      if e.Tick? then r
      else if cur == p.main then
        if |p.ids| < p.numThreads then
          r.(ids := p.ids + [e.newThread], workers := p.workers[e.newThread := Worker(Head, 0, 0)])
        else
          r.(joined := p.joined + (if r.sys.mode[cur] == User then 1 else 0))
      else
        r.(workers := p.workers[cur := AfterCall(p.workers[cur], p.iters, r.sys.mode[cur])])
  }

  lemma ModeStays(sys: System, step: Step, t: Tid)
    requires ThreadSystem.Inv(sys) && Allowed(sys, step) && t in sys.mode
    ensures t in ThreadSystem.Next(sys, step).mode
  {
    hide ThreadSystem.Inv, NoneQueued, Schedule;
  }

  /** lock returns when the thread is back in user mode; unlock ends the iteration. */
  function AfterCall(w: Worker, iters: nat, mode: Mode): Worker {
    match w.line
    case Head => if w.i < iters then w.(line := if mode == User then Load else Locking) else w.(line := Gone)
    case Locking => w.(line := if mode == User then Load else Locking)
    case Unlocking => Worker(Head, w.i + 1, w.temp)
    case _ => w
  }

  ghost function ComputeStep(p: Program, t: Tid): Program
    requires t in p.workers
  {
    var w := p.workers[t];
    match w.line
    case Load => p.(workers := p.workers[t := Worker(Add, w.i, p.c)])
    case Add => p.(workers := p.workers[t := Worker(Store, w.i, w.temp + 1)])
    case Store => p.(c := w.temp, workers := p.workers[t := Worker(Unlocking, w.i, w.temp)])
    case _ => p
  }

  // ---------------------------------------------------------------- the invariant

  predicate Inside(line: Line) {
    line.Load? || line.Add? || line.Store? || line.Unlocking?
  }

  /** The additions a worker has stored. */
  function Stored(w: Worker): nat {
    w.i + (if w.line.Unlocking? then 1 else 0)
  }

  function Total(ids: seq<Tid>, workers: map<Tid, Worker>): nat
    requires forall t :: t in ids ==> t in workers
  {
    if ids == [] then 0 else Stored(workers[ids[0]]) + Total(ids[1..], workers)
  }

  ghost predicate WorkerOk(p: Program, t: Tid)
    requires t in p.workers
  {
    var w := p.workers[t];
    && t in p.sys.mode && t in p.sys.held
    && p.sys.held[t] == (if Inside(w.line) then {LOCK} else {})
    && p.sys.mode[t] == (if w.line.Locking? then Acquiring(LOCK) else if w.line.Gone? then Done else User)
    && (w.line.Add? ==> w.temp == p.c)
    && (w.line.Store? ==> w.temp == p.c + 1)
    && w.i <= p.iters
    && (w.line.Gone? ==> w.i == p.iters)
    && (Inside(w.line) || w.line.Locking? ==> w.i < p.iters)
  }

  ghost predicate MainOk(p: Program) {
    && p.main in p.sys.mode && p.main in p.sys.held && p.main !in p.workers
    && p.sys.held[p.main] == {}
    && |p.ids| <= p.numThreads && p.joined <= |p.ids|
    && (p.joined > 0 ==> |p.ids| == p.numThreads)
    && (p.sys.mode[p.main] == User ||
        (|p.ids| == p.numThreads && p.joined < p.numThreads && p.sys.mode[p.main] == JoiningOn(p.ids[p.joined])))
    && (forall j :: 0 <= j < p.joined ==> p.ids[j] in p.workers && p.workers[p.ids[j]].line == Gone)
  }

  ghost predicate Inv(p: Program) {
    ThreadSystem.Inv(p.sys) && Linked(p)
  }

  /** The program counters, the modes and the count agree. */
  ghost predicate Linked(p: Program) {
    && LOCK in p.sys.mutexes
    && p.sys.sched.tcb.Keys == {p.main} + p.workers.Keys
    && Distinct(p.ids) && (forall t :: t in p.ids <==> t in p.workers)
    && MainOk(p)
    && (forall t :: t in p.workers ==> WorkerOk(p, t))
    && p.c == Total(p.ids, p.workers)
  }

  lemma InitInv(main: Tid, numThreads: nat, iters: nat, now: int)
    ensures Inv(Init(main, numThreads, iters, now))
  {
    ThreadSystem.InitInv(main, {LOCK}, now);
  }

  // ---------------------------------------------------------------- every step keeps the invariant

  lemma {:induction false} TotalOfOthers(ids: seq<Tid>, workers: map<Tid, Worker>, t: Tid, w: Worker)
    requires forall u :: u in ids ==> u in workers
    requires t !in ids
    ensures Total(ids, workers[t := w]) == Total(ids, workers)
  {
    if ids != [] { TotalOfOthers(ids[1..], workers, t, w); }
  }

  lemma {:induction false} TotalUpdates(ids: seq<Tid>, workers: map<Tid, Worker>, t: Tid, w: Worker)
    requires forall u :: u in ids ==> u in workers
    requires t in ids && Distinct(ids)
    ensures Total(ids, workers[t := w]) == Total(ids, workers) - Stored(workers[t]) + Stored(w)
  {
    if ids[0] == t {
      TotalOfOthers(ids[1..], workers, t, w);
    } else {
      TotalUpdates(ids[1..], workers, t, w);
    }
  }

  lemma {:induction false} TotalAppends(ids: seq<Tid>, workers: map<Tid, Worker>, t: Tid)
    requires forall u :: u in ids + [t] ==> u in workers
    ensures Total(ids + [t], workers) == Total(ids, workers) + Stored(workers[t])
  {
    if ids == [] {
      assert ids + [t] == [t];
      assert [t][1..] == [];
    } else {
      assert (ids + [t])[1..] == ids[1..] + [t];
      TotalAppends(ids[1..], workers, t);
    }
  }

  lemma TickLinks(p: Program, sys: System)
    requires Linked(p) && LocalTo(p.sys, sys, p.sys.sched.current, {})
    requires sys.mode == p.sys.mode && sys.held == p.sys.held
    ensures Linked(p.(sys := sys))
  {
    forall t | t in p.workers ensures WorkerOk(p.(sys := sys), t) { assert WorkerOk(p, t); }
  }

  lemma TickKeeps(p: Program, e: Event)
    requires Inv(p) && Enabled(p, e) && e.Tick?
    ensures Inv(Next(p, e))
  {
    StepKeepsInv(p.sys, Call(p, e));
    TickIsLocal(p.sys, e.now);
    TickLinks(p, Next(p, e).sys);
  }

  lemma CreateLinks(p: Program, sys: System, t: Tid)
    requires Linked(p) && |p.ids| < p.numThreads && t !in p.sys.sched.tcb
    requires LocalTo(p.sys, sys, p.sys.sched.current, {t})
    requires sys.mode == p.sys.mode[t := User] && sys.held == p.sys.held[t := {}]
    ensures Linked(p.(sys := sys, ids := p.ids + [t], workers := p.workers[t := Worker(Head, 0, 0)]))
  {
    hide WorkerOk, Total, Distinct;
    var r := p.(sys := sys, ids := p.ids + [t], workers := p.workers[t := Worker(Head, 0, 0)]);
    forall u | u in r.workers ensures WorkerOk(r, u) {
      if u == t { NewWorkerOk(r, t); } else { OldWorkerOk(p, r, t, u); }
    }
    assert t !in p.ids;
    DistinctJoin(p.ids, [t]);
    CreateTotal(p.ids, p.workers, t);
  }

  lemma NewWorkerOk(r: Program, t: Tid)
    requires t in r.workers && r.workers[t] == Worker(Head, 0, 0)
    requires t in r.sys.mode && r.sys.mode[t] == User && t in r.sys.held && r.sys.held[t] == {}
    ensures WorkerOk(r, t)
  {
  }

  lemma OldWorkerOk(p: Program, r: Program, t: Tid, u: Tid)
    requires u in p.workers && WorkerOk(p, u) && u != t && u in r.workers && r.workers[u] == p.workers[u]
    requires r.sys.mode == p.sys.mode[t := User] && r.sys.held == p.sys.held[t := {}]
    requires r.c == p.c && r.iters == p.iters
    ensures WorkerOk(r, u)
  {
  }

  lemma CreateTotal(ids: seq<Tid>, workers: map<Tid, Worker>, t: Tid)
    requires t !in ids && forall u :: u in ids ==> u in workers
    ensures Total(ids + [t], workers[t := Worker(Head, 0, 0)]) == Total(ids, workers)
  {
    TotalOfOthers(ids, workers, t, Worker(Head, 0, 0));
    TotalAppends(ids, workers[t := Worker(Head, 0, 0)], t);
  }

  lemma JoinLinks(p: Program, sys: System)
    requires Linked(p) && Joins(p, sys)
    ensures Linked(p.(sys := sys, joined := p.joined + (if sys.mode[p.main] == User then 1 else 0)))
  {
    hide WorkerOk, MainOk, Total, Distinct;
    var r := p.(sys := sys, joined := p.joined + (if sys.mode[p.main] == User then 1 else 0));
    MainIsNoWorker(p);
    forall u | u in r.workers ensures WorkerOk(r, u) {
      assert WorkerOk(p, u);
      JoinKeepsWorker(p, r, u);
    }
    JoinKeepsMain(p, r);
  }

  lemma MainIsNoWorker(p: Program)
    requires MainOk(p)
    ensures p.main !in p.workers
  {
  }

  lemma JoinKeepsWorker(p: Program, r: Program, u: Tid)
    requires r == p.(sys := r.sys, joined := r.joined) && LocalTo(p.sys, r.sys, p.main, {})
    requires u in p.workers && u != p.main && WorkerOk(p, u)
    ensures WorkerOk(r, u)
  {
  }

  lemma JoinKeepsMain(p: Program, r: Program)
    requires MainOk(p) && |p.ids| == p.numThreads && p.joined < p.numThreads && p.ids[p.joined] in p.workers
    requires r == p.(sys := r.sys, joined := r.joined) && LocalTo(p.sys, r.sys, p.main, {})
    requires r.sys.held[p.main] == {}
    requires if r.joined == p.joined then r.sys.mode[p.main] == JoiningOn(p.ids[p.joined])
             else r.joined == p.joined + 1 && r.sys.mode[p.main] == User && p.workers[p.ids[p.joined]].line == Gone
    ensures MainOk(r)
  {
  }

  /** Join returns only when the counter thread has run off its loop. */
  lemma JoinCall(p: Program, now: int)
    requires Inv(p) && p.sys.sched.current == p.main && |p.ids| == p.numThreads && p.joined < p.numThreads
    requires p.ids[p.joined] in p.sys.sched.tcb && Allowed(p.sys, Join(p.ids[p.joined], now))
    ensures Joins(p, ThreadSystem.Next(p.sys, Join(p.ids[p.joined], now)))
  {
    var t := p.ids[p.joined];
    assert t in p.workers;
    ExitedIffGone(p, t);
    JoinIsLocal(p.sys, t, now);
  }

  lemma ResumedJoinCall(p: Program, now: int)
    requires Inv(p) && p.sys.sched.current == p.main && |p.ids| == p.numThreads && p.joined < p.numThreads
    requires p.sys.mode[p.main] == JoiningOn(p.ids[p.joined]) && Allowed(p.sys, Resume(now))
    ensures Joins(p, ThreadSystem.Next(p.sys, Resume(now)))
  {
    var t := p.ids[p.joined];
    assert t in p.workers;
    ExitedIffGone(p, t);
    ResumedJoinIsLocal(p.sys, t, now);
  }

  ghost predicate Joins(p: Program, sys: System) {
    && LocalTo(p.sys, sys, p.main, {})
    && p.main in sys.held && sys.held[p.main] == {} && p.main in sys.mode
    && |p.ids| == p.numThreads && p.joined < p.numThreads && p.ids[p.joined] in p.workers
    && (sys.mode[p.main] == User || sys.mode[p.main] == JoiningOn(p.ids[p.joined]))
    && (sys.mode[p.main] == User ==> p.workers[p.ids[p.joined]].line == Gone)
  }

  lemma ExitedIffGone(p: Program, t: Tid)
    requires Inv(p) && t in p.workers
    ensures StateOf(p.sys, t) == Exited <==> p.workers[t].line == Gone
  {
    assert WorkerOk(p, t) && ThreadOk(p.sys, t);
  }

  lemma MainCreates(p: Program, e: Event)
    requires Inv(p) && Enabled(p, e) && e.Turn? && p.sys.sched.current == p.main && |p.ids| < p.numThreads
    ensures Inv(Next(p, e))
  {
    StepKeepsInv(p.sys, Call(p, e));
    CreateIsLocal(p.sys, e.newThread, e.now);
    CreateLinks(p, Next(p, e).sys, e.newThread);
  }

  lemma MainJoins(p: Program, e: Event)
    requires Inv(p) && Enabled(p, e) && e.Turn? && p.sys.sched.current == p.main && |p.ids| == p.numThreads
    requires p.sys.mode[p.main] == User
    ensures Inv(Next(p, e))
  {
    var step := Call(p, e);
    StepKeepsInv(p.sys, step);
    JoinCall(p, e.now);
    JoinLinks(p, ThreadSystem.Next(p.sys, step));
  }

  lemma MainResumes(p: Program, e: Event)
    requires Inv(p) && Enabled(p, e) && e.Turn? && p.sys.sched.current == p.main && |p.ids| == p.numThreads
    requires p.sys.mode[p.main] != User
    ensures CallsLibrary(p, e) && Call(p, e) == Resume(e.now)
    ensures
      var sys := ThreadSystem.Next(p.sys, Resume(e.now));
      && p.main in sys.mode
      && Next(p, e) == p.(sys := sys, joined := p.joined + (if sys.mode[p.main] == User then 1 else 0))
  {
    hide ThreadSystem.Next, ThreadSystem.Inv, WorkerOk, Total, Distinct;
    assert p.sys.mode[p.main] == JoiningOn(p.ids[p.joined]);
    ModeStays(p.sys, Call(p, e), p.main);
  }

  lemma MainJoinsAgain(p: Program, e: Event)
    requires Inv(p) && Enabled(p, e) && e.Turn? && p.sys.sched.current == p.main && |p.ids| == p.numThreads
    requires p.sys.mode[p.main] != User
    ensures Inv(Next(p, e))
  {
    hide ThreadSystem.Next, ThreadSystem.Inv, WorkerOk, Total, Distinct, Joins, LocalTo;
    MainResumes(p, e);
    StepKeepsInv(p.sys, Resume(e.now));
    ResumedJoinCall(p, e.now);
    JoinLinks(p, ThreadSystem.Next(p.sys, Resume(e.now)));
  }

  lemma MainKeeps(p: Program, e: Event)
    requires Inv(p) && Enabled(p, e) && e.Turn? && p.sys.sched.current == p.main
    ensures Inv(Next(p, e))
  {
    if |p.ids| < p.numThreads {
      MainCreates(p, e);
    } else if p.sys.mode[p.main] == User {
      MainJoins(p, e);
    } else {
      MainJoinsAgain(p, e);
    }
  }

  lemma WorkerLinks(p: Program, sys: System, t: Tid, w: Worker)
    requires Linked(p) && t in p.workers && LocalTo(p.sys, sys, t, {})
    requires WorkerOk(p.(sys := sys, workers := p.workers[t := w]), t)
    requires Stored(w) == Stored(p.workers[t]) && p.workers[t].line != Gone
    ensures Linked(p.(sys := sys, workers := p.workers[t := w]))
  {
    hide WorkerOk, MainOk, Total, Distinct;
    var r := p.(sys := sys, workers := p.workers[t := w]);
    forall u | u in r.workers ensures WorkerOk(r, u) {
      if u != t { OtherWorkerStays(p, sys, t, w, u); }
    }
    MainStays(p, sys, t, w);
    TotalUpdates(p.ids, p.workers, t, w);
  }

  lemma OtherWorkerStays(p: Program, sys: System, t: Tid, w: Worker, u: Tid)
    requires u in p.workers && u != t && WorkerOk(p, u) && LocalTo(p.sys, sys, t, {})
    ensures WorkerOk(p.(sys := sys, workers := p.workers[t := w]), u)
  {
  }

  lemma MainStays(p: Program, sys: System, t: Tid, w: Worker)
    requires MainOk(p) && t in p.workers && LocalTo(p.sys, sys, t, {}) && p.workers[t].line != Gone
    ensures MainOk(p.(sys := sys, workers := p.workers[t := w]))
  {
  }

  /** Worker t is now w, where its new line says, and nothing else moved. */
  ghost predicate WorkerMoved(p: Program, sys: System, t: Tid, w: Worker) {
    && t in p.workers && LocalTo(p.sys, sys, t, {})
    && WorkerOk(p.(sys := sys, workers := p.workers[t := w]), t)
    && Stored(w) == Stored(p.workers[t]) && p.workers[t].line != Gone
  }

  lemma LockMoves(p: Program, sys: System, t: Tid, taken: bool)
    requires t in p.workers && WorkerOk(p, t) && LocalTo(p.sys, sys, t, {})
    requires (p.workers[t].line == Head && p.workers[t].i < p.iters) || p.workers[t].line == Locking
    requires sys.mode[t] == (if taken then User else Acquiring(LOCK))
    requires sys.held[t] == (if taken then p.sys.held[t] + {LOCK} else p.sys.held[t])
    ensures WorkerMoved(p, sys, t, p.workers[t].(line := if sys.mode[t] == User then Load else Locking))
  {
  }

  lemma LockCall(p: Program, t: Tid, n: int)
    requires Inv(p) && !p.sys.finished && p.sys.sched.current == t && t in p.workers
    requires p.workers[t].line == Head && p.workers[t].i < p.iters && Allowed(p.sys, Lock(LOCK, n))
    ensures var sys := ThreadSystem.Next(p.sys, Lock(LOCK, n));
            && t in sys.mode
            && WorkerMoved(p, sys, t, p.workers[t].(line := if sys.mode[t] == User then Load else Locking))
  {
    assert WorkerOk(p, t);
    LockIsLocal(p.sys, LOCK, n);
    LockMoves(p, ThreadSystem.Next(p.sys, Lock(LOCK, n)), t, !p.sys.mutexes[LOCK].flag);
  }

  lemma ResumeCall(p: Program, t: Tid, n: int)
    requires Inv(p) && !p.sys.finished && p.sys.sched.current == t && t in p.workers
    requires p.workers[t].line == Locking && Allowed(p.sys, Resume(n))
    ensures var sys := ThreadSystem.Next(p.sys, Resume(n));
            && t in sys.mode
            && WorkerMoved(p, sys, t, p.workers[t].(line := if sys.mode[t] == User then Load else Locking))
  {
    assert WorkerOk(p, t);
    ResumedLockIsLocal(p.sys, LOCK, n);
    LockMoves(p, ThreadSystem.Next(p.sys, Resume(n)), t, !p.sys.mutexes[LOCK].flag);
  }

  lemma ExitMoves(p: Program, sys: System, t: Tid)
    requires t in p.workers && WorkerOk(p, t) && LocalTo(p.sys, sys, t, {})
    requires p.workers[t].line == Head && p.workers[t].i == p.iters
    requires sys.mode[t] == Done && sys.held == p.sys.held
    ensures WorkerMoved(p, sys, t, p.workers[t].(line := Gone))
  {
  }

  lemma ExitCall(p: Program, t: Tid, n: int)
    requires Inv(p) && !p.sys.finished && p.sys.sched.current == t && t in p.workers
    requires p.workers[t].line == Head && p.workers[t].i == p.iters && Allowed(p.sys, Exit(0, n))
    ensures var sys := ThreadSystem.Next(p.sys, Exit(0, n));
            t in sys.mode && WorkerMoved(p, sys, t, p.workers[t].(line := Gone))
  {
    assert WorkerOk(p, t);
    ExitIsLocal(p.sys, 0, n);
    ExitMoves(p, ThreadSystem.Next(p.sys, Exit(0, n)), t);
  }

  lemma UnlockMoves(p: Program, sys: System, t: Tid)
    requires t in p.workers && WorkerOk(p, t) && LocalTo(p.sys, sys, t, {})
    requires p.workers[t].line == Unlocking
    requires sys.mode[t] == User && sys.held[t] == p.sys.held[t] - {LOCK}
    ensures WorkerMoved(p, sys, t, Worker(Head, p.workers[t].i + 1, p.workers[t].temp))
  {
  }

  lemma UnlockCall(p: Program, t: Tid)
    requires Inv(p) && !p.sys.finished && p.sys.sched.current == t && t in p.workers
    requires p.workers[t].line == Unlocking && Allowed(p.sys, Unlock(LOCK))
    ensures var sys := ThreadSystem.Next(p.sys, Unlock(LOCK));
            t in sys.mode && WorkerMoved(p, sys, t, Worker(Head, p.workers[t].i + 1, p.workers[t].temp))
  {
    assert WorkerOk(p, t);
    UnlockIsLocal(p.sys, LOCK);
    UnlockMoves(p, ThreadSystem.Next(p.sys, Unlock(LOCK)), t);
  }

  /** Main never exits, so the scheduler never reports the end before main prints. */
  lemma MainIsAlive(p: Program)
    requires Inv(p)
    ensures !p.sys.finished
  {
    assert ThreadOk(p.sys, p.main);
  }

  ghost predicate WorkerTurn(p: Program, e: Event, line: Line)
    requires Inv(p) && Enabled(p, e)
  {
    && e.Turn? && p.sys.sched.current in p.workers
    && p.workers[p.sys.sched.current].line == line && CallsLibrary(p, e)
  }

  lemma WorkerNext(p: Program, e: Event, step: Step)
    requires Inv(p) && Enabled(p, e) && e.Turn? && p.sys.sched.current in p.workers && CallsLibrary(p, e)
    requires step == Call(p, e)
    ensures
      var t, sys := p.sys.sched.current, ThreadSystem.Next(p.sys, step);
      && t in sys.mode
      && Next(p, e) == p.(sys := sys, workers := p.workers[t := AfterCall(p.workers[t], p.iters, sys.mode[t])])
  {
    hide ThreadSystem.Next, ThreadSystem.Inv, MainOk, Total, Distinct;
    MainIsNoWorker(p);
    assert WorkerOk(p, p.sys.sched.current);
    ModeStays(p.sys, step, p.sys.sched.current);
  }

  lemma MovedKeeps(p: Program, sys: System, t: Tid, w: Worker)
    requires Linked(p) && WorkerMoved(p, sys, t, w) && ThreadSystem.Inv(sys)
    ensures Inv(p.(sys := sys, workers := p.workers[t := w]))
  {
    WorkerLinks(p, sys, t, w);
  }

  lemma WorkerCall(p: Program, e: Event, line: Line)
    requires Inv(p) && Enabled(p, e) && WorkerTurn(p, e, line)
    ensures
      var w := p.workers[p.sys.sched.current];
      && (line == Head ==> Call(p, e) == if w.i < p.iters then Lock(LOCK, e.now) else Exit(0, e.now))
      && (line == Locking ==> Call(p, e) == Resume(e.now))
      && (line == Unlocking ==> Call(p, e) == Unlock(LOCK))
  {
  }

  lemma HeadLocks(p: Program, e: Event)
    requires Inv(p) && Enabled(p, e) && WorkerTurn(p, e, Head)
    requires p.workers[p.sys.sched.current].i < p.iters
    ensures Inv(Next(p, e))
  {
    hide ThreadSystem.Inv, ThreadSystem.Next, Linked, Next, Call, WorkerMoved, Allowed;
    var t, step := p.sys.sched.current, Lock(LOCK, e.now);
    WorkerCall(p, e, Head);
    MainIsAlive(p);
    LockCall(p, t, e.now);
    StepKeepsInv(p.sys, step);
    var sys := ThreadSystem.Next(p.sys, step);
    MovedKeeps(p, sys, t, AfterCall(p.workers[t], p.iters, sys.mode[t]));
    WorkerNext(p, e, step);
  }

  lemma HeadExits(p: Program, e: Event)
    requires Inv(p) && Enabled(p, e) && WorkerTurn(p, e, Head)
    requires p.workers[p.sys.sched.current].i >= p.iters
    ensures Inv(Next(p, e))
  {
    hide ThreadSystem.Inv, ThreadSystem.Next, Linked, Next, Call, WorkerMoved, Allowed;
    var t, step := p.sys.sched.current, Exit(0, e.now);
    WorkerCall(p, e, Head);
    MainIsAlive(p);
    HeadIsAtEnd(p, t);
    ExitCall(p, t, e.now);
    StepKeepsInv(p.sys, step);
    var sys := ThreadSystem.Next(p.sys, step);
    MovedKeeps(p, sys, t, p.workers[t].(line := Gone));
    assert AfterCall(p.workers[t], p.iters, sys.mode[t]) == p.workers[t].(line := Gone);
    WorkerNext(p, e, step);
  }

  lemma HeadIsAtEnd(p: Program, t: Tid)
    requires Linked(p) && t in p.workers
    ensures p.workers[t].i <= p.iters
  {
    assert WorkerOk(p, t);
  }

  lemma LockingKeeps(p: Program, e: Event)
    requires Inv(p) && Enabled(p, e) && WorkerTurn(p, e, Locking)
    ensures Inv(Next(p, e))
  {
    hide ThreadSystem.Inv, ThreadSystem.Next, Linked, Next, Call, WorkerMoved, Allowed;
    var t, step := p.sys.sched.current, Resume(e.now);
    WorkerCall(p, e, Locking);
    MainIsAlive(p);
    ResumeCall(p, t, e.now);
    StepKeepsInv(p.sys, step);
    var sys := ThreadSystem.Next(p.sys, step);
    MovedKeeps(p, sys, t, AfterCall(p.workers[t], p.iters, sys.mode[t]));
    WorkerNext(p, e, step);
  }

  lemma UnlockingKeeps(p: Program, e: Event)
    requires Inv(p) && Enabled(p, e) && WorkerTurn(p, e, Unlocking)
    ensures Inv(Next(p, e))
  {
    hide ThreadSystem.Inv, ThreadSystem.Next, Linked, Next, Call, WorkerMoved, Allowed;
    var t, step := p.sys.sched.current, Unlock(LOCK);
    WorkerCall(p, e, Unlocking);
    MainIsAlive(p);
    UnlockCall(p, t);
    StepKeepsInv(p.sys, step);
    var sys := ThreadSystem.Next(p.sys, step);
    MovedKeeps(p, sys, t, AfterCall(p.workers[t], p.iters, sys.mode[t]));
    WorkerNext(p, e, step);
  }

  /** The thread on the processor has not run off its loop. */
  lemma CurrentIsNotGone(p: Program)
    requires Inv(p) && p.sys.sched.current in p.workers
    ensures p.workers[p.sys.sched.current].line != Gone
  {
    MainIsAlive(p);
    ExitedIffGone(p, p.sys.sched.current);
  }

  lemma WorkerKeeps(p: Program, e: Event)
    requires Inv(p) && Enabled(p, e) && e.Turn? && p.sys.sched.current != p.main && CallsLibrary(p, e)
    ensures Inv(Next(p, e))
  {
    var t := p.sys.sched.current;
    assert t in p.workers;
    CurrentIsNotGone(p);
    if p.workers[t].line.Head? {
      if p.workers[t].i < p.iters { HeadLocks(p, e); } else { HeadExits(p, e); }
    } else if p.workers[t].line.Locking? {
      LockingKeeps(p, e);
    } else {
      UnlockingKeeps(p, e);
    }
  }

  /** The three compute steps: nobody else is inside, so nobody else's temp goes stale. */
  lemma ComputeLinks(p: Program, t: Tid)
    requires Linked(p) && t in p.workers && Inside(p.workers[t].line) && !p.workers[t].line.Unlocking?
    requires forall u :: u in p.workers && u != t ==> !Inside(p.workers[u].line)
    ensures Linked(ComputeStep(p, t))
  {
    hide WorkerOk, MainOk, Total, Distinct;
    var r := ComputeStep(p, t);
    forall u | u in r.workers ensures WorkerOk(r, u) {
      assert WorkerOk(p, u) && WorkerOk(p, t);
      ComputeKeepsWorker(p, t, u);
    }
    ComputeKeepsMain(p, t);
    ComputeCounts(p, t);
    TotalUpdates(p.ids, p.workers, t, r.workers[t]);
  }

  /** The count goes up with the store, and with nothing else. */
  lemma ComputeCounts(p: Program, t: Tid)
    requires t in p.workers && Inside(p.workers[t].line) && !p.workers[t].line.Unlocking? && WorkerOk(p, t)
    ensures
      var r := ComputeStep(p, t);
      && r.workers == p.workers[t := r.workers[t]] && r.c - p.c == Stored(r.workers[t]) - Stored(p.workers[t])
      && r == p.(c := r.c, workers := r.workers)
  {
  }

  lemma ComputeKeepsWorker(p: Program, t: Tid, u: Tid)
    requires t in p.workers && Inside(p.workers[t].line) && !p.workers[t].line.Unlocking? && WorkerOk(p, t)
    requires u in p.workers && WorkerOk(p, u) && (u != t ==> !Inside(p.workers[u].line))
    ensures WorkerOk(ComputeStep(p, t), u)
  {
  }

  lemma ComputeKeepsMain(p: Program, t: Tid)
    requires MainOk(p) && t in p.workers && Inside(p.workers[t].line)
    ensures MainOk(ComputeStep(p, t))
  {
  }

  lemma ComputeKeeps(p: Program, e: Event)
    requires Inv(p) && Enabled(p, e) && !CallsLibrary(p, e)
    ensures Inv(Next(p, e))
  {
    hide WorkerOk, MainOk, Total, Distinct, ThreadSystem.Inv;
    var t := p.sys.sched.current;
    forall u | u in p.workers && u != t ensures !Inside(p.workers[u].line) {
      if Inside(p.workers[u].line) { OneInside(p, t, u); }
    }
    ComputeLinks(p, t);
  }

  lemma NextKeepsInv(p: Program, e: Event)
    requires Inv(p) && Enabled(p, e)
    ensures Inv(Next(p, e))
  {
    if !CallsLibrary(p, e) {
      ComputeKeeps(p, e);
    } else if e.Tick? {
      TickKeeps(p, e);
    } else if p.sys.sched.current == p.main {
      MainKeeps(p, e);
    } else {
      WorkerKeeps(p, e);
    }
  }

  // ---------------------------------------------------------------- runs

  ghost predicate Feasible(p: Program, events: seq<Event>)
    requires Inv(p)
    decreases |events|
  {
    events == [] ||
    (Enabled(p, events[0]) && (NextKeepsInv(p, events[0]); Feasible(Next(p, events[0]), events[1..])))
  }

  ghost function Run(p: Program, events: seq<Event>): (r: Program)
    requires Inv(p) && Feasible(p, events)
    ensures Inv(r)
    decreases |events|
  {
    if events == [] then p
    else
      NextKeepsInv(p, events[0]);
      Run(Next(p, events[0]), events[1..])
  }

  lemma NextKeepsParameters(p: Program, e: Event)
    requires Inv(p) && Enabled(p, e)
    ensures Next(p, e).numThreads == p.numThreads && Next(p, e).iters == p.iters
  {
    var cur := p.sys.sched.current;
    var r := Next(p, e);
    if !CallsLibrary(p, e) {
      assert r == ComputeStep(p, cur);
    } else {
      assert r == p.(sys := r.sys, ids := r.ids, workers := r.workers, joined := r.joined);
    }
  }

  lemma {:induction false} RunKeepsParameters(p: Program, events: seq<Event>)
    requires Inv(p) && Feasible(p, events)
    ensures Run(p, events).numThreads == p.numThreads && Run(p, events).iters == p.iters
    decreases |events|
  {
    if events != [] {
      var r := Next(p, events[0]);
      NextKeepsInv(p, events[0]);
      NextKeepsParameters(p, events[0]);
      assert Run(p, events) == Run(r, events[1..]);
      RunKeepsParameters(r, events[1..]);
    }
  }

  lemma {:induction false} TotalOfGone(ids: seq<Tid>, workers: map<Tid, Worker>, iters: nat)
    requires forall t :: t in ids ==> t in workers && workers[t].line == Gone && workers[t].i == iters
    ensures Total(ids, workers) == |ids| * iters
  {
    if ids != [] {
      TotalOfGone(ids[1..], workers, iters);
      assert ids[0] in ids && Stored(workers[ids[0]]) == iters;
      assert |ids| * iters == iters + (|ids| - 1) * iters;
    }
  }

  /** For any number of threads, any number of iterations and any interleaving, main prints the exact product. */
  lemma PrintedCountIsExact(main: Tid, numThreads: nat, iters: nat, now: int, events: seq<Event>)
    requires (InitInv(main, numThreads, iters, now); Feasible(Init(main, numThreads, iters, now), events))
    requires (InitInv(main, numThreads, iters, now); Printing(Run(Init(main, numThreads, iters, now), events)))
    ensures (InitInv(main, numThreads, iters, now);
             Run(Init(main, numThreads, iters, now), events).c == numThreads * iters)
  {
    hide ThreadSystem.Init, Feasible, Run, Inv;
    InitInv(main, numThreads, iters, now);
    RunKeepsParameters(Init(main, numThreads, iters, now), events);
    PrintedTotal(Run(Init(main, numThreads, iters, now), events));
  }

  lemma PrintedTotal(p: Program)
    requires Inv(p) && Printing(p)
    ensures p.c == p.numThreads * p.iters
  {
    hide ThreadSystem.Inv, Distinct, Total;
    forall t | t in p.ids ensures p.workers[t].line == Gone && p.workers[t].i == p.iters {
      assert WorkerOk(p, t);
    }
    TotalOfGone(p.ids, p.workers, p.iters);
  }

  /** Until main prints, the thread on the processor always has a permitted step, and it is never done. */
  lemma NeverStuck(p: Program, now: int, newThread: Tid)
    requires Inv(p) && !Printing(p) && newThread !in p.sys.sched.tcb
    ensures Enabled(p, Turn(now, newThread)) && !p.sys.finished
    ensures p.sys.sched.current in p.workers ==> p.workers[p.sys.sched.current].line != Gone
  {
    assert ThreadOk(p.sys, p.main);
    if p.sys.sched.current in p.workers {
      assert WorkerOk(p, p.sys.sched.current) && ThreadOk(p.sys, p.sys.sched.current);
    }
  }

  /** At most one counter thread is between lock's return and unlock. */
  lemma OneInside(p: Program, t: Tid, u: Tid)
    requires Inv(p) && t in p.workers && u in p.workers
    requires Inside(p.workers[t].line) && Inside(p.workers[u].line)
    ensures t == u
  {
    assert WorkerOk(p, t) && WorkerOk(p, u);
    assert Holds(p.sys, t, LOCK) && Holds(p.sys, u, LOCK);
    MutualExclusion(p.sys, LOCK);
  }
}
