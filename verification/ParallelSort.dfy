/**
 * mtsort.c: n - 1 sorter threads, each exchanging one neighbouring pair under two
 * locks, one checker thread that takes every lock, and main, which joins them all.
 *
 * The machine is over a blocking mutex (a lock step is enabled when the mutex is free)
 * and any interleaving: one step is one lock, one unlock, one test of `quitting`, one
 * comparison or one store. Threads 0 .. n-2 are the sorters, thread n-1 the checker
 * and thread n is main.
 */
module ParallelSort {
  import opened Inversions

  datatype SorterPc =
    | Test | TakeFirst | TakeSecond | Compare | Save | PutLow | PutHigh
    | DropFirst | DropSecond | Rest | Gone

  /** `saved` is the local variable `swap` of fnsort. */
  datatype Sorter = Sorter(pc: SorterPc, saved: int)

  datatype CheckerPc =
    | CTest | Take(i: nat) | Scan(i: nat, ok: bool) | Publish(ok: bool) | Drop(i: nat) | CRest | CGone

  const FREE: int := -1

  /** `owner[j]` is the thread that holds mutex j; main has joined threads 0 .. joined-1. */
  datatype State = State(
    num: seq<int>,
    owner: seq<int>,
    quitting: bool,
    sorters: seq<Sorter>,
    checker: CheckerPc,
    joined: nat)

  function Init(list: seq<int>): State
    requires list != []
  {
    State(list, seq(|list|, _ => FREE), false, seq(|list| - 1, _ => Sorter(Test, 0)), CTest, 0)
  }

  predicate Shaped(s: State) {
    && s.num != []
    && |s.owner| == |s.num|
    && |s.sorters| == |s.num| - 1
    && s.joined <= |s.num|
    && match s.checker
       case Take(i) => i < |s.num|
       case Scan(i, _) => i < |s.num|
       case Drop(i) => i < |s.num|
       case _ => true
  }

  predicate GoneThread(s: State, t: nat)
    requires Shaped(s) && t < |s.num|
  {
    if t < |s.sorters| then s.sorters[t].pc == Gone else s.checker == CGone
  }

  /** A lock step waits for its mutex, a join for its thread; a finished thread does nothing. */
  predicate Enabled(s: State, t: nat)
    requires Shaped(s)
  {
    if t < |s.sorters| then
      match s.sorters[t].pc
      case TakeFirst => s.owner[t] == FREE
      case TakeSecond => s.owner[t + 1] == FREE
      case Gone => false
      case _ => true
    else if t == |s.sorters| then
      match s.checker
      case Take(i) => s.owner[i] == FREE
      case CGone => false
      case _ => true
    else
      t == |s.num| && s.joined < |s.num| && GoneThread(s, s.joined)
  }

  function Next(s: State, t: nat): (r: State)
    requires Shaped(s) && Enabled(s, t)
    ensures Shaped(r) && |r.num| == |s.num|
  {
    if t < |s.sorters| then SorterStep(s, t)
    else if t == |s.sorters| then CheckerStep(s)
    else s.(joined := s.joined + 1)
  }

  function Goto(s: State, t: nat, pc: SorterPc): (r: State)
    requires Shaped(s) && t < |s.sorters|
    ensures Shaped(r)
  {
    s.(sorters := s.sorters[t := s.sorters[t].(pc := pc)])
  }

  function SorterStep(s: State, t: nat): (r: State)
    requires Shaped(s) && t < |s.sorters| && Enabled(s, t)
    ensures Shaped(r) && |r.num| == |s.num|
  {
    match s.sorters[t].pc
    case Test => Goto(s, t, if s.quitting then Gone else TakeFirst)
    case TakeFirst => Goto(s.(owner := s.owner[t := t]), t, TakeSecond)
    case TakeSecond => Goto(s.(owner := s.owner[t + 1 := t]), t, Compare)
    case Compare => Goto(s, t, if s.num[t + 1] < s.num[t] then Save else DropFirst)
    case Save => s.(sorters := s.sorters[t := Sorter(PutLow, s.num[t])])
    case PutLow => Goto(s.(num := s.num[t := s.num[t + 1]]), t, PutHigh)
    case PutHigh => Goto(s.(num := s.num[t + 1 := s.sorters[t].saved]), t, DropFirst)
    case DropFirst => Goto(s.(owner := s.owner[t := FREE]), t, DropSecond)
    case DropSecond => Goto(s.(owner := s.owner[t + 1 := FREE]), t, Rest)
    case Rest => Goto(s, t, Test)
  }

  function CheckerStep(s: State): (r: State)
    requires Shaped(s) && Enabled(s, |s.sorters|)
    ensures Shaped(r) && |r.num| == |s.num|
  {
    var n := |s.num|;
    match s.checker
    case CTest => s.(checker := if s.quitting then CGone else Take(0))
    case Take(i) =>
      s.(owner := s.owner[i := n - 1], checker := if i + 1 < n then Take(i + 1) else Scan(0, true))
    case Scan(i, ok) =>
      if i < n - 1 && ok then s.(checker := Scan(i + 1, s.num[i] <= s.num[i + 1]))
      else s.(checker := Publish(ok))
    case Publish(ok) => s.(quitting := ok, checker := Drop(0))
    case Drop(i) =>
      s.(owner := s.owner[i := FREE], checker := if i + 1 < n then Drop(i + 1) else CRest)
    case CRest => s.(checker := CTest)
  }

  // ---------------------------------------------------------------- runs

  /** A schedule lists the thread that takes each step. */
  ghost predicate Feasible(s: State, schedule: seq<nat>)
    requires Shaped(s)
    decreases |schedule|
  {
    schedule == [] || (Enabled(s, schedule[0]) && Feasible(Next(s, schedule[0]), schedule[1..]))
  }

  ghost function Run(s: State, schedule: seq<nat>): (r: State)
    requires Shaped(s) && Feasible(s, schedule)
    ensures Shaped(r) && |r.num| == |s.num|
    decreases |schedule|
  {
    if schedule == [] then s else Run(Next(s, schedule[0]), schedule[1..])
  }

  /** A step that begins an exchange: the first of the two stores of fnsort. */
  predicate StartsExchange(s: State, t: nat)
    requires Shaped(s)
  {
    t < |s.sorters| && s.sorters[t].pc == PutLow
  }

  ghost function Exchanges(s: State, schedule: seq<nat>): nat
    requires Shaped(s) && Feasible(s, schedule)
    decreases |schedule|
  {
    if schedule == [] then 0
    else (if StartsExchange(s, schedule[0]) then 1 else 0) + Exchanges(Next(s, schedule[0]), schedule[1..])
  }

  // ---------------------------------------------------------------- the invariant

  /** Between the second lock and the first unlock. */
  predicate InSection(pc: SorterPc) {
    pc.Compare? || pc.Save? || pc.PutLow? || pc.PutHigh? || pc.DropFirst?
  }

  predicate HoldsFirst(pc: SorterPc) {
    pc.TakeSecond? || InSection(pc)
  }

  predicate HoldsSecond(pc: SorterPc) {
    InSection(pc) || pc.DropSecond?
  }

  predicate CheckerHolds(c: CheckerPc, j: nat) {
    match c
    case Take(i) => j < i
    case Scan(_, _) => true
    case Publish(_) => true
    case Drop(i) => i <= j
    case _ => false
  }

  /**
   * The list with every exchange in progress completed: between the two stores of
   * sorter j-1 the value that belongs at j is only in its local variable.
   */
  ghost function Settled(s: State): (r: seq<int>)
    requires Shaped(s)
    ensures |r| == |s.num|
  {
    seq(|s.num|, j requires 0 <= j < |s.num| =>
      if j > 0 && s.sorters[j - 1].pc == PutHigh then s.sorters[j - 1].saved else s.num[j])
  }

  /** Mutex j is held by exactly the thread whose program counter says so. */
  ghost predicate LockAgrees(s: State, j: nat)
    requires Shaped(s) && j < |s.num|
  {
    var o := s.owner[j];
    && (o == FREE || o == |s.num| - 1 || o == j || o == j - 1)
    && (j < |s.sorters| ==> (HoldsFirst(s.sorters[j].pc) <==> o == j))
    && (j > 0 ==> (HoldsSecond(s.sorters[j - 1].pc) <==> o == j - 1))
    && (CheckerHolds(s.checker, j) <==> o == |s.num| - 1)
  }

  ghost predicate LocksAgree(s: State)
    requires Shaped(s)
  {
    forall j :: 0 <= j < |s.num| ==> LockAgrees(s, j)
  }

  /** What a sorter in the middle of an exchange knows about its pair. */
  ghost predicate SorterKnows(s: State, t: nat)
    requires Shaped(s) && t < |s.sorters|
  {
    var sorter := s.sorters[t];
    && (sorter.pc == Save ==> s.num[t + 1] < s.num[t])
    && (sorter.pc == PutLow ==> s.num[t + 1] < s.num[t] && sorter.saved == s.num[t])
    && (sorter.pc == PutHigh ==> s.num[t] == s.num[t + 1] && s.num[t] < sorter.saved)
    && (s.quitting ==> !sorter.pc.Save? && !sorter.pc.PutLow? && !sorter.pc.PutHigh?)
    && (sorter.pc == Gone ==> s.quitting)
  }

  ghost predicate CheckerKnows(s: State)
    requires Shaped(s)
  {
    match s.checker
    case CTest => true
    case Take(_) => !s.quitting
    case Scan(i, ok) =>
      && !s.quitting
      && (ok ==> forall k :: 0 <= k < i ==> s.num[k] <= s.num[k + 1])
      && (!ok ==> !Sorted(s.num))
    case Publish(ok) => !s.quitting && ok == Sorted(s.num)
    case CGone => s.quitting
    case _ => true
  }

  ghost predicate Inv(s: State, list: seq<int>) {
    && Shaped(s)
    && LocksAgree(s)
    && (forall t :: 0 <= t < |s.sorters| ==> SorterKnows(s, t))
    && CheckerKnows(s)
    && multiset(Settled(s)) == multiset(list)
    && (s.quitting ==> Sorted(s.num))
    && (forall t :: 0 <= t < s.joined ==> GoneThread(s, t))
  }

  lemma InitInv(list: seq<int>)
    requires list != []
    ensures Inv(Init(list), list)
  {
    assert Settled(Init(list)) == list;
  }

  /** No sorter is inside its critical section while the checker holds every lock. */
  lemma NobodyInside(s: State, t: nat)
    requires Shaped(s) && LocksAgree(s) && t < |s.sorters|
    requires s.checker.Scan? || s.checker.Publish?
    ensures !HoldsFirst(s.sorters[t].pc) && !HoldsSecond(s.sorters[t].pc)
  {
    assert LockAgrees(s, t) && LockAgrees(s, t + 1);
  }

  /** Sorters whose pairs overlap are never inside together. */
  lemma NeighboursExclude(s: State, t: nat)
    requires Shaped(s) && LocksAgree(s) && t + 1 < |s.sorters|
    ensures !(HoldsSecond(s.sorters[t].pc) && HoldsFirst(s.sorters[t + 1].pc))
  {
    assert LockAgrees(s, t + 1);
  }

  lemma PutLowExchanges(s: State, t: nat)
    requires Shaped(s) && LocksAgree(s) && t < |s.sorters|
    requires SorterKnows(s, t) && s.sorters[t].pc == PutLow
    ensures Settled(Next(s, t)) == Exchange(Settled(s), t)
    ensures Settled(s)[t + 1] < Settled(s)[t]
  {
    if t > 0 { NeighboursExclude(s, t - 1); }
  }

  lemma OtherStepsSettle(s: State, list: seq<int>, t: nat)
    requires Inv(s, list) && Enabled(s, t) && !StartsExchange(s, t)
    ensures Settled(Next(s, t)) == Settled(s)
  {
    if t < |s.sorters| && s.sorters[t].pc == PutHigh {
      if t + 1 < |s.sorters| { NeighboursExclude(s, t); }
    }
  }

  /** The only lock effects of a sorter: its own two mutexes, in its four lock steps. */
  lemma SorterStepEffect(s: State, t: nat)
    requires Shaped(s) && t < |s.sorters| && Enabled(s, t)
    ensures var r := Next(s, t);
            && r.checker == s.checker && r.quitting == s.quitting && r.joined == s.joined
            && (forall j :: 0 <= j < |s.sorters| && j != t ==> r.sorters[j] == s.sorters[j])
            && (forall j :: 0 <= j < |s.num| && j != t && j != t + 1 ==> r.owner[j] == s.owner[j])
            && (r.owner[t] == s.owner[t] ||
                (s.owner[t] == FREE && r.owner[t] == t && s.sorters[t].pc == TakeFirst) ||
                (r.owner[t] == FREE && s.sorters[t].pc == DropFirst))
            && (r.owner[t + 1] == s.owner[t + 1] ||
                (s.owner[t + 1] == FREE && r.owner[t + 1] == t && s.sorters[t].pc == TakeSecond) ||
                (r.owner[t + 1] == FREE && s.sorters[t].pc == DropSecond))
            && (HoldsFirst(r.sorters[t].pc) <==>
                  (HoldsFirst(s.sorters[t].pc) || s.sorters[t].pc == TakeFirst) && s.sorters[t].pc != DropFirst)
            && (HoldsSecond(r.sorters[t].pc) <==>
                  (HoldsSecond(s.sorters[t].pc) || s.sorters[t].pc == TakeSecond) && s.sorters[t].pc != DropSecond)
            && (s.sorters[t].pc == TakeFirst ==> r.owner[t] == t)
            && (s.sorters[t].pc == TakeSecond ==> r.owner[t + 1] == t)
            && (s.sorters[t].pc == DropFirst ==> r.owner[t] == FREE)
            && (s.sorters[t].pc == DropSecond ==> r.owner[t + 1] == FREE)
  {
  }

  lemma SorterStepKeepsLocks(s: State, t: nat, j: nat)
    requires Shaped(s) && LocksAgree(s) && t < |s.sorters| && Enabled(s, t) && j < |s.num|
    ensures LockAgrees(Next(s, t), j)
  {
    assert LockAgrees(s, j);
    SorterStepEffect(s, t);
    KeepsLockAgrees(s, Next(s, t), t, j);
  }

  lemma KeepsLockAgrees(s: State, r: State, t: nat, j: nat)
    requires Shaped(s) && Shaped(r) && |r.num| == |s.num| && t < |s.sorters| && j < |s.num|
    requires LockAgrees(s, j) && r.checker == s.checker
    requires forall k :: 0 <= k < |s.sorters| && k != t ==> r.sorters[k] == s.sorters[k]
    requires j != t && j != t + 1 ==> r.owner[j] == s.owner[j]
    requires j == t ==>
      if s.sorters[t].pc == TakeFirst then s.owner[t] == FREE && r.owner[t] == t && HoldsFirst(r.sorters[t].pc)
      else if s.sorters[t].pc == DropFirst then r.owner[t] == FREE && !HoldsFirst(r.sorters[t].pc)
      else r.owner[t] == s.owner[t] && (HoldsFirst(r.sorters[t].pc) <==> HoldsFirst(s.sorters[t].pc))
    requires j == t + 1 ==>
      if s.sorters[t].pc == TakeSecond then s.owner[j] == FREE && r.owner[j] == t && HoldsSecond(r.sorters[t].pc)
      else if s.sorters[t].pc == DropSecond then r.owner[j] == FREE && !HoldsSecond(r.sorters[t].pc)
      else r.owner[j] == s.owner[j] && (HoldsSecond(r.sorters[t].pc) <==> HoldsSecond(s.sorters[t].pc))
    ensures LockAgrees(r, j)
  {
  }

  lemma CheckerStepKeepsLocks(s: State, j: nat)
    requires Shaped(s) && LocksAgree(s) && Enabled(s, |s.sorters|) && j < |s.num|
    ensures LockAgrees(Next(s, |s.sorters|), j)
  {
    assert LockAgrees(s, j);
  }

  lemma SorterStepKeepsSorters(s: State, list: seq<int>, t: nat, u: nat)
    requires Inv(s, list) && t < |s.sorters| && Enabled(s, t) && u < |s.sorters|
    ensures SorterKnows(Next(s, t), u)
  {
    assert SorterKnows(s, t) && SorterKnows(s, u);
    if u + 1 == t { NeighboursExclude(s, u); }
    if t + 1 == u { NeighboursExclude(s, t); }
    if s.quitting { assert s.num[t] <= s.num[t + 1]; }
  }

  lemma CheckerStepKeepsSorters(s: State, list: seq<int>, u: nat)
    requires Inv(s, list) && Enabled(s, |s.sorters|) && u < |s.sorters|
    ensures SorterKnows(Next(s, |s.sorters|), u)
  {
    assert SorterKnows(s, u);
    if s.checker.Publish? { NobodyInside(s, u); }
  }

  lemma StepKeepsChecker(s: State, list: seq<int>, t: nat)
    requires Inv(s, list) && Enabled(s, t)
    ensures CheckerKnows(Next(s, t))
  {
    var r := Next(s, t);
    if t < |s.sorters| && (s.checker.Scan? || s.checker.Publish?) {
      NobodyInside(s, t);
      assert r.num == s.num;
    }
  }

  lemma GoneStaysGone(s: State, t: nat)
    requires Shaped(s) && Enabled(s, t)
    ensures forall u :: 0 <= u < |s.num| && GoneThread(s, u) ==> GoneThread(Next(s, t), u)
  {
  }

  lemma StepKeepsInv(s: State, list: seq<int>, t: nat)
    requires Inv(s, list) && Enabled(s, t)
    ensures Inv(Next(s, t), list)
  {
    var r := Next(s, t);
    forall j | 0 <= j < |r.num| ensures LockAgrees(r, j) {
      if t < |s.sorters| {
        SorterStepKeepsLocks(s, t, j);
      } else if t == |s.sorters| {
        CheckerStepKeepsLocks(s, j);
      } else {
        assert LockAgrees(s, j);
      }
    }
    forall u | 0 <= u < |r.sorters| ensures SorterKnows(r, u) {
      if t < |s.sorters| {
        SorterStepKeepsSorters(s, list, t, u);
      } else if t == |s.sorters| {
        CheckerStepKeepsSorters(s, list, u);
      } else {
        assert SorterKnows(s, u);
      }
    }
    StepKeepsChecker(s, list, t);
    if StartsExchange(s, t) {
      PutLowExchanges(s, t);
      ExchangeKeepsElements(Settled(s), t);
    } else {
      OtherStepsSettle(s, list, t);
    }
    if s.quitting { QuittingFreezes(s, list, t); }
    GoneStaysGone(s, t);
  }

  lemma {:induction false} RunKeepsInv(s: State, list: seq<int>, schedule: seq<nat>)
    requires Inv(s, list) && Feasible(s, schedule)
    ensures Inv(Run(s, schedule), list)
    decreases |schedule|
  {
    if schedule != [] {
      StepKeepsInv(s, list, schedule[0]);
      RunKeepsInv(Next(s, schedule[0]), list, schedule[1..]);
    }
  }

  // ---------------------------------------------------------------- main results

  /** Once `quitting` is set no step changes the list or clears the flag. */
  lemma QuittingFreezes(s: State, list: seq<int>, t: nat)
    requires Inv(s, list) && s.quitting && Enabled(s, t)
    ensures Next(s, t).num == s.num && Next(s, t).quitting
  {
    if t < |s.sorters| { assert SorterKnows(s, t); }
  }

  /** With `quitting` set, the list in memory is a sorted permutation of the one main built. */
  lemma QuittingMeansSorted(s: State, list: seq<int>)
    requires Inv(s, list) && s.quitting
    ensures Sorted(s.num) && multiset(s.num) == multiset(list)
  {
    forall j | 0 <= j < |s.num| ensures Settled(s)[j] == s.num[j] {
      if j > 0 { assert SorterKnows(s, j - 1); }
    }
    assert Settled(s) == s.num;
  }

  /** From the moment the flag is up, the whole rest of the run leaves the list alone. */
  lemma {:induction false} QuittingFreezesRun(s: State, list: seq<int>, schedule: seq<nat>)
    requires Inv(s, list) && s.quitting && Feasible(s, schedule)
    ensures Run(s, schedule).num == s.num && Run(s, schedule).quitting
    decreases |schedule|
  {
    if schedule != [] {
      QuittingFreezes(s, list, schedule[0]);
      StepKeepsInv(s, list, schedule[0]);
      QuittingFreezesRun(Next(s, schedule[0]), list, schedule[1..]);
    }
  }

  /** What main prints after its joins is the sorted permutation of its list, on every run. */
  lemma PrintedListIsSorted(list: seq<int>, schedule: seq<nat>)
    requires list != [] && Feasible(Init(list), schedule)
    requires Run(Init(list), schedule).joined == |list|
    ensures var printed := Run(Init(list), schedule).num;
            Sorted(printed) && multiset(printed) == multiset(list)
  {
    InitInv(list);
    RunKeepsInv(Init(list), list, schedule);
    var s := Run(Init(list), schedule);
    assert GoneThread(s, |list| - 1);
    QuittingMeansSorted(s, list);
  }

  /** Each exchange costs one inversion, so a run can be charged for all of them. */
  lemma {:induction false} ExchangesPayInversions(s: State, list: seq<int>, schedule: seq<nat>)
    requires Inv(s, list) && Feasible(s, schedule)
    ensures Exchanges(s, schedule) + Count(Settled(Run(s, schedule))) == Count(Settled(s))
    decreases |schedule|
  {
    if schedule != [] {
      var t := schedule[0];
      StepKeepsInv(s, list, t);
      ExchangesPayInversions(Next(s, t), list, schedule[1..]);
      if StartsExchange(s, t) {
        PutLowExchanges(s, t);
        ExchangeRemovesOneInversion(Settled(s), t);
      } else {
        OtherStepsSettle(s, list, t);
      }
    }
  }

  /** No run makes more than n(n-1)/2 exchanges, however long it is. */
  lemma ExchangeBound(list: seq<int>, schedule: seq<nat>)
    requires list != [] && Feasible(Init(list), schedule)
    ensures 2 * Exchanges(Init(list), schedule) <= |list| * (|list| - 1)
  {
    InitInv(list);
    ExchangesPayInversions(Init(list), list, schedule);
    assert Settled(Init(list)) == list;
    CountBound(list);
  }

  /** A run that ends sorted made exactly as many exchanges as the list had inversions. */
  lemma ExchangesAreInversions(list: seq<int>, schedule: seq<nat>)
    requires list != [] && Feasible(Init(list), schedule)
    requires Run(Init(list), schedule).quitting
    ensures Exchanges(Init(list), schedule) == Count(list)
  {
    InitInv(list);
    ExchangesPayInversions(Init(list), list, schedule);
    RunKeepsInv(Init(list), list, schedule);
    var s := Run(Init(list), schedule);
    assert Settled(Init(list)) == list;
    forall j | 0 <= j < |s.num| ensures Settled(s)[j] == s.num[j] {
      if j > 0 { assert SorterKnows(s, j - 1); }
    }
    assert Settled(s) == s.num;
    NoInversionsIffSorted(s.num);
  }

  // ---------------------------------------------------------------- no deadlock

  /**
   * Locks are taken in ascending order, so following "waits for" from a sorter that
   * wants mutex t + 1 climbs the list and ends at a thread that can move.
   */
  lemma {:induction false} ClimbToEnabled(s: State, list: seq<int>, t: nat) returns (u: nat)
    requires Inv(s, list) && t < |s.sorters| && s.sorters[t].pc == TakeSecond
    ensures Enabled(s, u) && Busy(s, u)
    decreases |s.num| - t
  {
    assert LockAgrees(s, t) && LockAgrees(s, t + 1);
    if s.owner[t + 1] == FREE { return t; }
    if s.owner[t + 1] == |s.num| - 1 {
      assert CheckerHolds(s.checker, t + 1);
      assert !CheckerHolds(s.checker, t);
      return |s.sorters|;
    }
    assert s.owner[t + 1] == t + 1;
    assert HoldsFirst(s.sorters[t + 1].pc);
    if s.sorters[t + 1].pc == TakeSecond {
      u := ClimbToEnabled(s, list, t + 1);
    } else {
      u := t + 1;
    }
  }

  /** A thread that has not finished either moves or waits for one that leads to a move. */
  lemma SorterLeadsToEnabled(s: State, list: seq<int>, t: nat) returns (u: nat)
    requires Inv(s, list) && t < |s.sorters| && s.sorters[t].pc != Gone
    ensures Enabled(s, u)
  {
    if s.sorters[t].pc == TakeSecond {
      u := ClimbToEnabled(s, list, t);
    } else if s.sorters[t].pc == TakeFirst && s.owner[t] != FREE {
      assert LockAgrees(s, t);
      if s.owner[t] == |s.num| - 1 {
        assert CheckerHolds(s.checker, t);
        u := CheckerLeadsToEnabled(s, list);
      } else {
        assert s.owner[t] == t - 1 && HoldsSecond(s.sorters[t - 1].pc);
        u := t - 1;
      }
    } else {
      u := t;
    }
  }

  lemma CheckerLeadsToEnabled(s: State, list: seq<int>) returns (u: nat)
    requires Inv(s, list) && s.checker != CGone
    ensures Enabled(s, u) && (CheckerBusy(s.checker) ==> Busy(s, u))
  {
    if s.checker.Take? && s.owner[s.checker.i] != FREE {
      var i := s.checker.i;
      assert LockAgrees(s, i);
      assert !CheckerHolds(s.checker, i);
      if s.owner[i] == i {
        assert HoldsFirst(s.sorters[i].pc);
        if s.sorters[i].pc == TakeSecond {
          u := ClimbToEnabled(s, list, i);
        } else {
          u := i;
        }
      } else {
        assert HoldsSecond(s.sorters[i - 1].pc);
        u := i - 1;
      }
    } else {
      u := |s.sorters|;
    }
  }

  /** Until main has joined everyone, some thread can take a step. */
  lemma NoDeadlock(s: State, list: seq<int>) returns (u: nat)
    requires Inv(s, list) && s.joined < |s.num|
    ensures Enabled(s, u)
  {
    var t := s.joined;
    if GoneThread(s, t) {
      u := |s.num|;
    } else if t < |s.sorters| {
      u := SorterLeadsToEnabled(s, list, t);
    } else {
      u := CheckerLeadsToEnabled(s, list);
    }
  }

  // ---------------------------------------------------------------- progress

  predicate CheckerBusy(c: CheckerPc) {
    (c.Take? && c.i > 0) || c.Scan? || c.Publish? || c.Drop?
  }

  /** Thread u holds a mutex, or is about to give one back. */
  predicate Busy(s: State, u: nat) {
    if u < |s.sorters| then HoldsFirst(s.sorters[u].pc) || HoldsSecond(s.sorters[u].pc)
    else u == |s.sorters| && CheckerBusy(s.checker)
  }

  /** The steps a sorter has left in its section. */
  function SorterRank(pc: SorterPc): nat {
    match pc
    case TakeSecond => 7
    case Compare => 6
    case Save => 5
    case PutLow => 4
    case PutHigh => 3
    case DropFirst => 2
    case DropSecond => 1
    case _ => 0
  }

  function CheckerRank(c: CheckerPc, n: nat): int {
    match c
    case Take(i) => if i == 0 then 0 else 3 * n + 4 - i
    case Scan(i, _) => 2 * n + 2 - i
    case Publish(_) => n + 1
    case Drop(i) => n - i
    case _ => 0
  }

  function SumOf(sorters: seq<Sorter>, rank: SorterPc -> nat): nat {
    if sorters == [] then 0 else rank(sorters[0].pc) + SumOf(sorters[1..], rank)
  }

  lemma {:induction false} SumUpdates(sorters: seq<Sorter>, rank: SorterPc -> nat, t: nat, x: Sorter)
    requires t < |sorters|
    ensures SumOf(sorters[t := x], rank) == SumOf(sorters, rank) - rank(sorters[t].pc) + rank(x.pc)
  {
    if t > 0 {
      assert sorters[t := x][1..] == sorters[1..][t - 1 := x];
      SumUpdates(sorters[1..], rank, t - 1, x);
    }
  }

  lemma {:induction false} SumIsPositive(sorters: seq<Sorter>, rank: SorterPc -> nat) returns (t: nat)
    requires SumOf(sorters, rank) > 0
    ensures t < |sorters| && rank(sorters[t].pc) > 0
  {
    if rank(sorters[0].pc) > 0 {
      t := 0;
    } else {
      t := SumIsPositive(sorters[1..], rank);
      t := t + 1;
    }
  }

  ghost function TotalRank(s: State): int
    requires Shaped(s)
  {
    SumOf(s.sorters, SorterRank) + CheckerRank(s.checker, |s.num|)
  }

  lemma BusyStepFalls(s: State, u: nat)
    requires Shaped(s) && Enabled(s, u) && Busy(s, u)
    ensures 0 <= TotalRank(Next(s, u)) < TotalRank(s)
  {
    hide SorterStep, SumOf;
    var r := Next(s, u);
    if u < |s.sorters| {
      SorterRankFalls(s, u);
      SumUpdates(s.sorters, SorterRank, u, r.sorters[u]);
    }
  }

  lemma SorterRankFalls(s: State, u: nat)
    requires Shaped(s) && u < |s.sorters| && Enabled(s, u) && Busy(s, u)
    ensures
      var r := SorterStep(s, u);
      && r.sorters == s.sorters[u := r.sorters[u]] && r.checker == s.checker && |r.num| == |s.num|
      && SorterRank(r.sorters[u].pc) < SorterRank(s.sorters[u].pc)
  {
  }

  /** As long as some thread is in the middle of its work, one of these can move. */
  lemma BusyLeadsToEnabled(s: State, list: seq<int>) returns (u: nat)
    requires Inv(s, list) && TotalRank(s) > 0
    ensures Enabled(s, u) && Busy(s, u)
  {
    if CheckerBusy(s.checker) {
      u := CheckerLeadsToEnabled(s, list);
    } else {
      u := SumIsPositive(s.sorters, SorterRank);
      if s.sorters[u].pc == TakeSecond { u := ClimbToEnabled(s, list, u); }
    }
  }

  lemma {:induction false} Concat(s: State, a: seq<nat>, b: seq<nat>)
    requires Shaped(s) && Feasible(s, a) && Feasible(Run(s, a), b)
    ensures Feasible(s, a + b) && Run(s, a + b) == Run(Run(s, a), b)
    ensures Exchanges(s, a + b) == Exchanges(s, a) + Exchanges(Run(s, a), b)
    decreases |a|
  {
    if a == [] {
      assert a + b == b;
    } else {
      assert (a + b)[0] == a[0] && (a + b)[1..] == a[1..] + b;
      Concat(Next(s, a[0]), a[1..], b);
    }
  }

  /** Everybody who is in the middle of something can be brought out of it. */
  lemma {:induction false} Drain(s: State, list: seq<int>) returns (schedule: seq<nat>)
    requires Inv(s, list)
    ensures Feasible(s, schedule) && TotalRank(Run(s, schedule)) <= 0
    decreases TotalRank(s)
  {
    if TotalRank(s) <= 0 {
      schedule := [];
    } else {
      var u := BusyLeadsToEnabled(s, list);
      BusyStepFalls(s, u);
      StepKeepsInv(s, list, u);
      var rest := Drain(Next(s, u), list);
      schedule := Prepend(s, u, rest);
    }
  }

  /** With everybody out, every mutex is free. */
  lemma DrainedIsFree(s: State, list: seq<int>)
    requires Inv(s, list) && TotalRank(s) <= 0
    ensures forall j :: 0 <= j < |s.num| ==> s.owner[j] == FREE
    ensures forall t :: 0 <= t < |s.sorters| ==> SorterRank(s.sorters[t].pc) == 0
    ensures !CheckerBusy(s.checker) && Settled(s) == s.num
  {
    forall t | 0 <= t < |s.sorters| ensures SorterRank(s.sorters[t].pc) == 0 {
      SumBounds(s.sorters, SorterRank, t);
    }
    forall j | 0 <= j < |s.num| ensures s.owner[j] == FREE {
      assert LockAgrees(s, j);
    }
  }

  lemma {:induction false} SumBounds(sorters: seq<Sorter>, rank: SorterPc -> nat, t: nat)
    requires t < |sorters|
    ensures rank(sorters[t].pc) <= SumOf(sorters, rank)
  {
    if t > 0 { SumBounds(sorters[1..], rank, t - 1); }
  }

  function StepsToExchange(pc: SorterPc): nat {
    match pc
    case Rest => 6
    case Test => 5
    case TakeFirst => 4
    case TakeSecond => 3
    case Compare => 2
    case Save => 1
    case _ => 0
  }

  /** The sorter of an inverted pair, alone with its two mutexes free, gets to its exchange. */
  lemma {:induction false} SorterExchanges(s: State, t: nat) returns (schedule: seq<nat>)
    requires Shaped(s) && t < |s.sorters| && !s.quitting && s.num[t + 1] < s.num[t]
    requires s.sorters[t].pc == PutLow || StepsToExchange(s.sorters[t].pc) > 0
    requires StepsToExchange(s.sorters[t].pc) >= 4 ==> s.owner[t] == FREE
    requires StepsToExchange(s.sorters[t].pc) >= 3 ==> s.owner[t + 1] == FREE
    ensures Feasible(s, schedule) && Exchanges(s, schedule) > 0
    decreases StepsToExchange(s.sorters[t].pc)
  {
    if s.sorters[t].pc == PutLow {
      schedule := Prepend(s, t, []);
    } else {
      var rest := SorterExchanges(Next(s, t), t);
      schedule := Prepend(s, t, rest);
    }
  }

  /** As long as the list is not sorted, some continuation of the run makes another exchange. */
  lemma CanExchange(s: State, list: seq<int>) returns (schedule: seq<nat>)
    requires Inv(s, list) && !Sorted(Settled(s))
    ensures Feasible(s, schedule) && Exchanges(s, schedule) > 0
  {
    var drain := Drain(s, list);
    schedule := drain;
    if Exchanges(s, drain) == 0 {
      RunKeepsInv(s, list, drain);
      ExchangesPayInversions(s, list, drain);
      var q := Run(s, drain);
      DrainedIsFree(q, list);
      NoInversionsIffSorted(Settled(s));
      NoInversionsIffSorted(Settled(q));
      var t: nat :| t + 1 < |q.num| && q.num[t + 1] < q.num[t];
      assert SorterKnows(q, t);
      var rest := SorterExchanges(q, t);
      Concat(s, drain, rest);
      schedule := drain + rest;
    }
  }

  function StepsToPublish(c: CheckerPc, n: nat): int {
    match c
    case Drop(i) => 3 * n + 6 - i
    case CRest => 2 * n + 5
    case CTest => 2 * n + 4
    case Take(i) => 2 * n + 3 - i
    case Scan(i, _) => n + 1 - i
    case Publish(_) => 1
    case CGone => 0
  }

  /** With no sorter in its section and the list sorted, the checker alone sets the flag. */
  lemma {:induction false} CheckerPublishes(s: State, list: seq<int>) returns (schedule: seq<nat>)
    requires Inv(s, list) && !s.quitting && Sorted(s.num)
    requires forall t :: 0 <= t < |s.sorters| ==> SorterRank(s.sorters[t].pc) == 0
    ensures Feasible(s, schedule) && Run(s, schedule).quitting
    decreases StepsToPublish(s.checker, |s.num|)
  {
    var u := |s.sorters|;
    if s.checker.Take? {
      assert LockAgrees(s, s.checker.i);
      assert !CheckerHolds(s.checker, s.checker.i);
    }
    StepKeepsInv(s, list, u);
    if s.checker.Publish? {
      schedule := Prepend(s, u, []);
    } else {
      var rest := CheckerPublishes(Next(s, u), list);
      schedule := Prepend(s, u, rest);
    }
  }

  /** The steps left to a sorter, and to the checker, once the flag is up. */
  function SorterLeft(pc: SorterPc): nat {
    match pc
    case TakeFirst => 10
    case TakeSecond => 9
    case Compare => 8
    case Save => 7
    case PutLow => 6
    case PutHigh => 5
    case DropFirst => 4
    case DropSecond => 3
    case Rest => 2
    case Test => 1
    case Gone => 0
  }

  function CheckerLeft(c: CheckerPc, n: nat): int {
    match c
    case Drop(i) => n - i + 2
    case CRest => 2
    case CTest => 1
    case _ => 0
  }

  ghost function StepsLeft(s: State): int
    requires Shaped(s)
  {
    SumOf(s.sorters, SorterLeft) + CheckerLeft(s.checker, |s.num|) + (|s.num| - s.joined)
  }

  /** Once the flag is up every step is one step nearer the end, whoever takes it. */
  lemma QuittingStepFalls(s: State, list: seq<int>, t: nat)
    requires Inv(s, list) && s.quitting && Enabled(s, t)
    ensures 0 <= StepsLeft(Next(s, t)) < StepsLeft(s)
  {
    var r := Next(s, t);
    if t < |s.sorters| {
      assert SorterKnows(s, t) && s.num[t] <= s.num[t + 1];
      assert r.sorters == s.sorters[t := r.sorters[t]];
      SumUpdates(s.sorters, SorterLeft, t, r.sorters[t]);
    }
  }

  /** So every run after the flag is up is finite, and its length is bounded in advance. */
  lemma {:induction false} QuittingTerminates(s: State, list: seq<int>, schedule: seq<nat>)
    requires Inv(s, list) && s.quitting && Feasible(s, schedule)
    ensures |schedule| + StepsLeft(Run(s, schedule)) <= StepsLeft(s) && StepsLeft(Run(s, schedule)) >= 0
    decreases |schedule|
  {
    if schedule != [] {
      var r := Next(s, schedule[0]);
      QuittingFreezes(s, list, schedule[0]);
      QuittingStepFalls(s, list, schedule[0]);
      StepKeepsInv(s, list, schedule[0]);
      QuittingTerminates(r, list, schedule[1..]);
    }
  }

  /** With the flag up, any thread that can move brings the joins nearer. */
  lemma {:induction false} QuittingFinishes(s: State, list: seq<int>) returns (schedule: seq<nat>)
    requires Inv(s, list) && s.quitting
    ensures Feasible(s, schedule) && Run(s, schedule).joined == |s.num|
    decreases StepsLeft(s)
  {
    if s.joined == |s.num| {
      schedule := [];
    } else {
      var u := NoDeadlock(s, list);
      QuittingFreezes(s, list, u);
      QuittingStepFalls(s, list, u);
      StepKeepsInv(s, list, u);
      var rest := QuittingFinishes(Next(s, u), list);
      schedule := Prepend(s, u, rest);
    }
  }

  /** From every reachable state the program can still sort its list, quit and be joined. */
  lemma {:induction false} CanFinish(s: State, list: seq<int>) returns (schedule: seq<nat>)
    requires Inv(s, list)
    ensures Feasible(s, schedule) && Run(s, schedule).joined == |s.num|
    decreases Count(Settled(s)), !s.quitting
  {
    var first;
    if s.quitting {
      schedule := QuittingFinishes(s, list);
      return;
    } else if !Sorted(Settled(s)) {
      first := CanExchange(s, list);
      ExchangesPayInversions(s, list, first);
    } else {
      first := CanQuit(s, list);
      ExchangesPayInversions(s, list, first);
    }
    RunKeepsInv(s, list, first);
    var rest := CanFinish(Run(s, first), list);
    Concat(s, first, rest);
    schedule := first + rest;
  }

  /** With the list sorted, the checker can be brought to see it. */
  lemma CanQuit(s: State, list: seq<int>) returns (schedule: seq<nat>)
    requires Inv(s, list) && !s.quitting && Sorted(Settled(s))
    ensures Feasible(s, schedule) && Run(s, schedule).quitting
  {
    schedule := Drain(s, list);
    RunKeepsInv(s, list, schedule);
    var q := Run(s, schedule);
    if !q.quitting {
      ExchangesPayInversions(s, list, schedule);
      NoInversionsIffSorted(Settled(s));
      NoInversionsIffSorted(Settled(q));
      DrainedIsFree(q, list);
      var rest := CheckerPublishes(q, list);
      Concat(s, schedule, rest);
      schedule := schedule + rest;
    }
  }

  // ---------------------------------------------------------------- the loops on the array

  /** The body of fnsort's critical section, on the shared array. */
  method ExchangeIfInverted(num: array<int>, i: nat)
    requires i + 1 < num.Length
    modifies num
    ensures num[..] == (if old(num[i + 1]) < old(num[i]) then Exchange(old(num[..]), i) else old(num[..]))
  {
    if num[i + 1] < num[i] {
      var swap := num[i];
      num[i] := num[i + 1];
      num[i + 1] := swap;
    }
  }

  /** fncheck's scan: `check` is the value stored in `quitting`. */
  method CheckSorted(num: array<int>) returns (check: bool)
    ensures check <==> Sorted(num[..])
  {
    check := true;
    var i := 0;
    while i < num.Length - 1 && check
      invariant 0 <= i
      invariant i < num.Length || i == 0
      invariant check ==> forall k :: 0 <= k < i ==> num[k] <= num[k + 1]
      invariant !check ==> !Sorted(num[..])
    {
      if num[i] > num[i + 1] {
        assert num[..][i] > num[..][i + 1];
        check := false;
      }
      i := i + 1;
    }
  }

  /**
   * Sorter t alone, from its comparison to its first unlock, does in the machine what
   * ExchangeIfInverted does to the array.
   */
  lemma SoloSectionMatches(s: State, t: nat) returns (schedule: seq<nat>)
    requires Shaped(s) && t < |s.sorters| && s.sorters[t].pc == Compare
    ensures Feasible(s, schedule)
    ensures Run(s, schedule).num == if s.num[t + 1] < s.num[t] then Exchange(s.num, t) else s.num
    ensures Run(s, schedule).sorters[t].pc == DropFirst
  {
    schedule := [];
    if s.num[t + 1] < s.num[t] {
      var s3 := Next(Next(Next(s, t), t), t);
      schedule := Prepend(s3, t, []);
      schedule := Prepend(Next(Next(s, t), t), t, schedule);
      schedule := Prepend(Next(s, t), t, schedule);
      assert Next(s3, t).num == Exchange(s.num, t);
    }
    schedule := Prepend(s, t, schedule);
  }

  lemma Prepend(s: State, t: nat, rest: seq<nat>) returns (schedule: seq<nat>)
    requires Shaped(s) && Enabled(s, t) && Feasible(Next(s, t), rest)
    ensures Feasible(s, schedule) && Run(s, schedule) == Run(Next(s, t), rest)
    ensures Exchanges(s, schedule) == (if StartsExchange(s, t) then 1 else 0) + Exchanges(Next(s, t), rest)
  {
    schedule := [t] + rest;
    assert schedule[1..] == rest;
  }
}
