/**
 * The thread library and the paged heaps together: schedule decides who runs, and hands the
 * memory over with mprotect_setter whenever it swaps. Nothing is assumed about which thread it
 * picks, so the one way to break the heaps, a swap from a thread to itself, shows as an exact
 * condition on each step.
 */
module Machine {
  import opened PageTable
  import opened PagingMoves
  import opened AddressSpace
  import opened BlockList
  import opened Headers
  import opened Allocator
  import opened ThreadSpace
  import opened SharedHeaps
  import opened SharedRuns
  import opened SchedulerSpec
  import opened MutexSpec
  import PagingRuns
  import Threads = ThreadSystem

  type System = Threads.System
  type Call = Threads.Step

  datatype Machine = Machine(threads: System, world: World)

  /** A library call of the running thread or a tick, or a step on the running thread's heap. */
  datatype Step = Library(call: Call) | Heap(access: SharedHeaps.Step)

  // ---------------------------------------------------------------- calls of schedule

  /** The call swaps threads. */
  ghost predicate SwapsIn(s: System, call: Call)
    requires Threads.Inv(s)
  {
    Threads.AtScheduleOk(s, call);
    Threads.CallsSchedule(s, call) && Swaps(Threads.AtSchedule(s, call), call.now)
  }

  lemma SwapsKnown(s: System, call: Call)
    requires Threads.Inv(s)
    ensures WellFormed(Threads.AtSchedule(s, call)) && QueuedArePlaced(Threads.AtSchedule(s, call))
    ensures SwapsIn(s, call) <==> Threads.CallsSchedule(s, call) && Swaps(Threads.AtSchedule(s, call), call.now)
  {
    hide Threads.Inv, WellFormed, QueuedArePlaced, Swaps, Threads.AtSchedule;
    Threads.AtScheduleOk(s, call);
  }

  lemma ScheduleStays(e: Sched<nat>, now: int)
    requires WellFormed(e) && !Swaps(e, now)
    ensures Schedule(e, now).current == e.current
  {
    hide Swaps, WellFormed;
  }

  lemma NoSwapStays(s: System, call: Call)
    requires Threads.Inv(s) && Threads.Allowed(s, call) && !SwapsIn(s, call)
    ensures Threads.Next(s, call).sched.current == s.sched.current
  {
    hide Threads.Inv, Threads.Allowed, Threads.Next, WellFormed, QueuedArePlaced, Threads.AtSchedule, Schedule,
      Swaps, SwapsIn;
    SwapsKnown(s, call);
    Threads.CallRuns(s, call);
    Threads.AtScheduleOk(s, call);
    if Threads.CallsSchedule(s, call) {
      ScheduleStays(Threads.AtSchedule(s, call), call.now);
    }
  }

  /** schedule dispatches the thread that left. */
  ghost predicate SelfSwap(s: System, call: Call)
    requires Threads.Inv(s) && Threads.Allowed(s, call)
  {
    SwapsIn(s, call) && Threads.Next(s, call).sched.current == s.sched.current
  }

  /**
   * It does exactly when the call swaps, the thread is queued again, and the queues up to its
   * own are empty after the call's maintenance.
   */
  lemma SelfSwapIff(s: System, call: Call)
    requires Threads.Inv(s) && Threads.Allowed(s, call)
    ensures
      var e := Threads.AtSchedule(s, call);
      && WellFormed(e) && e.current in e.tcb
      && (SelfSwap(s, call) <==>
            && SwapsIn(s, call)
            && var queues, b := Tend(e, call.now).queues, e.tcb[e.current];
               |queues| == RUN_QUEUES && 0 <= BackTo(b) < RUN_QUEUES && b.state != Exited && b.state != Blocked
               && forall i :: 0 <= i <= BackTo(b) ==> queues[i] == [])
  {
    hide Threads.Inv, Threads.Allowed, Threads.Next, WellFormed, QueuedArePlaced, Threads.AtSchedule, Tend,
      BackTo, Swaps, SwapsIn, Schedule;
    SwapsKnown(s, call);
    Threads.AtScheduleOk(s, call);
    Threads.CallRuns(s, call);
    var e := Threads.AtSchedule(s, call);
    if SwapsIn(s, call) {
      RedispatchedIff(e, call.now);
    }
    CurrentKnown(e);
  }

  lemma CurrentKnown(e: Sched<nat>)
    requires WellFormed(e)
    ensures e.current in e.tcb
  {
  }

  // ---------------------------------------------------------------- the machine

  ghost predicate MachineOk(m: Machine) {
    Threads.Inv(m.threads) && WorldOk(m.world) && m.world.memory.current == m.threads.sched.current
  }

  ghost predicate StepsTo(m: Machine, step: Step, r: Machine) {
    var s, w := m.threads, m.world;
    match step
    case Library(call) =>
      && Threads.Inv(s) && Threads.Allowed(s, call) && r.threads == Threads.Next(s, call)
      && Sized(w.memory)
      && r.world == if SwapsIn(s, call) then w.(memory := Switch(w.memory, r.threads.sched.current)) else w
    case Heap(access) =>
      && !access.SwitchTo? && !access.Adopt? && !s.finished
      && r.threads == s && SharedHeaps.StepsTo(w, access, r.world)
  }

  /** The running thread has a page where its addresses point, or a first page in memory. */
  ghost predicate HasPages(s: Memory)
    requires Sized(s)
  {
    HeadInMemory(s) || !NonePlaced(s)
  }

  /** A swap from a thread with pages to itself. */
  ghost predicate ClosesItself(m: Machine, step: Step) {
    && step.Library? && Threads.Inv(m.threads) && Threads.Allowed(m.threads, step.call)
    && SelfSwap(m.threads, step.call) && Sized(m.world.memory) && HasPages(m.world.memory)
  }

  /** After the first create: one running thread, and nobody has a page. */
  lemma InitMachineOk(pages: seq<Page>, main: nat, mutexes: set<nat>, now: int)
    requires |pages| == LAST_SWAP_PAGE
    ensures MachineOk(Machine(Threads.Init(main, mutexes, now), World(InitAll(pages, main), map[])))
  {
    hide Threads.Inv, WorldOk;
    Threads.InitInv(main, mutexes, now);
    InitWorldOk(pages, main);
  }

  lemma MachineParts(m: Machine)
    requires MachineOk(m)
    ensures Threads.Inv(m.threads) && WorldOk(m.world) && m.world.memory.current == m.threads.sched.current
    ensures Sized(m.world.memory) && Addressable(m.world.memory) && Tagged(m.world.memory)
  {
    hide Threads.Inv, Addressable, SharedHeaps.ThreadOk;
    AddressableTagged(m.world.memory);
  }

  lemma WorldIsAddressable(w: World)
    requires WorldOk(w)
    ensures Addressable(w.memory)
  {
    hide Addressable, SharedHeaps.ThreadOk;
  }

  lemma SwitchKeepsWorldIff(w: World, to: int)
    requires WorldOk(w) && to != NO_THREAD && Sized(w.memory)
    ensures WorldOk(w.(memory := Switch(w.memory, to))) <==> to != w.memory.current || !HasPages(w.memory)
  {
    hide WorldOk, Addressable, Switch, NonePlaced, HeadInMemory, View;
    var r := Switch(w.memory, to);
    WorldIsAddressable(w);
    SwitchKeepsAddressableIff(w.memory, to);
    if Addressable(r) {
      AddressableTagged(w.memory);
      AddressableTagged(r);
      AddressableParts(w.memory);
      PagingRuns.SwitchStep(w.memory, to);
      MoveKeepsWorld(w, r);
    } else if WorldOk(w.(memory := r)) {
      WorldIsAddressable(w.(memory := r));
    }
  }

  lemma AccessRuns(w: World, access: SharedHeaps.Step, r: World)
    requires WorldOk(w) && SharedHeaps.StepsTo(w, access, r) && !access.SwitchTo? && !access.Adopt?
    ensures r.memory.current == w.memory.current
  {
    hide WorldOk, Tagged, Touch, View;
    match access
    case Malloc(size) =>
      var p, q, c, ptr := MallocCalls(w, size, r);
      CallStays(w, p, r, q, c);
    case Release(ptr) =>
      var p, q, c := ReleaseCalls(w, ptr, r);
      CallStays(w, p, r, q, c);
    case Write(a, v) =>
      var p := WriteDid(w, a, v, r);
    case Read(a) => ReadRuns(w, a);
  }

  lemma ReadRuns(w: World, a: int)
    requires WorldOk(w) && Tagged(w.memory) && (w.memory.current, a / PAGE_SIZE) in View(w.memory)
    ensures Touch(w.memory, a / PAGE_SIZE).current == w.memory.current
  {
    hide Addressable, View, Touch, SharedHeaps.ThreadOk;
    TouchReaches(w.memory, a / PAGE_SIZE);
  }

  lemma CallStays(w: World, p: nat, r: World, q: nat, c: seq<Block>)
    requires Calls(w, p, r, q, c)
    ensures r.memory.current == w.memory.current
  {
  }

  /**
   * Whatever the threads call and however schedule picks, a step keeps the scheduler's
   * invariants, the heaps of all threads and their agreement on who runs, exactly when it is
   * not a swap from a thread with pages to itself.
   */
  lemma StepKeepsMachineIff(m: Machine, step: Step, r: Machine)
    requires MachineOk(m) && StepsTo(m, step, r)
    ensures MachineOk(r) <==> !ClosesItself(m, step)
  {
    hide Threads.Inv, Threads.Allowed, Threads.Next, SwapsIn, WorldOk, Switch, HasPages,
      SharedHeaps.StepsTo, Sized;
    MachineParts(m);
    match step
    case Library(call) =>
      Threads.StepKeepsInv(m.threads, call);
      if SwapsIn(m.threads, call) {
        SwitchKeepsWorldIff(m.world, r.threads.sched.current);
        SwitchRuns(m.world.memory, r.threads.sched.current);
      } else {
        NoSwapStays(m.threads, call);
      }
    case Heap(access) =>
      StepKeepsWorld(m.world, access, r.world);
      AccessRuns(m.world, access, r.world);
  }

  lemma SwitchRuns(s: Memory, to: int)
    requires Sized(s)
    ensures Switch(s, to).current == to
  {
  }

  // ---------------------------------------------------------------- runs

  ghost predicate IsRun(ms: seq<Machine>, steps: seq<Step>) {
    |ms| == |steps| + 1 && forall i :: 0 <= i < |steps| ==> StepsTo(ms[i], steps[i], ms[i + 1])
  }

  ghost predicate NeverClosesItself(ms: seq<Machine>, steps: seq<Step>)
    requires |ms| == |steps| + 1
  {
    forall i :: 0 <= i < |steps| ==> !ClosesItself(ms[i], steps[i])
  }

  /** A run keeps everything throughout exactly when no swap of it is from a thread with pages to itself. */
  lemma RunKeepsMachineIff(ms: seq<Machine>, steps: seq<Step>)
    requires IsRun(ms, steps) && MachineOk(ms[0])
    ensures (forall i :: 0 <= i < |ms| ==> MachineOk(ms[i])) <==> NeverClosesItself(ms, steps)
  {
    hide MachineOk, StepsTo, ClosesItself;
    if NeverClosesItself(ms, steps) {
      forall i | 0 <= i < |ms| ensures MachineOk(ms[i]) {
        RunKeepsMachine(ms, steps, i);
      }
    } else {
      var i :| 0 <= i < |steps| && ClosesItself(ms[i], steps[i]);
      if MachineOk(ms[i]) { StepKeepsMachineIff(ms[i], steps[i], ms[i + 1]); }
      assert !MachineOk(ms[i]) || !MachineOk(ms[i + 1]);
    }
  }

  lemma {:induction false} RunKeepsMachine(ms: seq<Machine>, steps: seq<Step>, i: nat)
    requires IsRun(ms, steps) && MachineOk(ms[0]) && NeverClosesItself(ms, steps) && i < |ms|
    ensures MachineOk(ms[i])
    decreases i
  {
    hide MachineOk, StepsTo, ClosesItself;
    if i > 0 {
      RunKeepsMachine(ms, steps, i - 1);
      StepKeepsMachineIff(ms[i - 1], steps[i - 1], ms[i]);
    }
  }

  /** Thread t frees e. */
  predicate GivesBack(m: Machine, step: Step, t: int, e: Block) {
    step.Heap? && SharedRuns.GivesBack(m.world, step.access, t, e)
  }

  function After(m: Machine, step: Step, t: int, a: int, v: int): int {
    if step.Heap? then SharedRuns.After(m.world, step.access, t, a, v) else v
  }

  lemma StepKeepsByte(m: Machine, step: Step, r: Machine, t: int, e: Block, a: int, v: int)
    requires MachineOk(m) && StepsTo(m, step, r) && InPayload(e, a) && !ClosesItself(m, step)
    requires Holds(m.world, t, e) && Reads(m.world, t, a, v) && !GivesBack(m, step, t, e)
    ensures Holds(r.world, t, e) && Reads(r.world, t, a, After(m, step, t, a, v))
  {
    hide Threads.Inv, Threads.Allowed, Threads.Next, SwapsIn, WorldOk, Switch, Live, InPayload,
      SharedHeaps.StepsTo, Sized, ByteAt, Tagged;
    MachineParts(m);
    match step
    case Library(call) =>
      if SwapsIn(m.threads, call) {
        SwitchKeepsBytes(m.world.memory, r.threads.sched.current, t, a);
      }
    case Heap(access) =>
      SharedRuns.StepKeepsByte(m.world, access, r.world, t, e, a, v);
  }

  lemma SwitchKeepsBytes(s: Memory, to: int, t: int, a: int)
    requires Addressable(s) && to != NO_THREAD && Sized(s)
    ensures Tagged(s) && Tagged(Switch(s, to)) && ByteAt(Switch(s, to), t, a) == ByteAt(s, t, a)
  {
    hide PagingRuns.Inv, Layered, PlacedOpen, HeadOpen, View, Tagged, ByteAt, Switch;
    AddressableTagged(s);
    PagingRuns.SwitchStep(s, to);
    PagingRuns.InvUnique(Switch(s, to));
    SameViewByte(s, Switch(s, to), t, a);
  }

  function LastStored(ms: seq<Machine>, steps: seq<Step>, t: int, a: int, v: int): int
    requires |ms| == |steps| + 1
    decreases |steps|
  {
    if steps == [] then v
    else
      var n := |steps| - 1;
      After(ms[n], steps[n], t, a, LastStored(ms[..n + 1], steps[..n], t, a, v))
  }

  ghost predicate NeverFrees(ms: seq<Machine>, steps: seq<Step>, t: int, e: Block)
    requires |ms| == |steps| + 1
  {
    forall i :: 0 <= i < |steps| ==> !GivesBack(ms[i], steps[i], t, e)
  }

  lemma RunFront(ms: seq<Machine>, steps: seq<Step>, t: int, e: Block)
    requires IsRun(ms, steps) && steps != [] && NeverFrees(ms, steps, t, e) && NeverClosesItself(ms, steps)
    ensures
      var n := |steps| - 1;
      && IsRun(ms[..n + 1], steps[..n]) && NeverFrees(ms[..n + 1], steps[..n], t, e)
      && NeverClosesItself(ms[..n + 1], steps[..n])
      && StepsTo(ms[n], steps[n], ms[n + 1]) && !GivesBack(ms[n], steps[n], t, e) && !ClosesItself(ms[n], steps[n])
  {
    hide StepsTo, GivesBack, ClosesItself;
  }

  /** Under any schedule, what a thread was given holds what the thread stored there last, until it frees it. */
  lemma {:induction false} PayloadHoldsLastStore(ms: seq<Machine>, steps: seq<Step>, t: int, e: Block, a: int, v: int)
    requires IsRun(ms, steps) && MachineOk(ms[0]) && NeverClosesItself(ms, steps)
    requires InPayload(e, a) && NeverFrees(ms, steps, t, e)
    requires Holds(ms[0].world, t, e) && Reads(ms[0].world, t, a, v)
    ensures Holds(ms[|steps|].world, t, e) && Reads(ms[|steps|].world, t, a, LastStored(ms, steps, t, a, v))
    decreases |steps|
  {
    hide MachineOk, StepsTo, IsRun, NeverFrees, NeverClosesItself, Holds, Reads, InPayload, GivesBack, ClosesItself;
    RunLength(ms, steps);
    if steps != [] {
      var n := |steps| - 1;
      RunFront(ms, steps, t, e);
      PayloadHoldsLastStore(ms[..n + 1], steps[..n], t, e, a, v);
      RunKeepsMachine(ms, steps, n);
      StepKeepsByte(ms[n], steps[n], ms[n + 1], t, e, a, LastStored(ms[..n + 1], steps[..n], t, a, v));
    }
  }

  lemma RunLength(ms: seq<Machine>, steps: seq<Step>)
    requires IsRun(ms, steps)
    ensures |ms| == |steps| + 1
  {
  }
}
