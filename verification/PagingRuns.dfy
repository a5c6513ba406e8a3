/**
 * Whole runs of the page manager: any sequence of first pages, growth, page faults,
 * stores and context switches keeps every thread's pages apart, loses none, and changes
 * a page only by a store of its owner. Page faults are handled as swapPage intends.
 */
module PagingRuns {
  import opened PageTable
  import opened PagingMoves

  /** No frame of a thread that does not run can be read or written. */
  ghost predicate Isolated(s: Memory)
    requires Sized(s)
  {
    forall y :: User(y) && s.table[y].inUse && s.table[y].tid != s.current ==> !s.open[y]
  }

  /** mprotect_setter does not look at the swap file, so its frames have to stay closed. */
  ghost predicate SwapSealed(s: Memory)
    requires Sized(s)
  {
    forall y :: FIRST_SWAP_PAGE <= y < LAST_SWAP_PAGE && s.table[y].inUse ==> !s.open[y]
  }

  /** The swap file is used only when memory is full. */
  ghost predicate SwapIdle(s: Memory)
    requires Sized(s)
  {
    forall y, z :: FIRST_USER_PAGE <= y < FIRST_SWAP_PAGE <= z < LAST_SWAP_PAGE && !s.table[y].inUse ==>
      !s.table[z].inUse
  }

  ghost predicate Sealed(s: Memory) {
    Tagged(s) && Isolated(s) && SwapSealed(s) && SwapIdle(s)
  }

  ghost predicate Inv(s: Memory) {
    Unique(s) && Accounted(s) && Sealed(s)
  }

  datatype Step =
    | Head
    | Extend(x: nat)
    | SwitchTo(to: int)
    | Fault(n: int, evict: nat)
    | Store(y: nat, page: Page)
    | Adopt(id: int)

  /**
   * What callers, and the hardware for a store, guarantee: the first page is not in the
   * swap file, growth starts from the thread's last page and stays in memory, a faulting
   * page exists, a store goes to an open frame, and a thread that gets another number has no
   * open frame.
   */
  ghost predicate Allowed(s: Memory, step: Step)
    requires Tagged(s)
  {
    match step
    case Head => !HeadInSwap(s)
    case Extend(x) =>
      && FIRST_USER_PAGE < x < FIRST_SWAP_PAGE && s.table[x - 1].inUse
      && (s.current, NextNum(s, x)) !in View(s)
    case SwitchTo(to) => to != NO_THREAD
    case Fault(n, evict) => FIRST_USER_PAGE <= evict < FIRST_SWAP_PAGE && (s.current, n) in View(s)
    case Store(y, _) => User(y) && s.open[y]
    case Adopt(id) => id != NO_THREAD && (id == s.current || NoneOpen(s))
  }

  /** No frame that can be read or written holds a page of the running thread. */
  ghost predicate NoneOpen(s: Memory)
    requires Sized(s)
  {
    forall y :: User(y) && s.table[y].inUse && s.table[y].tid == s.current ==> !s.open[y]
  }

  function Next(s: Memory, step: Step): Memory
    requires Sized(s) && (step.Extend? ==> FIRST_USER_PAGE < step.x < LAST_SWAP_PAGE)
    requires step.Fault? ==> User(step.evict)
    requires step.Store? ==> User(step.y)
  {
    match step
    case Head => GetHead(s, MALLOC_FLAG).0
    case Extend(x) => Grow(s, x).0
    case SwitchTo(to) => Switch(s, to)
    case Fault(n, evict) => SwapPageMended(s, s.current, n, evict).GetOr(s)
    case Store(y, page) => s.(pages := s.pages[y := page])
    case Adopt(id) => s.(current := id)
  }

  // ---------------------------------------------------------------- protection

  lemma ExchangeKeepsSeals(s: Memory, x: nat, y: nat)
    requires Sealed(s) && User(x) && User(y) && x < FIRST_SWAP_PAGE
    requires s.table[y].inUse && s.table[y].tid == s.current
    ensures Sealed(Exchange(s, x, y))
  {
    var r := Exchange(s, x, y);
    if y >= FIRST_SWAP_PAGE {
      assert s.table[x].inUse;
    }
    assert SwapIdle(r) by {
      forall p, q | FIRST_USER_PAGE <= p < FIRST_SWAP_PAGE <= q < LAST_SWAP_PAGE && !r.table[p].inUse
        ensures !r.table[q].inUse
      {
        var p0 := if p == y then x else p;
        assert !s.table[p0].inUse;
      }
    }
  }

  /** r is s after frame x was given to the running thread; the page it held moved to frame y, closed. */
  ghost predicate Resealed(s: Memory, r: Memory, y: nat, x: nat, n: int) {
    && Given(s, r, y, x, n) && (forall z :: User(z) && z != x && z != y ==> r.open[z] == s.open[z])
    && (y != x ==> !r.open[y])
  }

  lemma GivenKeepsSeals(s: Memory, r: Memory, y: nat, x: nat, n: int)
    requires Sealed(s) && Resealed(s, r, y, x, n) && x < FIRST_SWAP_PAGE
    requires y == FirstFree(s.table, FIRST_USER_PAGE, LAST_SWAP_PAGE) && y < LAST_SWAP_PAGE
    ensures Sealed(r)
  {
    assert Tagged(r) && Isolated(r) && SwapSealed(r);
    GivenKeepsSwapIdle(s, r, y, x, n);
  }

  lemma GivenKeepsSwapIdle(s: Memory, r: Memory, y: nat, x: nat, n: int)
    requires Sized(s) && SwapIdle(s) && Given(s, r, y, x, n) && x < FIRST_SWAP_PAGE
    requires y == FirstFree(s.table, FIRST_USER_PAGE, LAST_SWAP_PAGE)
    ensures SwapIdle(r)
  {
    forall p, q | FIRST_USER_PAGE <= p < FIRST_SWAP_PAGE <= q < LAST_SWAP_PAGE && !r.table[p].inUse
      ensures !r.table[q].inUse
    {
      assert !s.table[if p == y then x else p].inUse;
    }
  }

  lemma HeadKeepsSeals(s: Memory, flag: int)
    requires Sealed(s)
    ensures Sealed(GetHead(s, flag).0)
  {
    HeadIsFound(s);
    var h := FindFrame(s.table, s.current, 0, FIRST_USER_PAGE, FIRST_SWAP_PAGE);
    if FIRST_USER_PAGE < h < FIRST_SWAP_PAGE {
      ExchangeKeepsSeals(s, FIRST_USER_PAGE, h);
    } else if h == FIRST_SWAP_PAGE && flag != 0 {
      NewHeadKeepsSeals(s);
    }
  }

  lemma NewHeadKeepsSeals(s: Memory)
    requires Sealed(s)
    ensures Sealed(NewHead(s).0)
  {
    if !Full(s) {
      var x := FIRST_USER_PAGE;
      var y := FirstFree(s.table, x, LAST_SWAP_PAGE);
      var r := NewHead(s).0;
      assert r.table == s.table[y := s.table[x]][x := PageMeta(s.current, 0, true)];
      assert Resealed(s, r, y, x, 0);
      GivenKeepsSeals(s, r, y, x, 0);
    }
  }

  lemma GrowKeepsSeals(s: Memory, x: nat)
    requires Sealed(s) && FIRST_USER_PAGE < x < FIRST_SWAP_PAGE && s.table[x - 1].inUse
    ensures Sealed(Grow(s, x).0)
  {
    if !Full(s) {
      hide Grow, Full;
      GrownTable(s, x);
      GivenKeepsSeals(s, Grow(s, x).0, FirstFree(s.table, FIRST_USER_PAGE, LAST_SWAP_PAGE), x, NextNum(s, x));
    } else {
      FullStays(s, x);
    }
  }

  lemma FullStays(s: Memory, x: nat)
    requires Sized(s) && Full(s) && FIRST_USER_PAGE < x < LAST_SWAP_PAGE
    ensures Grow(s, x) == (s, false)
  {
  }

  lemma SwitchKeepsSeals(s: Memory, to: int)
    requires Sealed(s) && to != NO_THREAD
    ensures Sealed(Switch(s, to))
  {
  }

  /** Frame by frame: the thread that ran is shut out, the next one let in, and no other protection changes. */
  lemma SwitchProtects(s: Memory, to: int, y: nat)
    requires Sized(s) && y < LAST_SWAP_PAGE
    ensures
      var r, inMemory := Switch(s, to), FIRST_USER_PAGE <= y < FIRST_SWAP_PAGE;
      && r.table == s.table && r.pages == s.pages && r.current == to
      && (inMemory && s.table[y].tid == s.current ==> !r.open[y])
      && (inMemory && s.table[y].tid == to != s.current ==> r.open[y])
      && (!inMemory || (s.table[y].tid != s.current && s.table[y].tid != to) ==> r.open[y] == s.open[y])
  {
  }

  /**
   * A context switch opens the next thread's frames in memory, unless the scheduler
   * dispatched the thread that was running: then it closes them, and every access of
   * that thread faults.
   */
  lemma SwitchOpensIff(s: Memory, to: int)
    requires Sized(s)
    ensures
      var r := Switch(s, to);
      (forall y :: FIRST_USER_PAGE <= y < FIRST_SWAP_PAGE && r.table[y].tid == to ==> r.open[y]) <==>
      (to != s.current || forall y :: FIRST_USER_PAGE <= y < FIRST_SWAP_PAGE ==> s.table[y].tid != to)
  {
    var r := Switch(s, to);
    if to == s.current {
      forall y | FIRST_USER_PAGE <= y < FIRST_SWAP_PAGE && s.table[y].tid == to
        ensures r.table[y].tid == to && !r.open[y]
      {
      }
    }
  }

  /** swapPage as written opens the frame of another thread exactly when the evicted page is another thread's. */
  lemma SwapIsolatesIff(s: Memory, n: int, evict: nat)
    requires Unique(s) && Isolated(s) && User(evict) && (s.current, n) in View(s)
    ensures
      var r := SwapPage(s, s.current, n, evict);
      r.Some? && (Isolated(r.value) <==> !(s.table[evict].inUse && s.table[evict].tid != s.current))
  {
    var y := FrameOf(s, (s.current, n));
    var r := SwapPage(s, s.current, n, evict).value;
    assert r.open[evict] <==> evict != y;
  }

  /** As long as a frame of memory is free, no first page is in the swap file. */
  lemma RoomFindsHead(s: Memory)
    requires Inv(s) && s.freeMem > 0
    ensures !HeadInSwap(s)
  {
    UnusedFound(s.table, FIRST_USER_PAGE, FIRST_SWAP_PAGE);
    var y :| FIRST_USER_PAGE <= y < FIRST_SWAP_PAGE && !s.table[y].inUse;
    forall z | FIRST_SWAP_PAGE <= z < LAST_SWAP_PAGE ensures !Tags(s.table[z], s.current, 0) {
      assert User(z) && !s.table[z].inUse;
    }
  }

  lemma {:induction false} UnusedFound(table: seq<PageMeta>, lo: nat, hi: nat)
    requires lo <= hi <= |table| && Unused(table, lo, hi) > 0
    ensures exists y :: lo <= y < hi && !table[y].inUse
    decreases hi - lo
  {
    if table[lo].inUse { UnusedFound(table, lo + 1, hi); }
  }

  // ---------------------------------------------------------------- one step

  lemma InitAllInv(pages: seq<Page>, current: int)
    requires |pages| == LAST_SWAP_PAGE && current != NO_THREAD
    ensures Inv(InitAll(pages, current)) && View(InitAll(pages, current)) == map[]
  {
    var s := InitAll(pages, current);
    AllUnused(s.table, FIRST_USER_PAGE, FIRST_SWAP_PAGE);
    AllUnused(s.table, FIRST_SWAP_PAGE, LAST_SWAP_PAGE);
    assert Keys(s) == {};
  }

  lemma {:induction false} AllUnused(table: seq<PageMeta>, lo: nat, hi: nat)
    requires lo <= hi <= |table| && forall y :: lo <= y < hi ==> !table[y].inUse
    ensures Unused(table, lo, hi) == hi - lo
    decreases hi - lo
  {
    if lo < hi { AllUnused(table, lo + 1, hi); }
  }

  /** The abstract step: maps from (thread, page) to contents, with no frames in sight. */
  ghost predicate Refines(s: Memory, step: Step, r: Memory)
    requires Tagged(s) && Tagged(r)
  {
    match step
    case Head => View(r) == View(s) || AddsPage(s, r, 0)
    case Extend(x) => View(r) == View(s) || (FIRST_USER_PAGE < x < LAST_SWAP_PAGE && AddsPage(s, r, NextNum(s, x)))
    case SwitchTo(_) => View(r) == View(s)
    case Fault(_, _) => View(r) == View(s)
    case Adopt(_) => View(r) == View(s)
    case Store(y, page) =>
      if User(y) && s.table[y].inUse then
        s.table[y].tid == s.current && View(r) == View(s)[Key(s.table[y]) := page]
      else View(r) == View(s)
  }

  ghost predicate AddsPage(s: Memory, r: Memory, n: int)
    requires Tagged(s) && Tagged(r)
  {
    && (s.current, n) !in View(s)
    && (s.current, n) in View(r)
    && View(r) == View(s)[(s.current, n) := View(r)[(s.current, n)]]
  }

  lemma AddsPageIs(s: Memory, r: Memory, n: int, page: Page)
    requires Tagged(s) && Tagged(r) && (s.current, n) !in View(s) && View(r) == View(s)[(s.current, n) := page]
    ensures AddsPage(s, r, n)
  {
  }

  lemma HeadRefines(s: Memory)
    requires Unique(s) && !HeadInSwap(s)
    ensures var r := GetHead(s, MALLOC_FLAG).0; Unique(r) && Refines(s, Head, r)
  {
    var (r, found) := GetHead(s, MALLOC_FLAG);
    if HeadInMemory(s) {
      HeadComesBack(s, MALLOC_FLAG);
    } else {
      NewHeadAddsOne(s, MALLOC_FLAG);
      if found {
        HeadKnownIff(s);
        AddsPageIs(s, r, 0, r.pages[FIRST_USER_PAGE]);
      }
    }
  }

  lemma HeadStep(s: Memory)
    requires Inv(s) && !HeadInSwap(s)
    ensures var r := GetHead(s, MALLOC_FLAG).0; Inv(r) && Refines(s, Head, r)
  {
    HeadKeepsSeals(s, MALLOC_FLAG);
    GetHeadKeepsAccount(s, MALLOC_FLAG);
    HeadRefines(s);
  }

  lemma ExtendRefines(s: Memory, x: nat)
    requires Unique(s) && FIRST_USER_PAGE < x < FIRST_SWAP_PAGE && s.table[x - 1].inUse
    requires (s.current, NextNum(s, x)) !in View(s)
    ensures var r := Grow(s, x).0; Unique(r) && Refines(s, Extend(x), r)
  {
    GrowAddsOne(s, x);
    var (r, grown) := Grow(s, x);
    if grown {
      AddsPageIs(s, r, NextNum(s, x), r.pages[x]);
    }
  }

  lemma ExtendStep(s: Memory, x: nat)
    requires Inv(s) && FIRST_USER_PAGE < x < FIRST_SWAP_PAGE && s.table[x - 1].inUse
    requires (s.current, NextNum(s, x)) !in View(s)
    ensures var r := Grow(s, x).0; Inv(r) && Refines(s, Extend(x), r)
  {
    GrowKeepsSeals(s, x);
    ExtendRefines(s, x);
    if Full(s) {
      GrowAddsOne(s, x);
    } else {
      GrowKeepsAccountIff(s, x);
    }
  }

  /**
   * A round of growth keeps the invariant exactly when the frame it gives away is below the
   * swap file, whose frames have to stay closed.
   */
  lemma ExtendKeepsInvIff(s: Memory, x: nat)
    requires Inv(s) && FIRST_USER_PAGE < x < LAST_SWAP_PAGE && s.table[x - 1].inUse && !Full(s)
    requires (s.current, NextNum(s, x)) !in View(s)
    ensures Inv(Grow(s, x).0) <==> x < FIRST_SWAP_PAGE
  {
    if x < FIRST_SWAP_PAGE {
      ExtendStep(s, x);
    } else {
      var r := Grow(s, x).0;
      assert r.table[x].inUse && r.open[x];
    }
  }

  lemma SwitchStep(s: Memory, to: int)
    requires Inv(s) && to != NO_THREAD
    ensures Inv(Switch(s, to)) && View(Switch(s, to)) == View(s)
  {
    SwitchKeepsSeals(s, to);
    SameTableSameView(s, Switch(s, to));
  }

  lemma SameTableSameView(s: Memory, r: Memory)
    requires Unique(s) && Sized(r) && r.table == s.table && r.pages == s.pages && r.current != NO_THREAD
    ensures Unique(r) && View(r) == View(s)
  {
    assert Keys(r) == Keys(s);
  }

  /**
   * The first create gives the main thread its number without a call of mprotect_setter. That
   * keeps the invariant exactly when the thread has no open frame by then.
   */
  lemma AdoptKeepsInvIff(s: Memory, id: int)
    requires Inv(s) && id != NO_THREAD && id != s.current
    ensures Inv(s.(current := id)) <==> NoneOpen(s)
  {
    hide Accounted, SwapSealed, SwapIdle;
    var r := s.(current := id);
    SameTableSameView(s, r);
    SameTableSameSeals(s, r);
    if NoneOpen(s) {
      assert Isolated(r);
    } else {
      var y :| User(y) && s.table[y].inUse && s.table[y].tid == s.current && s.open[y];
      assert r.table[y].tid != r.current && r.open[y];
    }
  }

  lemma SameTableSameSeals(s: Memory, r: Memory)
    requires Sized(s) && Sized(r) && r.table == s.table && r.open == s.open
    requires r.freeMem == s.freeMem && r.freeSwap == s.freeSwap
    ensures (Accounted(s) <==> Accounted(r)) && (SwapSealed(s) <==> SwapSealed(r)) && (SwapIdle(s) <==> SwapIdle(r))
  {
  }

  lemma AdoptStep(s: Memory, id: int)
    requires Inv(s) && id != NO_THREAD && (id == s.current || NoneOpen(s))
    ensures Inv(s.(current := id)) && View(s.(current := id)) == View(s)
  {
    hide Inv, View;
    InvUnique(s);
    if id != s.current { AdoptKeepsInvIff(s, id); }
    SameTableSameView(s, s.(current := id));
  }

  lemma InvUnique(s: Memory)
    requires Inv(s)
    ensures Unique(s) && Tagged(s) && Sized(s)
  {
  }

  lemma FaultStep(s: Memory, n: int, evict: nat)
    requires Inv(s) && FIRST_USER_PAGE <= evict < FIRST_SWAP_PAGE && (s.current, n) in View(s)
    ensures var r := SwapPageMended(s, s.current, n, evict); r.Some? && Inv(r.value) && View(r.value) == View(s)
  {
    MendedSwapKeepsView(s, n, evict);
    var y := FrameOf(s, (s.current, n));
    ExchangeKeepsSeals(s, evict, y);
    ExchangeKeepsAccount(s, evict, y);
  }

  lemma StoreEntry(s: Memory, r: Memory, y: nat, page: Page, k: (int, int))
    requires Unique(s) && User(y) && r == s.(pages := s.pages[y := page]) && Unique(r) && k in Keys(s)
    ensures k in Keys(r) && View(r)[k] == if s.table[y].inUse && k == Key(s.table[y]) then page else View(s)[k]
  {
    var z := FrameOf(s, k);
    ViewAt(s, z);
    ViewAt(r, z);
    if z != y && s.table[y].inUse {
      assert !Tags(s.table[z], s.table[y].tid, s.table[y].pageNum);
    }
  }

  lemma StoreView(s: Memory, r: Memory, y: nat, page: Page)
    requires Unique(s) && User(y) && r == s.(pages := s.pages[y := page]) && Unique(r)
    ensures View(r) == if s.table[y].inUse then View(s)[Key(s.table[y]) := page] else View(s)
  {
    assert Keys(r) == Keys(s);
    var was, now := View(s), View(r);
    forall k | k in was
      ensures now[k] == if s.table[y].inUse && k == Key(s.table[y]) then page else was[k]
    {
      StoreEntry(s, r, y, page, k);
    }
    StoredMap(was, now, s.table[y], page);
    assert s.table[y].inUse ==> Key(s.table[y]) in Keys(s);
  }

  lemma StoredMap(was: map<(int, int), Page>, now: map<(int, int), Page>, e: PageMeta, page: Page)
    requires now.Keys == was.Keys
    requires forall k :: k in was ==> now[k] == if e.inUse && k == Key(e) then page else was[k]
    ensures e.inUse && Key(e) in was ==> now == was[Key(e) := page]
    ensures !e.inUse ==> now == was
  {
  }

  /** Isolation at work: a store the hardware lets through changes a page of the running thread, or no page. */
  lemma StoreStep(s: Memory, y: nat, page: Page)
    requires Inv(s) && User(y) && s.open[y]
    ensures var r := s.(pages := s.pages[y := page]); Inv(r) && Refines(s, Store(y, page), r)
  {
    hide Inv, View, Unique, Tagged;
    InvUnique(s);
    var r := s.(pages := s.pages[y := page]);
    SameTableInv(s, r);
    InvUnique(r);
    StoreView(s, r, y, page);
    OpenIsOwn(s, y);
  }

  lemma SameTableInv(s: Memory, r: Memory)
    requires Inv(s) && Sized(r) && r.table == s.table && r.open == s.open && r.current == s.current
    requires r.freeMem == s.freeMem && r.freeSwap == s.freeSwap
    ensures Inv(r)
  {
    hide Accounted;
    SameTableSameSeals(s, r);
  }

  lemma OpenIsOwn(s: Memory, y: nat)
    requires Inv(s) && User(y) && s.open[y]
    ensures s.table[y].inUse ==> s.table[y].tid == s.current
  {
    hide Accounted, Unique;
  }

  /** Every step keeps the invariant, and does to the map what its abstract counterpart does. */
  lemma StepKeepsInv(s: Memory, step: Step)
    requires Inv(s) && Allowed(s, step)
    ensures Inv(Next(s, step)) && Refines(s, step, Next(s, step))
  {
    hide Inv, View, Unique, Accounted, Sealed, Tagged;
    match step
    case Head => HeadStep(s);
    case Extend(x) => ExtendStep(s, x);
    case SwitchTo(to) => SwitchStep(s, to);
    case Fault(n, evict) => FaultStep(s, n, evict);
    case Store(y, page) => StoreStep(s, y, page);
    case Adopt(id) => AdoptStep(s, id);
  }

  // ---------------------------------------------------------------- whole runs

  function Front(steps: seq<Step>): seq<Step>
    requires steps != []
  {
    steps[..|steps| - 1]
  }

  function Last(steps: seq<Step>): Step
    requires steps != []
  {
    steps[|steps| - 1]
  }

  ghost predicate Feasible(s: Memory, steps: seq<Step>)
    requires Inv(s)
    decreases |steps|, 0
  {
    steps == [] || (Feasible(s, Front(steps)) && Allowed(Run(s, Front(steps)), Last(steps)))
  }

  /** Isolation, exact counters and one frame per page, wherever a run leads. */
  ghost function Run(s: Memory, steps: seq<Step>): (r: Memory)
    requires Inv(s) && Feasible(s, steps)
    ensures Inv(r)
    decreases |steps|, 1
  {
    if steps == [] then s
    else
      StepKeepsInv(Run(s, Front(steps)), Last(steps));
      Next(Run(s, Front(steps)), Last(steps))
  }

  /** No page is lost, and none changes but by a store of its owner. */
  lemma StepKeepsPage(s: Memory, step: Step, k: (int, int))
    requires Inv(s) && Allowed(s, step) && k in View(s)
    ensures
      var r := Next(s, step);
      Inv(r) && k in View(r) && (View(r)[k] == View(s)[k] || (step.Store? && s.current == k.0))
  {
    StepKeepsInv(s, step);
    RefinedKeepsPage(s, step, Next(s, step), k);
  }

  lemma RefinedKeepsPage(s: Memory, step: Step, r: Memory, k: (int, int))
    requires Tagged(s) && Tagged(r) && Refines(s, step, r) && k in View(s)
    ensures k in View(r) && (View(r)[k] == View(s)[k] || (step.Store? && s.current == k.0))
  {
  }

  /** Thread t makes no store during the run. */
  ghost predicate Quiet(s: Memory, steps: seq<Step>, t: int)
    requires Inv(s) && Feasible(s, steps)
    decreases |steps|
  {
    steps == [] ||
    (Quiet(s, Front(steps), t) && (Last(steps).Store? ==> Run(s, Front(steps)).current != t))
  }

  /**
   * No page is ever lost, wherever it is moved; and as long as its thread does not store,
   * it keeps its contents, whatever the other threads do.
   */
  lemma {:induction false} PagesSurvive(s: Memory, steps: seq<Step>, k: (int, int))
    requires Inv(s) && Feasible(s, steps) && k in View(s)
    ensures k in View(Run(s, steps))
    ensures Quiet(s, steps, k.0) ==> View(Run(s, steps))[k] == View(s)[k]
    decreases |steps|
  {
    if steps != [] {
      PagesSurvive(s, Front(steps), k);
      StepKeepsPage(Run(s, Front(steps)), Last(steps), k);
    }
  }

  // ---------------------------------------------------------------- the illusion of contiguous memory

  /** The running thread's pages 0 to k lie one after another from the first user frame, all open. */
  ghost predicate Contiguous(s: Memory, k: nat)
    requires Sized(s)
  {
    && FIRST_USER_PAGE + k < FIRST_SWAP_PAGE
    && forall i :: FIRST_USER_PAGE <= i <= FIRST_USER_PAGE + k ==> HoldsOwn(s, i)
  }

  ghost predicate HoldsOwn(s: Memory, i: nat)
    requires Sized(s) && i < LAST_SWAP_PAGE
  {
    Tags(s.table[i], s.current, i - FIRST_USER_PAGE) && s.open[i]
  }

  /** Growth touches only the frame it gives away and the one it takes from the free frames. */
  lemma GrowTouchesTwo(s: Memory, x: nat, i: nat)
    requires Sized(s) && FIRST_USER_PAGE < x < LAST_SWAP_PAGE && User(i) && i != x && s.table[i].inUse && !Full(s)
    ensures var r := Grow(s, x).0; r.table[i] == s.table[i] && r.open[i] == s.open[i] && r.current == s.current
  {
  }

  /** Growing a contiguous heap keeps it contiguous, although some other page had to leave. */
  lemma GrowthIsContiguous(s: Memory, k: nat)
    requires Tagged(s) && Contiguous(s, k) && FIRST_USER_PAGE + k + 1 < FIRST_SWAP_PAGE && !Full(s)
    ensures Contiguous(Grow(s, FIRST_USER_PAGE + k + 1).0, k + 1)
  {
    var x := FIRST_USER_PAGE + k + 1;
    var r := Grow(s, x).0;
    assert HoldsOwn(s, x - 1);
    GrowTouchesTwo(s, x, x - 1);
    assert HoldsOwn(r, x);
    forall i | FIRST_USER_PAGE <= i < x ensures HoldsOwn(r, i) {
      assert HoldsOwn(s, i);
      GrowTouchesTwo(s, x, i);
    }
  }

  /** A fault on the frame where page n belongs brings it there, and opens it unless it was there already. */
  lemma FaultBringsPage(s: Memory, n: nat)
    requires Inv(s) && FIRST_USER_PAGE + n < FIRST_SWAP_PAGE && (s.current, n) in View(s)
    ensures
      var evict := FIRST_USER_PAGE + n;
      var r := SwapPageMended(s, s.current, n, evict);
      && r.Some? && Tags(r.value.table[evict], s.current, n)
      && (HoldsOwn(r.value, evict) <==> FrameOf(s, (s.current, n)) != evict)
  {
    hide Accounted, Sealed, View;
    MendedSwapKeepsView(s, n, FIRST_USER_PAGE + n);
  }
}
