/** Runs of the page manager that lead to the cases its operations do not provide for. */
module PagingCases {
  import opened PageTable
  import opened PagingMoves
  import opened PagingRuns

  /** steps leads from s to r. */
  ghost predicate Leads(s: Memory, steps: seq<Step>, r: Memory) {
    Inv(s) && Feasible(s, steps) && Run(s, steps) == r
  }

  lemma LeadsNowhere(s: Memory)
    requires Inv(s)
    ensures Leads(s, [], s)
  {
  }

  lemma RunFurther(s: Memory, steps: seq<Step>, all: seq<Step>)
    requires Inv(s) && all != [] && Front(all) == steps && Feasible(s, steps)
    requires Allowed(Run(s, steps), Last(all))
    ensures Feasible(s, all)
  {
  }

  lemma LeadsFurther(s: Memory, steps: seq<Step>, m: Memory, step: Step, r: Memory)
    requires Leads(s, steps, m) && Allowed(m, step) && r == Next(m, step)
    ensures Leads(s, steps + [step], r) && Inv(r)
  {
    var all := steps + [step];
    assert Front(all) == steps && Last(all) == step;
    RunFurther(s, steps, all);
    assert Run(s, all) == Next(Run(s, steps), step);
  }

  lemma LeadsFirst(s: Memory, step: Step, r: Memory)
    requires Inv(s) && Allowed(s, step) && r == Next(s, step)
    ensures Leads(s, [step], r) && Inv(r)
  {
    LeadsNowhere(s);
    LeadsFurther(s, [], s, step, r);
    assert [] + [step] == [step];
  }

  // ---------------------------------------------------------------- a first page in the swap file

  /** Thread t has pages 0 to k at the first user frames, and nobody has any other. */
  ghost predicate Filled(s: Memory, t: int, k: nat) {
    && Inv(s) && s.current == t && FIRST_USER_PAGE + k < FIRST_SWAP_PAGE
    && (forall y :: FIRST_USER_PAGE <= y <= FIRST_USER_PAGE + k ==>
          s.table[y] == PageMeta(t, y - FIRST_USER_PAGE, true))
    && forall y :: FIRST_USER_PAGE + k < y < LAST_SWAP_PAGE ==> !s.table[y].inUse
  }

  lemma HeadOfEmpty(s: Memory)
    requires Tagged(s) && forall y :: User(y) ==> !s.table[y].inUse
    ensures
      var (r, found) := GetHead(s, MALLOC_FLAG);
      found && r.table == s.table[FIRST_USER_PAGE := PageMeta(s.current, 0, true)] && r.current == s.current
  {
    HeadIsFound(s);
    assert FirstFree(s.table, FIRST_USER_PAGE, LAST_SWAP_PAGE) == FIRST_USER_PAGE;
  }

  lemma FirstPage(s: Memory, t: int)
    requires Inv(s) && s.current == t && forall y :: User(y) ==> !s.table[y].inUse
    ensures Allowed(s, Head) && Filled(Next(s, Head), t, 0) && GetHead(s, MALLOC_FLAG).1
  {
    HeadOfEmpty(s);
    HeadStep(s);
  }

  lemma GrowIntoFree(s: Memory, x: nat)
    requires Sized(s) && FIRST_USER_PAGE < x < FIRST_SWAP_PAGE
    requires FirstFree(s.table, FIRST_USER_PAGE, LAST_SWAP_PAGE) == x
    ensures
      var r := Grow(s, x).0;
      r.table == s.table[x := PageMeta(s.current, NextNum(s, x), true)] && r.current == s.current
  {
  }

  lemma NextIsNew(s: Memory, t: int, k: nat)
    requires Filled(s, t, k)
    ensures (t, k + 1) !in View(s)
  {
    forall z | User(z) && s.table[z].inUse ensures Key(s.table[z]) != (t, k + 1) {
      assert s.table[z] == PageMeta(t, z - FIRST_USER_PAGE, true);
    }
  }

  lemma FilledFurther(s: Memory, r: Memory, t: int, k: nat)
    requires Filled(s, t, k) && Inv(r) && r.current == t && FIRST_USER_PAGE + k + 1 < FIRST_SWAP_PAGE
    requires r.table == s.table[FIRST_USER_PAGE + k + 1 := PageMeta(t, k + 1, true)]
    ensures Filled(r, t, k + 1)
  {
  }

  lemma FreeBehind(s: Memory, t: int, k: nat)
    requires Filled(s, t, k) && FIRST_USER_PAGE + k + 1 < FIRST_SWAP_PAGE
    ensures FirstFree(s.table, FIRST_USER_PAGE, LAST_SWAP_PAGE) == FIRST_USER_PAGE + k + 1
    ensures s.table[FIRST_USER_PAGE + k] == PageMeta(t, k, true)
  {
    forall y | FIRST_USER_PAGE <= y <= FIRST_USER_PAGE + k ensures s.table[y].inUse {
      assert s.table[y] == PageMeta(t, y - FIRST_USER_PAGE, true);
    }
    assert !s.table[FIRST_USER_PAGE + k + 1].inUse;
  }

  lemma NextPage(s: Memory, t: int, k: nat)
    requires Filled(s, t, k) && FIRST_USER_PAGE + k + 1 < FIRST_SWAP_PAGE
    ensures Allowed(s, Extend(FIRST_USER_PAGE + k + 1))
    ensures Filled(Next(s, Extend(FIRST_USER_PAGE + k + 1)), t, k + 1)
  {
    FreeBehind(s, t, k);
    NextIsNew(s, t, k);
    GrownFurther(s, t, k, Grow(s, FIRST_USER_PAGE + k + 1).0);
  }

  lemma GrownFurther(s: Memory, t: int, k: nat, r: Memory)
    requires Filled(s, t, k) && FIRST_USER_PAGE + k + 1 < FIRST_SWAP_PAGE
    requires FirstFree(s.table, FIRST_USER_PAGE, LAST_SWAP_PAGE) == FIRST_USER_PAGE + k + 1
    requires s.table[FIRST_USER_PAGE + k] == PageMeta(t, k, true) && (t, k + 1) !in View(s)
    requires r == Grow(s, FIRST_USER_PAGE + k + 1).0
    ensures Filled(r, t, k + 1)
  {
    ExtendStep(s, FIRST_USER_PAGE + k + 1);
    GrowIntoFree(s, FIRST_USER_PAGE + k + 1);
    FilledFurther(s, r, t, k);
  }

  lemma {:induction false} Fill(s: Memory, t: int, k: nat) returns (steps: seq<Step>, r: Memory)
    requires Inv(s) && s.current == t && FIRST_USER_PAGE + k < FIRST_SWAP_PAGE
    requires forall y :: User(y) ==> !s.table[y].inUse
    ensures Leads(s, steps, r) && Filled(r, t, k)
  {
    if k == 0 {
      FirstPage(s, t);
      steps, r := [Head], Next(s, Head);
      LeadsFirst(s, Head, r);
    } else {
      var before, m := Fill(s, t, k - 1);
      NextPage(m, t, k - 1);
      r := Next(m, Extend(FIRST_USER_PAGE + k));
      steps := before + [Extend(FIRST_USER_PAGE + k)];
      LeadsFurther(s, before, m, Extend(FIRST_USER_PAGE + k), r);
    }
  }

  lemma FullMemory(s: Memory, t: int)
    requires Filled(s, t, FIRST_SWAP_PAGE - 1 - FIRST_USER_PAGE)
    ensures Tagged(s) && FirstFree(s.table, FIRST_USER_PAGE, LAST_SWAP_PAGE) == FIRST_SWAP_PAGE
    ensures s.table[FIRST_USER_PAGE] == PageMeta(t, 0, true)
    ensures forall y :: FIRST_USER_PAGE <= y < FIRST_SWAP_PAGE ==> s.table[y].tid == t
    ensures forall y :: FIRST_SWAP_PAGE <= y < LAST_SWAP_PAGE ==> !s.table[y].inUse
  {
    hide Inv, FirstFree;
    FilledInv(s, t);
    InvUnique(s);
    forall y | FIRST_USER_PAGE <= y < FIRST_SWAP_PAGE ensures s.table[y].inUse && s.table[y].tid == t {
      assert s.table[y] == PageMeta(t, y - FIRST_USER_PAGE, true);
    }
    assert !s.table[FIRST_SWAP_PAGE].inUse;
  }

  /** u's first page, when t's pages fill memory. */
  lemma DrivesOut(m: Memory, t: int, u: int)
    requires Tagged(m) && m.current == u && u != t
    requires FirstFree(m.table, FIRST_USER_PAGE, LAST_SWAP_PAGE) == FIRST_SWAP_PAGE
    requires forall y :: FIRST_USER_PAGE <= y < FIRST_SWAP_PAGE ==> m.table[y].tid == t
    requires forall y :: FIRST_SWAP_PAGE <= y < LAST_SWAP_PAGE ==> !m.table[y].inUse
    ensures !HeadInSwap(m)
    ensures GetHead(m, MALLOC_FLAG).0.table ==
            m.table[FIRST_SWAP_PAGE := m.table[FIRST_USER_PAGE]][FIRST_USER_PAGE := PageMeta(u, 0, true)]
  {
    hide FirstFree;
    HeadIsFound(m);
    forall z | FIRST_SWAP_PAGE <= z < LAST_SWAP_PAGE ensures !Tags(m.table[z], u, 0) {
      assert User(z);
    }
  }

  /** With memory full, a thread's first page drives the first page at the first user frame into the swap file. */
  lemma HeadIsDrivenOut(s: Memory, t: int, u: int)
    requires Filled(s, t, FIRST_SWAP_PAGE - 1 - FIRST_USER_PAGE) && u != t && u != NO_THREAD
    ensures
      var m := Switch(s, u);
      && Allowed(s, SwitchTo(u)) && Inv(m) && Allowed(m, Head)
      && HeadInSwap(Switch(Next(m, Head), t)) && !Full(Switch(Next(m, Head), t))
  {
    hide Inv, GetHead, FirstFree, Tagged;
    FullMemory(s, t);
    FilledInv(s, t);
    InvUnique(s);
    var m := Switch(s, u);
    StepKeepsInv(s, SwitchTo(u));
    InvUnique(m);
    assert m.table == s.table;
    DrivesOut(m, t, u);
    var q := Switch(Next(m, Head), t);
    assert q.table == Next(m, Head).table;
    assert Tags(q.table[FIRST_SWAP_PAGE], t, 0) && !q.table[FIRST_SWAP_PAGE + 1].inUse;
    NotFull(q, FIRST_SWAP_PAGE + 1);
  }

  lemma FilledInv(s: Memory, t: int)
    requires Filled(s, t, FIRST_SWAP_PAGE - 1 - FIRST_USER_PAGE)
    ensures Inv(s)
  {
  }

  lemma NotFull(s: Memory, y: nat)
    requires Sized(s) && User(y) && !s.table[y].inUse
    ensures !Full(s)
  {
  }

  /** The run: the steps that fill memory, then u's first page, then t again. */
  lemma DriveOut(s: Memory, before: seq<Step>, full: Memory, t: int, u: int) returns (steps: seq<Step>, r: Memory)
    requires Leads(s, before, full) && Filled(full, t, FIRST_SWAP_PAGE - 1 - FIRST_USER_PAGE)
    requires u != t && u != NO_THREAD && t != NO_THREAD
    ensures Leads(s, steps, r) && Inv(r) && r.current == t && HeadInSwap(r) && !Full(r)
  {
    HeadIsDrivenOut(full, t, u);
    var m := Switch(full, u);
    var n := Next(m, Head);
    r := Switch(n, t);
    LeadsFurther(s, before, full, SwitchTo(u), m);
    LeadsFurther(s, before + [SwitchTo(u)], m, Head, n);
    LeadsFurther(s, before + [SwitchTo(u)] + [Head], n, SwitchTo(t), r);
    steps := before + [SwitchTo(u)] + [Head] + [SwitchTo(t)];
  }

  lemma HeadIsLost(r: Memory)
    requires Unique(r) && HeadInSwap(r) && !Full(r)
    ensures (r.current, 0) in View(r) && !HeadInMemory(r) && !Unique(GetHead(r, MALLOC_FLAG).0)
  {
    HeadKnownIff(r);
    var z :| FIRST_SWAP_PAGE <= z < LAST_SWAP_PAGE && Tags(r.table[z], r.current, 0);
    forall y | FIRST_USER_PAGE <= y < FIRST_SWAP_PAGE ensures !Tags(r.table[y], r.current, 0) {
      assert User(z) && User(y) && r.table[z].inUse;
    }
    NewHeadAddsOne(r, MALLOC_FLAG);
  }

  /**
   * One thread fills memory, a second one gets its first page, and the first one is
   * dispatched again: getHead no longer finds its first page, and makes it a second one.
   */
  lemma HeadGetsIntoSwap(pages: seq<Page>, t: int, u: int) returns (steps: seq<Step>, r: Memory)
    requires |pages| == LAST_SWAP_PAGE && t != u && t != NO_THREAD && u != NO_THREAD
    ensures Leads(InitAll(pages, t), steps, r) && r.current == t && (t, 0) in View(r)
    ensures HeadInSwap(r) && !HeadInMemory(r) && !Unique(GetHead(r, MALLOC_FLAG).0)
  {
    var s := InitAll(pages, t);
    InitAllInv(pages, t);
    var before, full := Fill(s, t, FIRST_SWAP_PAGE - 1 - FIRST_USER_PAGE);
    steps, r := DriveOut(s, before, full, t, u);
    HeadIsLost(r);
  }

  // ---------------------------------------------------------------- a page lost by swapPage

  /** Two threads, one page each: u's at the first user frame, t's behind it, with other bytes. */
  ghost predicate Displaced(s: Memory, t: int, u: int, page: Page) {
    && Inv(s) && s.current == t && t != u && !s.open[FIRST_USER_PAGE]
    && s.table[FIRST_USER_PAGE] == PageMeta(u, 0, true) && s.table[FIRST_USER_PAGE + 1] == PageMeta(t, 0, true)
    && s.pages[FIRST_USER_PAGE + 1] == page && s.pages[FIRST_USER_PAGE] != page
  }

  /** The fault that t's first access then raises loses t's page, and opens u's frame to t. */
  lemma SwapLosesPage(s: Memory, t: int, u: int, page: Page)
    requires Displaced(s, t, u, page)
    ensures (t, 0) in View(s) && View(s)[(t, 0)] == page
    ensures
      var r := SwapPage(s, t, 0, FIRST_USER_PAGE);
      && r.Some? && Unique(r.value)
      && (t, 0) in View(r.value) && View(r.value)[(t, 0)] != page
      && !Isolated(r.value)
  {
    hide Inv, View, Accounted, Sealed, SwapPage;
    var x := FIRST_USER_PAGE + 1;
    InvUnique(s);
    InvIsolated(s);
    KnownFrame(s, t, 0, x);
    SwapKeepsViewIff(s, t, 0, FIRST_USER_PAGE);
    SwapIsolatesIff(s, 0, FIRST_USER_PAGE);
    var r := SwapPage(s, t, 0, FIRST_USER_PAGE).value;
    SwappedPages(s, t, 0, FIRST_USER_PAGE, x);
    ViewAt(r, x);
  }

  lemma InvIsolated(s: Memory)
    requires Inv(s)
    ensures Isolated(s)
  {
  }

  lemma KnownFrame(s: Memory, t: int, n: int, x: nat)
    requires Unique(s) && User(x) && s.table[x] == PageMeta(t, n, true)
    ensures (t, n) in View(s) && View(s)[(t, n)] == s.pages[x] && FrameOf(s, (t, n)) == x
  {
    hide View;
    assert Key(s.table[x]) == (t, n);
    ViewAt(s, x);
    var z := FrameOf(s, (t, n));
    assert Tags(s.table[z], t, n);
  }

  lemma SwappedPages(s: Memory, t: int, n: int, evict: nat, x: nat)
    requires Tagged(s) && User(evict) && (t, n) in Keys(s) && FrameOf(s, (t, n)) == x && x != evict
    ensures
      var r := SwapPage(s, t, n, evict);
      r.Some? && r.value.pages[x] == s.pages[evict] && r.value.table == s.table
  {
  }

  /** What u's first page does to a memory that holds one page of t. */
  lemma SecondHead(c: Memory, t: int, u: int, page: Page)
    requires Inv(c) && c.current == u && t != u && c.pages[FIRST_USER_PAGE] == page
    requires c.table[FIRST_USER_PAGE] == PageMeta(t, 0, true)
    requires forall y :: FIRST_USER_PAGE < y < LAST_SWAP_PAGE ==> !c.table[y].inUse
    ensures Allowed(c, Head)
    ensures
      var d := Next(c, Head);
      && d.table[FIRST_USER_PAGE] == PageMeta(u, 0, true) && d.table[FIRST_USER_PAGE + 1] == PageMeta(t, 0, true)
      && d.pages[FIRST_USER_PAGE + 1] == page && d.pages[FIRST_USER_PAGE] == InitMem(ZeroPage()) && d.current == u
  {
    hide Accounted, View, Unique;
    HeadIsFound(c);
    assert FirstFree(c.table, FIRST_USER_PAGE, LAST_SWAP_PAGE) == FIRST_USER_PAGE + 1;
  }

  lemma ThirdSwitch(d: Memory, t: int, u: int, page: Page)
    requires Inv(d) && d.current == u && t != u && t != NO_THREAD && page != InitMem(ZeroPage())
    requires d.table[FIRST_USER_PAGE] == PageMeta(u, 0, true) && d.table[FIRST_USER_PAGE + 1] == PageMeta(t, 0, true)
    requires d.pages[FIRST_USER_PAGE + 1] == page && d.pages[FIRST_USER_PAGE] == InitMem(ZeroPage())
    ensures Displaced(Switch(d, t), t, u, page)
  {
    SwitchStep(d, t);
  }

  lemma FirstStore(a: Memory, t: int, page: Page)
    requires Filled(a, t, 0) && a.open[FIRST_USER_PAGE]
    ensures
      var b := a.(pages := a.pages[FIRST_USER_PAGE := page]);
      && Allowed(a, Store(FIRST_USER_PAGE, page)) && b == Next(a, Store(FIRST_USER_PAGE, page))
      && Filled(b, t, 0) && b.pages[FIRST_USER_PAGE] == page
  {
    StoreStep(a, FIRST_USER_PAGE, page);
  }

  lemma HeadOpens(s: Memory)
    requires Sized(s) && GetHead(s, MALLOC_FLAG).1 && s.open[FIRST_USER_PAGE]
    ensures GetHead(s, MALLOC_FLAG).0.open[FIRST_USER_PAGE]
  {
  }

  /** t gets its first page and stores there, u gets its own, and t goes on. */
  lemma PagesAreDisplaced(pages: seq<Page>, t: int, u: int, page: Page) returns (steps: seq<Step>, r: Memory)
    requires |pages| == LAST_SWAP_PAGE && t != u && t != NO_THREAD && u != NO_THREAD
    requires page != InitMem(ZeroPage())
    ensures Leads(InitAll(pages, t), steps, r) && Displaced(r, t, u, page)
  {
    var s := InitAll(pages, t);
    InitAllInv(pages, t);
    FirstPage(s, t);
    var a := Next(s, Head);
    HeadOpens(s);
    LeadsFirst(s, Head, a);
    FirstStore(a, t, page);
    var b := a.(pages := a.pages[FIRST_USER_PAGE := page]);
    LeadsFurther(s, [Head], a, Store(FIRST_USER_PAGE, page), b);
    steps, r := Displace(s, [Head] + [Store(FIRST_USER_PAGE, page)], b, t, u, page);
  }

  lemma Displace(s: Memory, before: seq<Step>, b: Memory, t: int, u: int, page: Page)
    returns (steps: seq<Step>, r: Memory)
    requires Leads(s, before, b) && Filled(b, t, 0) && t != u && t != NO_THREAD && u != NO_THREAD
    requires b.pages[FIRST_USER_PAGE] == page != InitMem(ZeroPage())
    ensures Leads(s, steps, r) && Displaced(r, t, u, page)
  {
    var c := Switch(b, u);
    LeadsFurther(s, before, b, SwitchTo(u), c);
    assert c.table == b.table && c.pages == b.pages;
    SecondHead(c, t, u, page);
    var d := Next(c, Head);
    LeadsFurther(s, before + [SwitchTo(u)], c, Head, d);
    ThirdSwitch(d, t, u, page);
    r := Switch(d, t);
    steps := before + [SwitchTo(u)] + [Head] + [SwitchTo(t)];
    LeadsFurther(s, before + [SwitchTo(u)] + [Head], d, SwitchTo(t), r);
  }

  // ---------------------------------------------------------------- malloc before the first create

  lemma AdoptedHead(a: Memory, id: int)
    requires Tagged(a) && a.current == id && id != 0 && a.table[FIRST_USER_PAGE] == PageMeta(0, 0, true)
    requires forall y :: FIRST_USER_PAGE < y < LAST_SWAP_PAGE ==> !a.table[y].inUse
    ensures
      var (r, found) := GetHead(a, MALLOC_FLAG);
      && found && r.table[FIRST_USER_PAGE] == PageMeta(id, 0, true) && r.open[FIRST_USER_PAGE]
      && r.table[FIRST_USER_PAGE + 1] == PageMeta(0, 0, true) && !r.open[FIRST_USER_PAGE + 1]
  {
    HeadIsFound(a);
    assert FirstFree(a.table, FIRST_USER_PAGE, LAST_SWAP_PAGE) == FIRST_USER_PAGE + 1;
  }

  /**
   * mtsort and mcounter allocate before they create their first thread. The page that main gets
   * as thread 0 is open to thread 1, and once main asks again it is elsewhere, closed to its owner.
   */
  lemma AdoptionBreaksIsolation(pages: seq<Page>, id: int)
    requires |pages| == LAST_SWAP_PAGE && id != 0 && id != NO_THREAD
    ensures
      var s := InitAll(pages, 0);
      var m := GetHead(s, MALLOC_FLAG).0;
      var a := m.(current := id);
      var (r, found) := GetHead(a, MALLOC_FLAG);
      && Leads(s, [Head], m) && !Isolated(a)
      && found && r.table[FIRST_USER_PAGE] == PageMeta(id, 0, true) && r.open[FIRST_USER_PAGE]
      && r.table[FIRST_USER_PAGE + 1] == PageMeta(0, 0, true) && !r.open[FIRST_USER_PAGE + 1]
  {
    hide Inv, GetHead, Leads, InitAll, Filled;
    var s := InitAll(pages, 0);
    InitAllInv(pages, 0);
    StartOf(pages, 0);
    FirstPage(s, 0);
    var m := Next(s, Head);
    LeadsFirst(s, Head, m);
    HeadOpens(s);
    FilledFirst(m, 0);
    AdoptedHead(m.(current := id), id);
  }

  lemma StartOf(pages: seq<Page>, t: int)
    requires |pages| == LAST_SWAP_PAGE
    ensures
      var s := InitAll(pages, t);
      s.current == t && Sized(s) && (forall y :: User(y) ==> !s.table[y].inUse && s.open[y])
  {
  }

  lemma FilledFirst(m: Memory, t: int)
    requires Filled(m, t, 0)
    ensures Tagged(m) && m.current == t && m.table[FIRST_USER_PAGE] == PageMeta(t, 0, true)
    ensures forall y :: FIRST_USER_PAGE < y < LAST_SWAP_PAGE ==> !m.table[y].inUse
  {
  }
}
