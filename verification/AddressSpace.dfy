/**
 * Why addresses mean what their threads think: although pages of many threads share the
 * frames from the first user frame on, the frame that an address of the running thread
 * names either holds that very page or is closed, so that touching it brings the page.
 */
module AddressSpace {
  import opened PageTable
  import opened PagingMoves
  import opened PagingRuns

  /** The running thread's page n is at the frame where its addresses point. */
  predicate InPlace(s: Memory, n: int)
    requires Sized(s)
  {
    0 <= n && FIRST_USER_PAGE + n < LAST_SWAP_PAGE && Tags(s.table[FIRST_USER_PAGE + n], s.current, n)
  }

  /** Wherever the page with number n of some thread is, the n-th user frame holds page n of a thread. */
  ghost predicate Layered(s: Memory)
    requires Sized(s)
  {
    forall y :: User(y) && s.table[y].inUse ==> Layer(s, s.table[y].pageNum)
  }

  predicate Layer(s: Memory, n: int)
    requires Sized(s)
  {
    && 0 <= n && FIRST_USER_PAGE + n < FIRST_SWAP_PAGE
    && s.table[FIRST_USER_PAGE + n].inUse && s.table[FIRST_USER_PAGE + n].pageNum == n
  }

  /** A page of the running thread that is in place can be read and written. */
  ghost predicate PlacedOpen(s: Memory)
    requires Sized(s)
  {
    forall n :: 0 <= n && FIRST_USER_PAGE + n < FIRST_SWAP_PAGE && InPlace(s, n) ==> s.open[FIRST_USER_PAGE + n]
  }

  /** A first page of the running thread can be copied from wherever it is in memory. */
  ghost predicate HeadOpen(s: Memory)
    requires Sized(s)
  {
    forall y :: FIRST_USER_PAGE <= y < FIRST_SWAP_PAGE && Tags(s.table[y], s.current, 0) ==> s.open[y]
  }

  ghost predicate Addressable(s: Memory) {
    Inv(s) && Layered(s) && PlacedOpen(s) && HeadOpen(s)
  }

  lemma InitAllAddressable(pages: seq<Page>, current: int)
    requires |pages| == LAST_SWAP_PAGE && current != NO_THREAD
    ensures Addressable(InitAll(pages, current))
  {
    InitAllInv(pages, current);
  }

  // ---------------------------------------------------------------- what keeps the layers

  /** Bringing a page to the frame its number names exchanges two pages of that number. */
  lemma ExchangeKeepsLayers(s: Memory, n: nat, y: nat)
    requires Sized(s) && Layered(s) && User(y) && s.table[y].inUse && s.table[y].pageNum == n
    ensures FIRST_USER_PAGE + n < FIRST_SWAP_PAGE && Layered(Exchange(s, FIRST_USER_PAGE + n, y))
  {
    assert Layer(s, n);
    var r := Exchange(s, FIRST_USER_PAGE + n, y);
    forall z | User(z) ensures r.table[z].inUse == s.table[z].inUse && r.table[z].pageNum == s.table[z].pageNum {
    }
    forall z | User(z) && r.table[z].inUse ensures Layer(r, r.table[z].pageNum) {
      assert Layer(s, s.table[z].pageNum);
    }
  }

  /** So does giving frame n to page n, when the page that was there goes to an unused frame. */
  lemma GivenKeepsLayers(s: Memory, r: Memory, y: nat, n: nat)
    requires FIRST_USER_PAGE + n < FIRST_SWAP_PAGE && Sized(s) && Layered(s)
    requires Given(s, r, y, FIRST_USER_PAGE + n, n) && !s.table[y].inUse
    ensures Layered(r)
  {
    forall z | User(z) && r.table[z].inUse ensures Layer(r, r.table[z].pageNum) {
      var was := if z == y then FIRST_USER_PAGE + n else z;
      if z != FIRST_USER_PAGE + n {
        assert Layer(s, s.table[was].pageNum);
      }
    }
  }

  lemma HeadKeepsLayers(s: Memory, flag: int)
    requires Tagged(s) && Layered(s)
    ensures Layered(GetHead(s, flag).0)
  {
    HeadIsFound(s);
    var h := FindFrame(s.table, s.current, 0, FIRST_USER_PAGE, FIRST_SWAP_PAGE);
    if FIRST_USER_PAGE < h < FIRST_SWAP_PAGE {
      ExchangeKeepsLayers(s, 0, h);
    } else if h == FIRST_SWAP_PAGE && flag != 0 {
      NewHeadKeepsLayers(s);
    }
  }

  lemma NewHeadKeepsLayers(s: Memory)
    requires Sized(s) && Layered(s)
    ensures Layered(NewHead(s).0)
  {
    if !Full(s) {
      var x := FIRST_USER_PAGE;
      var y := FirstFree(s.table, x, LAST_SWAP_PAGE);
      var r := NewHead(s).0;
      assert r.table == s.table[y := s.table[x]][x := PageMeta(s.current, 0, true)];
      GivenKeepsLayers(s, r, y, 0);
    }
  }

  lemma GrowKeepsLayers(s: Memory, n: nat)
    requires Sized(s) && Layered(s) && 0 < n && FIRST_USER_PAGE + n < FIRST_SWAP_PAGE
    requires s.table[FIRST_USER_PAGE + n - 1].inUse && NextNum(s, FIRST_USER_PAGE + n) == n
    ensures Layered(Grow(s, FIRST_USER_PAGE + n).0)
  {
    var x := FIRST_USER_PAGE + n;
    if Full(s) {
      FullStays(s, x);
    } else {
      hide Grow, Full;
      GrownTable(s, x);
      GivenKeepsLayers(s, Grow(s, x).0, FirstFree(s.table, FIRST_USER_PAGE, LAST_SWAP_PAGE), n);
    }
  }

  /** Giving frame n to page n closes no page that is in place. */
  lemma GivenKeepsOpen(s: Memory, r: Memory, y: nat, n: nat)
    requires FIRST_USER_PAGE + n < FIRST_SWAP_PAGE && Tagged(s) && Layered(s) && PlacedOpen(s)
    requires Given(s, r, y, FIRST_USER_PAGE + n, n) && !s.table[y].inUse && r.open[FIRST_USER_PAGE + n]
    requires forall z :: User(z) && z != FIRST_USER_PAGE + n && z != y ==> r.open[z] == s.open[z]
    requires HeadOpen(s) && !Tags(s.table[FIRST_USER_PAGE + n], s.current, 0)
    ensures PlacedOpen(r) && HeadOpen(r)
  {
    var x := FIRST_USER_PAGE + n;
    forall m | 0 <= m && FIRST_USER_PAGE + m < FIRST_SWAP_PAGE && InPlace(r, m)
      ensures r.open[FIRST_USER_PAGE + m]
    {
      assert s.table[x].inUse ==> Layer(s, s.table[x].pageNum);
      if m != n {
        assert FIRST_USER_PAGE + m != y;
        assert InPlace(s, m);
      }
    }
  }

  lemma ExchangeKeepsOpen(s: Memory, n: nat, y: nat)
    requires Sized(s) && PlacedOpen(s) && HeadOpen(s) && FIRST_USER_PAGE + n < FIRST_SWAP_PAGE && User(y)
    requires Tags(s.table[y], s.current, n) && y != FIRST_USER_PAGE + n && s.table[FIRST_USER_PAGE + n].tid != s.current
    ensures var r := Exchange(s, FIRST_USER_PAGE + n, y); PlacedOpen(r) && HeadOpen(r) && r.open[FIRST_USER_PAGE + n]
  {
    var r := Exchange(s, FIRST_USER_PAGE + n, y);
    forall m | 0 <= m && FIRST_USER_PAGE + m < FIRST_SWAP_PAGE && InPlace(r, m)
      ensures r.open[FIRST_USER_PAGE + m]
    {
      if m != n { assert InPlace(s, m); }
    }
  }

  /** Frame n holds page n of another thread, unless the running thread's own is there. */
  lemma HolderIsOther(s: Memory, n: nat, y: nat)
    requires Unique(s) && Layered(s) && User(y) && s.table[y].inUse && Tags(s.table[y], s.current, n)
    ensures FIRST_USER_PAGE + n < FIRST_SWAP_PAGE
    ensures y != FIRST_USER_PAGE + n ==> s.table[FIRST_USER_PAGE + n].tid != s.current
  {
    assert Layer(s, n);
  }

  lemma HeadKeepsOpen(s: Memory, flag: int)
    requires Unique(s) && Layered(s) && PlacedOpen(s) && HeadOpen(s)
    ensures PlacedOpen(GetHead(s, flag).0) && HeadOpen(GetHead(s, flag).0)
  {
    HeadIsFound(s);
    var h := FindFrame(s.table, s.current, 0, FIRST_USER_PAGE, FIRST_SWAP_PAGE);
    if FIRST_USER_PAGE < h < FIRST_SWAP_PAGE {
      HolderIsOther(s, 0, h);
      ExchangeKeepsOpen(s, 0, h);
    } else if h == FIRST_SWAP_PAGE && flag != 0 {
      NewHeadKeepsOpen(s);
    }
  }

  lemma NewHeadKeepsOpen(s: Memory)
    requires Tagged(s) && Layered(s) && PlacedOpen(s) && HeadOpen(s) && !Tags(s.table[FIRST_USER_PAGE], s.current, 0)
    ensures PlacedOpen(NewHead(s).0) && HeadOpen(NewHead(s).0)
  {
    if !Full(s) {
      var x := FIRST_USER_PAGE;
      var y := FirstFree(s.table, x, LAST_SWAP_PAGE);
      var r := NewHead(s).0;
      assert r.table == s.table[y := s.table[x]][x := PageMeta(s.current, 0, true)];
      GivenKeepsOpen(s, r, y, 0);
    }
  }

  lemma GrowKeepsOpen(s: Memory, n: nat)
    requires Tagged(s) && Layered(s) && PlacedOpen(s) && HeadOpen(s) && 0 < n && FIRST_USER_PAGE + n < FIRST_SWAP_PAGE
    requires s.table[FIRST_USER_PAGE + n - 1].inUse && NextNum(s, FIRST_USER_PAGE + n) == n
    requires !Tags(s.table[FIRST_USER_PAGE + n], s.current, 0)
    ensures PlacedOpen(Grow(s, FIRST_USER_PAGE + n).0) && HeadOpen(Grow(s, FIRST_USER_PAGE + n).0)
  {
    var x := FIRST_USER_PAGE + n;
    if Full(s) {
      FullStays(s, x);
    } else {
      hide Grow, Full, Layered, PlacedOpen, HeadOpen;
      GrownTable(s, x);
      GivenKeepsOpen(s, Grow(s, x).0, FirstFree(s.table, FIRST_USER_PAGE, LAST_SWAP_PAGE), n);
    }
  }

  lemma SwitchKeepsLayers(s: Memory, to: int)
    requires Sized(s) && Layered(s)
    ensures Layered(Switch(s, to))
  {
    var r := Switch(s, to);
    assert r.table == s.table;
    forall y | User(y) && r.table[y].inUse ensures Layer(r, r.table[y].pageNum) {
      assert Layer(s, s.table[y].pageNum);
    }
  }

  ghost predicate NonePlaced(s: Memory)
    requires Sized(s)
  {
    forall n :: 0 <= n && FIRST_USER_PAGE + n < FIRST_SWAP_PAGE ==> !InPlace(s, n)
  }

  lemma SwitchKeepsOpenIff(s: Memory, to: int)
    requires Sized(s)
    ensures PlacedOpen(Switch(s, to)) <==> to != s.current || NonePlaced(s)
  {
    var r := Switch(s, to);
    forall n | 0 <= n && FIRST_USER_PAGE + n < FIRST_SWAP_PAGE && InPlace(r, n)
      ensures r.open[FIRST_USER_PAGE + n] <==> to != s.current
    {
    }
    if to == s.current {
      assert forall n :: InPlace(r, n) <==> InPlace(s, n);
    }
  }

  lemma SwitchKeepsHeadOpenIff(s: Memory, to: int)
    requires Sized(s)
    ensures HeadOpen(Switch(s, to)) <==> to != s.current || !HeadInMemory(s)
  {
    var r := Switch(s, to);
    assert r.table == s.table;
    forall y | FIRST_USER_PAGE <= y < FIRST_SWAP_PAGE && Tags(r.table[y], to, 0)
      ensures r.open[y] <==> to != s.current
    {
    }
    if to == s.current && HeadInMemory(s) {
      var y :| FIRST_USER_PAGE <= y < FIRST_SWAP_PAGE && Tags(s.table[y], s.current, 0);
      assert Tags(r.table[y], r.current, 0) && !r.open[y];
    }
  }

  /**
   * A context switch leaves the next thread's pages in place, and its first page, open, unless
   * that thread is the one that was running and has one: then it closes it.
   */
  lemma SwitchKeepsAddressableIff(s: Memory, to: int)
    requires Addressable(s) && to != NO_THREAD
    ensures Addressable(Switch(s, to)) <==> to != s.current || (NonePlaced(s) && !HeadInMemory(s))
  {
    hide Inv, Layered, PlacedOpen, HeadOpen, NonePlaced, HeadInMemory, Switch;
    AddressableParts(s);
    SwitchStep(s, to);
    SwitchKeepsLayers(s, to);
    SwitchKeepsOpenIff(s, to);
    SwitchKeepsHeadOpenIff(s, to);
  }

  lemma AddressableParts(s: Memory)
    requires Addressable(s)
    ensures Sized(s) && Inv(s) && Layered(s) && PlacedOpen(s) && HeadOpen(s)
  {
  }

  /** getHead copies from a frame that can be read; after a switch from a thread to itself it could not. */
  lemma HeadCanBeCopied(s: Memory)
    requires Addressable(s)
    ensures
      var h := FindFrame(s.table, s.current, 0, FIRST_USER_PAGE, FIRST_SWAP_PAGE);
      && (h < FIRST_SWAP_PAGE ==> s.open[h])
      && (h < FIRST_SWAP_PAGE ==> !Switch(s, s.current).open[h])
  {
    var h := FindFrame(s.table, s.current, 0, FIRST_USER_PAGE, FIRST_SWAP_PAGE);
    assert h < FIRST_SWAP_PAGE ==> Tags(s.table[h], s.current, 0);
  }

  lemma HeadKeepsAddressable(s: Memory, flag: int)
    requires Addressable(s) && !HeadInSwap(s) && flag == MALLOC_FLAG
    ensures Addressable(GetHead(s, flag).0)
  {
    HeadStep(s);
    HeadKeepsLayers(s, flag);
    HeadKeepsOpen(s, flag);
  }

  lemma FirstIsElsewhere(s: Memory, x: nat)
    requires Unique(s) && InPlace(s, 0) && User(x) && x != FIRST_USER_PAGE
    ensures !Tags(s.table[x], s.current, 0)
  {
    assert User(FIRST_USER_PAGE) && s.table[FIRST_USER_PAGE].inUse;
  }

  lemma GrowKeepsAddressable(s: Memory, n: nat)
    requires Addressable(s) && 0 < n && FIRST_USER_PAGE + n < FIRST_SWAP_PAGE && InPlace(s, n - 1)
    requires (s.current, n) !in View(s) && InPlace(s, 0)
    ensures Addressable(Grow(s, FIRST_USER_PAGE + n).0)
  {
    FirstIsElsewhere(s, FIRST_USER_PAGE + n);
    ExtendStep(s, FIRST_USER_PAGE + n);
    GrowKeepsLayers(s, n);
    GrowKeepsOpen(s, n);
  }

  // ---------------------------------------------------------------- accesses

  /** The page that an address of page n names is the thread's own, unless its frame is closed. */
  lemma OpenMeansInPlace(s: Memory, n: int)
    requires Inv(s) && Layered(s) && (s.current, n) in View(s)
    ensures 0 <= n && FIRST_USER_PAGE + n < FIRST_SWAP_PAGE
    ensures s.open[FIRST_USER_PAGE + n] ==> InPlace(s, n)
  {
    var z := FrameOf(s, (s.current, n));
    assert Layer(s, s.table[z].pageNum);
  }

  /** An access to page n: a fault first when its frame is closed. */
  function Touch(s: Memory, n: int): (r: Memory)
    requires Sized(s)
    ensures Sized(r)
  {
    if 0 <= n && FIRST_USER_PAGE + n < FIRST_SWAP_PAGE && !s.open[FIRST_USER_PAGE + n] then
      SwapPageMended(s, s.current, n, FIRST_USER_PAGE + n).GetOr(s)
    else s
  }

  /** r is s with pages in other frames, none of them moved away from its place. */
  ghost predicate Settled(s: Memory, r: Memory) {
    && Inv(s) && Addressable(r) && r.current == s.current && View(r) == View(s)
    && r.freeMem == s.freeMem && r.freeSwap == s.freeSwap
    && forall m :: InPlace(s, m) ==> InPlace(r, m)
  }

  /** Every access to a page of the running thread finds it in place and open, and displaces no page that is. */
  lemma TouchReaches(s: Memory, n: int)
    requires Addressable(s) && (s.current, n) in View(s)
    ensures 0 <= n && FIRST_USER_PAGE + n < FIRST_SWAP_PAGE
    ensures Settled(s, Touch(s, n)) && InPlace(Touch(s, n), n) && Touch(s, n).open[FIRST_USER_PAGE + n]
  {
    OpenMeansInPlace(s, n);
    if !s.open[FIRST_USER_PAGE + n] {
      FaultReaches(s, n);
    }
  }

  lemma ExchangeKeepsPlaces(s: Memory, n: nat, y: nat, m: int)
    requires Sized(s) && FIRST_USER_PAGE + n < FIRST_SWAP_PAGE && User(y) && Tags(s.table[y], s.current, n)
    requires InPlace(s, m)
    ensures InPlace(Exchange(s, FIRST_USER_PAGE + n, y), m)
  {
  }

  lemma FaultReaches(s: Memory, n: nat)
    requires Addressable(s) && (s.current, n) in View(s) && FIRST_USER_PAGE + n < FIRST_SWAP_PAGE
    requires !s.open[FIRST_USER_PAGE + n]
    ensures
      var r := SwapPageMended(s, s.current, n, FIRST_USER_PAGE + n);
      r.Some? && Settled(s, r.value) && InPlace(r.value, n) && r.value.open[FIRST_USER_PAGE + n]
  {
    var x, y := FIRST_USER_PAGE + n, FrameOf(s, (s.current, n));
    var r := Exchange(s, x, y);
    FaultStep(s, n, x);
    assert SwapPageMended(s, s.current, n, x) == Some(r);
    assert y == x ==> InPlace(s, n);
    ExchangeKeepsLayers(s, n, y);
    HolderIsOther(s, n, y);
    ExchangeKeepsOpen(s, n, y);
    forall m | InPlace(s, m) ensures InPlace(r, m) {
      ExchangeKeepsPlaces(s, n, y, m);
    }
    SettledIs(s, r);
  }

  lemma SettledIs(s: Memory, r: Memory)
    requires Inv(s) && Addressable(r) && r.current == s.current && View(r) == View(s)
    requires r.freeMem == s.freeMem && r.freeSwap == s.freeSwap
    requires forall m :: InPlace(s, m) ==> InPlace(r, m)
    ensures Settled(s, r)
  {
  }

  /** A store through an address of page n changes that page of the running thread, and no other page. */
  lemma StoreReaches(s: Memory, n: int, page: Page)
    requires Addressable(s) && (s.current, n) in View(s)
    ensures 0 <= n && FIRST_USER_PAGE + n < FIRST_SWAP_PAGE
    ensures
      var m := Touch(s, n);
      var r := m.(pages := m.pages[FIRST_USER_PAGE + n := page]);
      Addressable(r) && r.current == s.current && View(r) == View(s)[(s.current, n) := page]
  {
    TouchReaches(s, n);
    StoreKeepsAddressable(Touch(s, n), n, page);
  }

  lemma StoreKeepsAddressable(s: Memory, n: nat, page: Page)
    requires Addressable(s) && FIRST_USER_PAGE + n < FIRST_SWAP_PAGE && InPlace(s, n)
    requires s.open[FIRST_USER_PAGE + n]
    ensures
      var r := s.(pages := s.pages[FIRST_USER_PAGE + n := page]);
      Addressable(r) && View(r) == View(s)[(s.current, n) := page]
  {
    StoreStep(s, FIRST_USER_PAGE + n, page);
    var r := s.(pages := s.pages[FIRST_USER_PAGE + n := page]);
    forall y | User(y) && r.table[y].inUse ensures Layer(r, r.table[y].pageNum) {
      assert Layer(s, s.table[y].pageNum);
    }
    forall m | InPlace(r, m) ensures InPlace(s, m) {
    }
  }
}
