/**
 * What each operation of the page manager does to the map from (thread, page) to contents,
 * and to the counters of free frames; and exactly when the code falls short of it.
 */
module PagingMoves {
  import opened PageTable

  // ---------------------------------------------------------------- one new page

  lemma UniqueTagged(s: Memory)
    requires Unique(s)
    ensures Tagged(s) && Sized(s)
  {
  }

  /** Giving an unused frame to page n of the running thread adds one entry, unless it has one already. */
  lemma AssignAddsOne(s: Memory, r: Memory, x: nat, n: int)
    requires Unique(s) && Sized(r) && r.current == s.current && User(x) && !s.table[x].inUse
    requires r.table == s.table[x := PageMeta(s.current, n, true)]
    requires forall z :: User(z) && s.table[z].inUse ==> r.pages[z] == s.pages[z]
    ensures Tagged(r) && (Unique(r) <==> (s.current, n) !in View(s))
    ensures Unique(r) ==> View(r) == View(s)[(s.current, n) := r.pages[x]]
  {
    var key := (s.current, n);
    if key in View(s) {
      var y := FrameOf(s, key);
      assert r.table[y].inUse && Tags(r.table[x], r.table[y].tid, r.table[y].pageNum);
    } else {
      forall p, q | User(p) && User(q) && p != q && r.table[p].inUse
        ensures !Tags(r.table[q], r.table[p].tid, r.table[p].pageNum)
      {
        if q == x {
          assert Key(s.table[p]) in Keys(s);
        } else if p == x {
          assert r.table[q].inUse ==> Key(s.table[q]) in Keys(s);
        }
      }
      AssignedView(s, r, x, n);
    }
  }

  lemma AssignedView(s: Memory, r: Memory, x: nat, n: int)
    requires Unique(s) && Unique(r) && r.current == s.current && User(x) && !s.table[x].inUse
    requires r.table == s.table[x := PageMeta(s.current, n, true)]
    requires forall z :: User(z) && s.table[z].inUse ==> r.pages[z] == s.pages[z]
    ensures View(r) == View(s)[(s.current, n) := r.pages[x]]
  {
    hide Unique, View, Tagged;
    UniqueTagged(s);
    UniqueTagged(r);
    var was, now, key := View(s), View(r), (s.current, n);
    assert Key(r.table[x]) == key;
    ViewAt(r, x);
    forall k | k in was ensures k in now && now[k] == was[k] {
      AssignedEntry(s, r, x, n, k);
    }
    forall k | k in now && k != key ensures k in was {
      var z := FrameOf(r, k);
      assert z != x && s.table[z].inUse && Key(s.table[z]) == k;
    }
    assert now.Keys == was.Keys + {key};
  }

  lemma AssignedEntry(s: Memory, r: Memory, x: nat, n: int, k: (int, int))
    requires Unique(s) && Unique(r) && r.current == s.current && User(x) && !s.table[x].inUse
    requires r.table == s.table[x := PageMeta(s.current, n, true)]
    requires forall z :: User(z) && s.table[z].inUse ==> r.pages[z] == s.pages[z]
    requires k in Keys(s)
    ensures k in Keys(r) && View(r)[k] == View(s)[k]
  {
    var z := FrameOf(s, k);
    assert r.table[z] == s.table[z];
    ViewAt(s, z);
    ViewAt(r, z);
  }

  /** r is s after an unused frame y took over frame x and x became page n of the running thread. */
  ghost predicate Given(s: Memory, r: Memory, y: nat, x: nat, n: int) {
    && Sized(s) && Sized(r) && User(y) && User(x) && r.current == s.current
    && r.table == s.table[y := s.table[x]][x := PageMeta(s.current, n, true)]
    && (forall z :: User(z) && z != x && z != y ==> r.pages[z] == s.pages[z])
    && (y != x ==> r.pages[y] == s.pages[x])
  }

  lemma GivenAddsOne(s: Memory, r: Memory, y: nat, x: nat, n: int)
    requires Unique(s) && Given(s, r, y, x, n) && !s.table[y].inUse
    ensures Tagged(r) && (Unique(r) <==> (s.current, n) !in View(s))
    ensures Unique(r) ==> View(r) == View(s)[(s.current, n) := r.pages[x]]
  {
    var m := s.(table := s.table[y := s.table[x]][x := s.table[y]], pages := s.pages[y := s.pages[x]]);
    assert Relocated(s, m, x, y);
    RelocationKeepsView(s, m, x, y);
    assert r.table == m.table[x := PageMeta(s.current, n, true)];
    AssignAddsOne(m, r, x, n);
  }

  // ---------------------------------------------------------------- what the operations do to the map

  predicate Full(s: Memory)
    requires Sized(s)
  {
    FirstFree(s.table, FIRST_USER_PAGE, LAST_SWAP_PAGE) == LAST_SWAP_PAGE
  }

  /** The running thread's first page is in the swap file, where getHead does not look for it. */
  ghost predicate HeadInSwap(s: Memory)
    requires Sized(s)
  {
    exists z :: FIRST_SWAP_PAGE <= z < LAST_SWAP_PAGE && Tags(s.table[z], s.current, 0)
  }

  ghost predicate HeadInMemory(s: Memory)
    requires Sized(s)
  {
    exists z :: FIRST_USER_PAGE <= z < FIRST_SWAP_PAGE && Tags(s.table[z], s.current, 0)
  }

  lemma HeadIsFound(s: Memory)
    requires Tagged(s)
    ensures
      var h := FindFrame(s.table, s.current, 0, FIRST_USER_PAGE, FIRST_SWAP_PAGE);
      && (HeadInMemory(s) <==> h < FIRST_SWAP_PAGE)
      && (h < FIRST_SWAP_PAGE ==> s.table[h].inUse)
  {
    var h := FindFrame(s.table, s.current, 0, FIRST_USER_PAGE, FIRST_SWAP_PAGE);
    if h < FIRST_SWAP_PAGE {
      assert User(h) && Tags(s.table[h], s.current, 0);
    }
  }

  lemma HeadKnownIff(s: Memory)
    requires Tagged(s)
    ensures (s.current, 0) in View(s) <==> HeadInMemory(s) || HeadInSwap(s)
  {
    var key := (s.current, 0);
    if key in View(s) {
      var z := FrameOf(s, key);
      assert Tags(s.table[z], s.current, 0);
    }
    if z :| User(z) && Tags(s.table[z], s.current, 0) {
      assert s.table[z].inUse && Key(s.table[z]) == key;
    }
  }

  lemma ExchangeRelocates(s: Memory, x: nat, y: nat)
    requires Unique(s) && User(x) && User(y)
    ensures Relocated(s, Exchange(s, x, y), x, y)
    ensures Unique(Exchange(s, x, y)) && View(Exchange(s, x, y)) == View(s)
  {
    var r := Exchange(s, x, y);
    assert Relocated(s, r, x, y);
    RelocationKeepsView(s, r, x, y);
  }

  /** A thread that has its first page gets it back at the first user frame, and nothing else changes. */
  lemma HeadComesBack(s: Memory, flag: int)
    requires Unique(s) && HeadInMemory(s)
    ensures
      var (r, found) := GetHead(s, flag);
      && found && Unique(r) && View(r) == View(s) && r.current == s.current
      && Tags(r.table[FIRST_USER_PAGE], s.current, 0)
  {
    HeadIsFound(s);
    var h := FindFrame(s.table, s.current, 0, FIRST_USER_PAGE, FIRST_SWAP_PAGE);
    if h != FIRST_USER_PAGE {
      ExchangeRelocates(s, FIRST_USER_PAGE, h);
    }
  }

  /**
   * A thread without pages in memory gets a first page, with a fresh header, and no other
   * page changes: exactly when its first page is not in the swap file. In the other case
   * the table names (tid, 0) twice.
   */
  lemma NewHeadAddsOne(s: Memory, flag: int)
    requires Unique(s) && !HeadInMemory(s) && flag != 0
    ensures
      var (r, found) := GetHead(s, flag);
      && (found <==> !Full(s)) && (!found ==> r == s)
      && (found ==>
            && Tagged(r) && (Unique(r) <==> !HeadInSwap(s))
            && Tags(r.table[FIRST_USER_PAGE], s.current, 0)
            && r.pages[FIRST_USER_PAGE][..8] == [232, 15, 0, 0, 1, 0, 0, 0]
            && (Unique(r) ==> View(r) == View(s)[(s.current, 0) := r.pages[FIRST_USER_PAGE]]))
  {
    hide Unique, View, FirstFree;
    UniqueTagged(s);
    HeadIsFound(s);
    if !Full(s) {
      FirstPageIsGiven(s);
    }
  }

  lemma FirstPageIsGiven(s: Memory)
    requires Unique(s) && !HeadInMemory(s) && !Full(s)
    ensures
      var r := NewHead(s).0;
      && Tagged(r) && (Unique(r) <==> !HeadInSwap(s))
      && (Unique(r) ==> View(r) == View(s)[(s.current, 0) := r.pages[FIRST_USER_PAGE]])
  {
    HeadKnownIff(s);
    var y := FirstFree(s.table, FIRST_USER_PAGE, LAST_SWAP_PAGE);
    var r := NewHead(s).0;
    if y == FIRST_USER_PAGE {
      assert s.table[y := s.table[y]] == s.table;
    }
    assert Given(s, r, y, FIRST_USER_PAGE, 0);
    GivenAddsOne(s, r, y, FIRST_USER_PAGE, 0);
  }

  /** mydeallocate passes FREE_FLAG, but getHead tests for 0: freeing gives a thread its first page too. */
  lemma FreeFlagAllocates(s: Memory)
    requires Sized(s)
    ensures GetHead(s, FREE_FLAG) == GetHead(s, MALLOC_FLAG)
    ensures !HeadInMemory(s) ==> GetHead(s, 0) == (s, false)
  {
    var h := FindFrame(s.table, s.current, 0, FIRST_USER_PAGE, FIRST_SWAP_PAGE);
    if h < FIRST_SWAP_PAGE { assert Tags(s.table[h], s.current, 0); }
  }

  /** The page after frame x - 1's page, for the thread that runs. */
  function NextNum(s: Memory, x: nat): int
    requires Sized(s) && FIRST_USER_PAGE < x < LAST_SWAP_PAGE
  {
    s.table[x - 1].pageNum + 1
  }

  /** What a round of growth does to the table: frame y takes over x's entry, and x becomes the next page. */
  lemma GrownTable(s: Memory, x: nat)
    requires Sized(s) && FIRST_USER_PAGE < x < LAST_SWAP_PAGE && s.table[x - 1].inUse && !Full(s)
    ensures
      var r, y := Grow(s, x).0, FirstFree(s.table, FIRST_USER_PAGE, LAST_SWAP_PAGE);
      && Grow(s, x).1 && y < LAST_SWAP_PAGE && !s.table[y].inUse && r.current == s.current
      && r.table == s.table[y := s.table[x]][x := PageMeta(s.current, NextNum(s, x), true)]
      && (forall z :: User(z) && z != x && z != y ==> r.pages[z] == s.pages[z] && r.open[z] == s.open[z])
      && (y != x ==> r.pages[y] == s.pages[x] && !r.open[y]) && r.open[x]
      && r.freeMem == Counted(s, y).freeMem && r.freeSwap == Counted(s, y).freeSwap
  {
    if FirstFree(s.table, FIRST_USER_PAGE, LAST_SWAP_PAGE) == x {
      GrownInPlace(s, x);
    } else {
      GrownElsewhere(s, x);
    }
  }

  lemma GrownInPlace(s: Memory, x: nat)
    requires Sized(s) && FIRST_USER_PAGE < x < LAST_SWAP_PAGE && s.table[x - 1].inUse
    requires FirstFree(s.table, FIRST_USER_PAGE, LAST_SWAP_PAGE) == x
    ensures
      var r, e := Grow(s, x).0, PageMeta(s.current, NextNum(s, x), true);
      && Grow(s, x).1 && r.table == s.table[x := e] == s.table[x := s.table[x]][x := e]
      && r.pages == s.pages && r.open == s.open[x := true] && r.current == s.current
      && r.freeMem == Counted(s, x).freeMem && r.freeSwap == Counted(s, x).freeSwap
  {
    hide FirstFree;
    var m := RequestPage(s).0;
    assert m.table[x - 1] == s.table[x - 1];
  }

  lemma GrownElsewhere(s: Memory, x: nat)
    requires Sized(s) && FIRST_USER_PAGE < x < LAST_SWAP_PAGE && s.table[x - 1].inUse && !Full(s)
    requires FirstFree(s.table, FIRST_USER_PAGE, LAST_SWAP_PAGE) != x
    ensures
      var r, y := Grow(s, x).0, FirstFree(s.table, FIRST_USER_PAGE, LAST_SWAP_PAGE);
      && Grow(s, x).1 && r.table == s.table[y := s.table[x]][x := PageMeta(s.current, NextNum(s, x), true)]
      && r.pages == s.pages[y := s.pages[x]][x := ZeroPage()] && r.current == s.current
      && r.open == s.open[y := true][y := true][x := true][y := false]
      && r.freeMem == Counted(s, y).freeMem && r.freeSwap == Counted(s, y).freeSwap
  {
    hide FirstFree, ZeroPage;
    var m := RequestPage(s).0;
    assert m.table[x - 1] == s.table[x - 1] && m.table[x] == s.table[x];
  }

  /**
   * Growth adds one page and changes no other, wherever the page that was at frame x has
   * to go: exactly when the thread does not have a page of that number yet, that is, when
   * the last block's header was in its last page.
   */
  lemma GrowAddsOne(s: Memory, x: nat)
    requires Unique(s) && FIRST_USER_PAGE < x < LAST_SWAP_PAGE && s.table[x - 1].inUse
    ensures
      var (r, grown) := Grow(s, x);
      && (grown <==> !Full(s)) && (!grown ==> r == s)
      && (grown ==>
            && Tagged(r) && (Unique(r) <==> (s.current, NextNum(s, x)) !in View(s))
            && Tags(r.table[x], s.current, NextNum(s, x))
            && (Unique(r) ==> View(r) == View(s)[(s.current, NextNum(s, x)) := r.pages[x]]))
  {
    if !Full(s) {
      GrownTable(s, x);
      GrownView(s, x, Grow(s, x).0);
    }
  }

  lemma GrownView(s: Memory, x: nat, r: Memory)
    requires Unique(s) && FIRST_USER_PAGE < x < LAST_SWAP_PAGE && s.table[x - 1].inUse && !Full(s)
    requires r == Grow(s, x).0
    ensures
      && Tagged(r) && (Unique(r) <==> (s.current, NextNum(s, x)) !in View(s))
      && Tags(r.table[x], s.current, NextNum(s, x))
      && (Unique(r) ==> View(r) == View(s)[(s.current, NextNum(s, x)) := r.pages[x]])
  {
    hide Unique, View, Grow;
    UniqueTagged(s);
    GrownTable(s, x);
    GivenAddsOne(s, r, FirstFree(s.table, FIRST_USER_PAGE, LAST_SWAP_PAGE), x, NextNum(s, x));
  }

  // ---------------------------------------------------------------- the page fault

  /** Mended, swapPage keeps the map and puts the page where its thread expects it. */
  lemma MendedSwapKeepsView(s: Memory, n: int, evict: nat)
    requires Unique(s) && User(evict) && (s.current, n) in View(s)
    ensures
      var r := SwapPageMended(s, s.current, n, evict);
      && r.Some? && Unique(r.value) && View(r.value) == View(s) && r.value.current == s.current
      && Tags(r.value.table[evict], s.current, n)
  {
    var y := FrameOf(s, (s.current, n));
    ExchangeRelocates(s, evict, y);
  }

  /** As written, it keeps the map exactly when the two frames hold the same bytes. */
  lemma SwapKeepsViewIff(s: Memory, tid: int, n: int, evict: nat)
    requires Unique(s) && User(evict) && (tid, n) in View(s)
    ensures
      var y := FrameOf(s, (tid, n));
      var r := SwapPage(s, tid, n, evict);
      && r.Some? && Unique(r.value)
      && (View(r.value) == View(s) <==> s.pages[y] == s.pages[evict])
  {
    var y := FrameOf(s, (tid, n));
    var r := SwapPage(s, tid, n, evict).value;
    assert r.table == s.table && r.current == s.current;
    SwappedEntry(s, r, y);
    if s.pages[y] == s.pages[evict] {
      assert r.pages == s.pages;
    }
  }

  lemma SwappedEntry(s: Memory, r: Memory, y: nat)
    requires Unique(s) && Sized(r) && r.table == s.table && r.current == s.current && User(y) && s.table[y].inUse
    ensures Unique(r) && (View(r) == View(s) ==> r.pages[y] == s.pages[y])
    ensures r.pages == s.pages ==> View(r) == View(s)
  {
    hide Unique, View;
    SameTableUnique(s, r);
    UniqueTagged(s);
    UniqueTagged(r);
    ViewAt(s, y);
    ViewAt(r, y);
    if r.pages == s.pages {
      SamePagesView(s, r);
    }
  }

  lemma SameTableUnique(s: Memory, r: Memory)
    requires Unique(s) && Sized(r) && r.table == s.table && r.current == s.current
    ensures Unique(r)
  {
  }

  lemma SamePagesView(s: Memory, r: Memory)
    requires Tagged(s) && Tagged(r) && r.table == s.table && r.pages == s.pages
    ensures View(r) == View(s)
  {
    assert Keys(r) == Keys(s);
  }

  /** A page that no frame holds ends the program. */
  lemma SwapFindsIff(s: Memory, tid: int, n: int, evict: nat)
    requires Unique(s) && User(evict) && tid != NO_THREAD
    ensures SwapPage(s, tid, n, evict).Some? <==> (tid, n) in View(s)
  {
    if (tid, n) in View(s) {
      var y := FrameOf(s, (tid, n));
    }
    var z := FindFrame(s.table, tid, n, FIRST_USER_PAGE, LAST_SWAP_PAGE);
    if z < LAST_SWAP_PAGE {
      assert Key(s.table[z]) in Keys(s);
    }
  }

  // ---------------------------------------------------------------- accounting

  function Unused(table: seq<PageMeta>, lo: nat, hi: nat): nat
    requires lo <= hi <= |table|
    decreases hi - lo
  {
    if lo == hi then 0 else (if table[lo].inUse then 0 else 1) + Unused(table, lo + 1, hi)
  }

  function Weight(e: PageMeta): nat {
    if e.inUse then 0 else 1
  }

  lemma {:induction false} UnusedUpdate(table: seq<PageMeta>, lo: nat, hi: nat, y: nat, e: PageMeta)
    requires lo <= hi <= |table| && y < |table|
    ensures Unused(table[y := e], lo, hi) ==
            Unused(table, lo, hi) + if lo <= y < hi then Weight(e) - Weight(table[y]) else 0
    decreases hi - lo
  {
    if lo < hi {
      UnusedUpdate(table, lo + 1, hi, y, e);
    }
  }

  ghost predicate Accounted(s: Memory) {
    && Sized(s)
    && s.freeMem == Unused(s.table, FIRST_USER_PAGE, FIRST_SWAP_PAGE)
    && s.freeSwap == Unused(s.table, FIRST_SWAP_PAGE, LAST_SWAP_PAGE)
  }

  lemma UpdateTwice(table: seq<PageMeta>, lo: nat, hi: nat, y: nat, e: PageMeta, x: nat, f: PageMeta)
    requires lo <= hi <= |table| && y < |table| && x < |table| && x != y
    ensures Unused(table[y := e][x := f], lo, hi) ==
            Unused(table, lo, hi) + (if lo <= y < hi then Weight(e) - Weight(table[y]) else 0)
                                  + (if lo <= x < hi then Weight(f) - Weight(table[x]) else 0)
  {
    UnusedUpdate(table, lo, hi, y, e);
    UnusedUpdate(table[y := e], lo, hi, x, f);
  }

  lemma ExchangeKeepsAccount(s: Memory, x: nat, y: nat)
    requires Accounted(s) && User(x) && User(y)
    requires s.table[x].inUse == s.table[y].inUse || (x < FIRST_SWAP_PAGE <==> y < FIRST_SWAP_PAGE)
    ensures Accounted(Exchange(s, x, y))
  {
    if x != y {
      UpdateTwice(s.table, FIRST_USER_PAGE, FIRST_SWAP_PAGE, x, s.table[y], y, s.table[x]);
      UpdateTwice(s.table, FIRST_SWAP_PAGE, LAST_SWAP_PAGE, x, s.table[y], y, s.table[x]);
    } else {
      assert s.table[x := s.table[y]][y := s.table[x]] == s.table;
    }
  }

  /** The count of free frames in one part after frame y took over x's entry and x became used. */
  lemma TakenCount(table: seq<PageMeta>, lo: nat, hi: nat, y: nat, x: nat, e: PageMeta)
    requires lo <= hi <= |table| && y < |table| && x < |table| && !table[y].inUse && e.inUse
    ensures
      var stays := if (lo <= y < hi) == (lo <= x < hi) || x == y || table[x].inUse then 0 else 1;
      Unused(table[y := table[x]][x := e], lo, hi) ==
      Unused(table, lo, hi) - (if lo <= y < hi then 1 - stays else stays)
  {
    hide Unused;
    if x == y {
      assert table[y := table[x]] == table;
      UnusedUpdate(table, lo, hi, x, e);
    } else {
      UpdateTwice(table, lo, hi, y, table[x], x, e);
    }
  }

  /**
   * Taking frame y off its counter and giving frame x away keeps the counters exact unless
   * the frame that ends up used is a swap frame and the one counted is not.
   */
  lemma GivenAccountIff(s: Memory, r: Memory, y: nat, x: nat, e: PageMeta)
    requires Accounted(s) && Sized(r) && User(x) && User(y) && !s.table[y].inUse && e.inUse
    requires r.table == s.table[y := s.table[x]][x := e] && (x < y ==> s.table[x].inUse)
    requires r.freeMem == Counted(s, y).freeMem && r.freeSwap == Counted(s, y).freeSwap
    ensures Accounted(r) <==> !(y < FIRST_SWAP_PAGE <= x && !s.table[x].inUse)
  {
    hide Unused;
    TakenCount(s.table, FIRST_USER_PAGE, FIRST_SWAP_PAGE, y, x, e);
    TakenCount(s.table, FIRST_SWAP_PAGE, LAST_SWAP_PAGE, y, x, e);
  }

  lemma GetHeadKeepsAccount(s: Memory, flag: int)
    requires Tagged(s) && Accounted(s)
    ensures Accounted(GetHead(s, flag).0)
  {
    HeadIsFound(s);
    var h := FindFrame(s.table, s.current, 0, FIRST_USER_PAGE, FIRST_SWAP_PAGE);
    if FIRST_USER_PAGE < h < FIRST_SWAP_PAGE {
      ExchangeKeepsAccount(s, FIRST_USER_PAGE, h);
    } else if h == FIRST_SWAP_PAGE && flag != 0 && !Full(s) {
      var y := FirstFree(s.table, FIRST_USER_PAGE, LAST_SWAP_PAGE);
      if y == FIRST_USER_PAGE { assert s.table[y := s.table[y]] == s.table; }
      GivenAccountIff(s, NewHead(s).0, y, FIRST_USER_PAGE, PageMeta(s.current, 0, true));
    }
  }

  /** Growth keeps the counters exact unless it takes an unused swap frame while memory has room. */
  lemma GrowKeepsAccountIff(s: Memory, x: nat)
    requires Accounted(s) && FIRST_USER_PAGE < x < LAST_SWAP_PAGE && s.table[x - 1].inUse && !Full(s)
    ensures
      var y := FirstFree(s.table, FIRST_USER_PAGE, LAST_SWAP_PAGE);
      Accounted(Grow(s, x).0) <==> !(y < FIRST_SWAP_PAGE <= x && !s.table[x].inUse)
  {
    hide Unused, Grow;
    GrownTable(s, x);
    var e := PageMeta(s.current, NextNum(s, x), true);
    var y := FirstFree(s.table, FIRST_USER_PAGE, LAST_SWAP_PAGE);
    GivenAccountIff(s, Grow(s, x).0, y, x, e);
  }
}
