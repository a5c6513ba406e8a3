/**
 * The memory of a thread as a string of bytes from its HEAD on, whatever frames its pages are
 * in: what loads, stores, getHead and the growth loop do to it, and that they do nothing to
 * the memory of other threads.
 */
module ThreadSpace {
  import opened PageTable
  import opened PagingMoves
  import opened PagingRuns
  import opened AddressSpace
  import opened BlockList
  import opened Headers

  /** Thread t owns pages 0 to pages - 1, and no others. */
  ghost predicate OwnedBy(s: Memory, t: int, pages: nat)
    requires Tagged(s)
  {
    forall n :: (t, n) in View(s) <==> 0 <= n < pages
  }

  ghost predicate Owns(s: Memory, pages: nat)
    requires Tagged(s)
  {
    OwnedBy(s, s.current, pages)
  }

  ghost function ByteAt(s: Memory, t: int, a: int): int
    requires Tagged(s)
  {
    if (t, a / PAGE_SIZE) in View(s) then View(s)[(t, a / PAGE_SIZE)][a % PAGE_SIZE] else 0
  }

  /** The bytes of thread t's pages, in order. */
  ghost function Image(s: Memory, t: int, pages: nat): (r: seq<int>)
    requires Tagged(s)
    ensures |r| == pages * PAGE_SIZE
  {
    seq(pages * PAGE_SIZE, i requires 0 <= i < pages * PAGE_SIZE => ByteAt(s, t, i))
  }

  /** Other threads have the pages they had, and these hold what they held. */
  ghost predicate OthersSame(s: Memory, r: Memory)
    requires Tagged(s) && Tagged(r)
  {
    forall k: (int, int) :: k.0 != s.current ==>
      (k in View(r) <==> k in View(s)) && (k in View(s) ==> View(r)[k] == View(s)[k])
  }

  ghost predicate PlacesKept(s: Memory, r: Memory)
    requires Sized(s) && Sized(r)
  {
    forall m :: InPlace(s, m) ==> InPlace(r, m)
  }

  /** The running thread owns p pages, and addresses mean what they should. */
  ghost predicate Ready(s: Memory, p: nat) {
    Addressable(s) && Owns(s, p)
  }

  /** As many frames are used up as pages are gained, and none by moving pages about. */
  predicate Counts(s: Memory, p: nat, r: Memory, q: nat) {
    && p <= q && r.freeMem + r.freeSwap + q == s.freeMem + s.freeSwap + p
    && (p == q ==> r.freeMem == s.freeMem)
  }

  /**
   * From s, where the running thread owns p pages, to r, where it owns q and they hold mem:
   * frames apart, that is all that happened.
   */
  ghost predicate Did(s: Memory, p: nat, r: Memory, q: nat, mem: seq<int>) {
    && Ready(s, p) && Ready(r, q) && r.current == s.current && Image(r, r.current, q) == mem
    && OthersSame(s, r) && PlacesKept(s, r) && Counts(s, p, r, q)
  }

  lemma DidParts(s: Memory, p: nat, r: Memory, q: nat, mem: seq<int>)
    requires Did(s, p, r, q, mem)
    ensures Ready(s, p) && Ready(r, q) && r.current == s.current && Image(r, r.current, q) == mem
    ensures OthersSame(s, r) && PlacesKept(s, r) && Counts(s, p, r, q)
  {
  }

  lemma DidNothing(s: Memory, p: nat)
    requires Ready(s, p)
    ensures Did(s, p, s, p, Image(s, s.current, p))
  {
  }

  lemma DidFurther(s: Memory, p: nat, m: Memory, q: nat, mem: seq<int>, r: Memory, o: nat, mem': seq<int>)
    requires Did(s, p, m, q, mem) && Did(m, q, r, o, mem')
    ensures Did(s, p, r, o, mem')
  {
    hide Addressable, Owns, Image, View;
  }

  // ---------------------------------------------------------------- loads and stores

  lemma SameView(s: Memory, p: nat, r: Memory)
    requires Ready(s, p) && Settled(s, r)
    ensures Did(s, p, r, p, Image(s, s.current, p))
  {
    hide Addressable, Inv;
    ReadySized(s, p);
    AddressableTagged(r);
    SameImage(s, r, s.current, p);
  }

  lemma SameImage(s: Memory, r: Memory, t: int, p: nat)
    requires Tagged(s) && Tagged(r) && View(r) == View(s)
    ensures Image(r, t, p) == Image(s, t, p)
  {
    hide View;
  }

  lemma OwnsByte(s: Memory, p: nat, a: int)
    requires Ready(s, p) && 0 <= a < p * PAGE_SIZE
    ensures (s.current, a / PAGE_SIZE) in View(s) && Image(s, s.current, p)[a] == ByteAt(s, s.current, a)
  {
    hide Addressable, View;
  }

  /** A load of one byte: a fault first if need be, and then the byte of the frame its address names. */
  lemma LoadReads(s: Memory, p: nat, a: int)
    requires Ready(s, p) && 0 <= a < p * PAGE_SIZE
    ensures
      var r := Touch(s, a / PAGE_SIZE);
      && Did(s, p, r, p, Image(s, s.current, p)) && InPlace(r, a / PAGE_SIZE)
      && a / PAGE_SIZE < FIRST_SWAP_PAGE
      && r.pages[FIRST_USER_PAGE + a / PAGE_SIZE][a % PAGE_SIZE] == Image(s, s.current, p)[a]
  {
    hide Addressable, Inv, View, Image, Touch;
    ReadySized(s, p);
    OwnsByte(s, p, a);
    TouchReaches(s, a / PAGE_SIZE);
    SameView(s, p, Touch(s, a / PAGE_SIZE));
    FrameHolds(s, Touch(s, a / PAGE_SIZE), a);
  }

  lemma FrameHolds(s: Memory, r: Memory, a: int)
    requires Tagged(s) && Settled(s, r) && InPlace(r, a / PAGE_SIZE) && (s.current, a / PAGE_SIZE) in View(s)
    requires 0 <= a
    ensures r.pages[FIRST_USER_PAGE + a / PAGE_SIZE][a % PAGE_SIZE] == ByteAt(s, s.current, a)
  {
    var n := a / PAGE_SIZE;
    var y := FIRST_USER_PAGE + n;
    assert r.table[y].inUse && Key(r.table[y]) == (s.current, n);
    ViewAt(r, y);
  }

  /** A store of one byte. */
  function Poke(s: Memory, a: int, v: int): (r: Memory)
    requires Sized(s)
    ensures Sized(r)
  {
    var n := a / PAGE_SIZE;
    var m := Touch(s, n);
    if 0 <= n && FIRST_USER_PAGE + n < FIRST_SWAP_PAGE then
      m.(pages := m.pages[FIRST_USER_PAGE + n := m.pages[FIRST_USER_PAGE + n][a % PAGE_SIZE := v]])
    else m
  }

  lemma PokeStores(s: Memory, p: nat, a: int, v: int)
    requires Ready(s, p) && 0 <= a < p * PAGE_SIZE
    ensures Did(s, p, Poke(s, a, v), p, Image(s, s.current, p)[a := v])
  {
    hide Addressable, Inv, View, Image, Touch;
    var n := a / PAGE_SIZE;
    ReadySized(s, p);
    OwnsByte(s, p, a);
    TouchReaches(s, n);
    var m := Touch(s, n);
    SameView(s, p, m);
    ReadySized(m, p);
    OwnsByte(m, p, a);
    StoredByte(m, p, a, v, Poke(s, a, v));
    DidFurther(s, p, m, p, Image(s, s.current, p), Poke(s, a, v), p, Image(m, m.current, p)[a := v]);
    DidParts(s, p, m, p, Image(s, s.current, p));
  }

  /** The store itself, with the page in place and open. */
  lemma StoredByte(s: Memory, p: nat, a: int, v: int, r: Memory)
    requires Ready(s, p) && 0 <= a < p * PAGE_SIZE && FIRST_USER_PAGE + a / PAGE_SIZE < FIRST_SWAP_PAGE
    requires InPlace(s, a / PAGE_SIZE) && s.open[FIRST_USER_PAGE + a / PAGE_SIZE]
    requires
      var y := FIRST_USER_PAGE + a / PAGE_SIZE;
      r == s.(pages := s.pages[y := s.pages[y][a % PAGE_SIZE := v]])
    ensures Did(s, p, r, p, Image(s, s.current, p)[a := v])
  {
    hide Inv, Addressable, View, Image;
    ReadySized(s, p);
    var n := a / PAGE_SIZE;
    var y := FIRST_USER_PAGE + n;
    var page := s.pages[y][a % PAGE_SIZE := v];
    OwnsByte(s, p, a);
    StoreKeepsAddressable(s, n, page);
    PlaceHolds(s, n);
    AddressableTagged(r);
    StoredView(s, p, a, v, r);
  }

  lemma ReadySized(s: Memory, p: nat)
    requires Ready(s, p)
    ensures Tagged(s) && Sized(s) && Unique(s) && Inv(s)
  {
  }

  lemma PlaceHolds(s: Memory, n: int)
    requires Unique(s) && InPlace(s, n)
    ensures (s.current, n) in View(s) && View(s)[(s.current, n)] == s.pages[FIRST_USER_PAGE + n]
  {
    var y := FIRST_USER_PAGE + n;
    assert s.table[y].inUse && Key(s.table[y]) == (s.current, n);
    ViewAt(s, y);
  }

  lemma StoredView(s: Memory, p: nat, a: int, v: int, r: Memory)
    requires Ready(s, p) && 0 <= a < p * PAGE_SIZE && Addressable(r) && r.current == s.current
    requires r.table == s.table && r.freeMem == s.freeMem && r.freeSwap == s.freeSwap
    requires (s.current, a / PAGE_SIZE) in View(s)
    requires View(r) == View(s)[(s.current, a / PAGE_SIZE) := View(s)[(s.current, a / PAGE_SIZE)][a % PAGE_SIZE := v]]
    ensures Did(s, p, r, p, Image(s, s.current, p)[a := v])
  {
    hide Inv, Addressable, View, Layered, PlacedOpen, HeadOpen;
    AddressableTagged(s);
    AddressableTagged(r);
    StoredImage(s, p, a, v, r);
  }

  lemma AddressableTagged(s: Memory)
    requires Addressable(s)
    ensures Tagged(s) && Sized(s)
  {
  }

  lemma StoredImage(s: Memory, p: nat, a: int, v: int, r: Memory)
    requires Tagged(s) && Tagged(r) && r.current == s.current && 0 <= a < p * PAGE_SIZE
    requires (s.current, a / PAGE_SIZE) in View(s)
    requires View(r) == View(s)[(s.current, a / PAGE_SIZE) := View(s)[(s.current, a / PAGE_SIZE)][a % PAGE_SIZE := v]]
    ensures Image(r, s.current, p) == Image(s, s.current, p)[a := v]
  {
    hide View, Tagged;
    var was, now := Image(s, s.current, p), Image(r, s.current, p);
    forall i | 0 <= i < |now| ensures now[i] == was[a := v][i] {
      assert i / PAGE_SIZE == a / PAGE_SIZE && i % PAGE_SIZE == a % PAGE_SIZE ==> i == a;
    }
  }

  /** A load of n bytes. */
  function TouchBytes(s: Memory, a: int, n: nat): (r: Memory)
    requires Sized(s)
    ensures Sized(r)
  {
    if n == 0 then s else Touch(TouchBytes(s, a, n - 1), (a + n - 1) / PAGE_SIZE)
  }

  /** A load moves pages at most, and leaves the page of its last byte in place. */
  lemma {:induction false} TouchBytesDid(s: Memory, p: nat, a: int, n: nat)
    requires Ready(s, p) && 0 <= a && a + n <= p * PAGE_SIZE
    ensures
      var r := TouchBytes(s, a, n);
      Did(s, p, r, p, Image(s, s.current, p)) && (n > 0 ==> InPlace(r, (a + n - 1) / PAGE_SIZE))
    decreases n
  {
    hide Did, Image, Addressable, Inv, Touch;
    ReadySized(s, p);
    if n == 0 {
      DidNothing(s, p);
    } else {
      TouchBytesDid(s, p, a, n - 1);
      var m, mem := TouchBytes(s, a, n - 1), Image(s, s.current, p);
      DidParts(s, p, m, p, mem);
      LoadReads(m, p, a + n - 1);
      DidFurther(s, p, m, p, mem, TouchBytes(s, a, n), p, mem);
    }
  }

  /** A store of some bytes. */
  function PokeBytes(s: Memory, a: int, bytes: seq<int>): (r: Memory)
    requires Sized(s)
    ensures Sized(r)
  {
    if bytes == [] then s
    else Poke(PokeBytes(s, a, bytes[..|bytes| - 1]), a + |bytes| - 1, bytes[|bytes| - 1])
  }

  lemma {:induction false} PokeBytesDid(s: Memory, p: nat, a: int, bytes: seq<int>)
    requires Ready(s, p) && 0 <= a && a + |bytes| <= p * PAGE_SIZE
    ensures Did(s, p, PokeBytes(s, a, bytes), p, Put(Image(s, s.current, p), a, bytes))
    decreases |bytes|
  {
    hide Did, Image, Addressable, Inv, Poke;
    ReadySized(s, p);
    var was := Image(s, s.current, p);
    if bytes == [] {
      DidNothing(s, p);
      assert Put(was, a, bytes) == was;
    } else {
      var front, n := bytes[..|bytes| - 1], |bytes| - 1;
      PokeBytesDid(s, p, a, front);
      var m, mem := PokeBytes(s, a, front), Put(was, a, front);
      DidParts(s, p, m, p, mem);
      PokeStores(m, p, a + n, bytes[n]);
      assert mem[a + n := bytes[n]] == Put(was, a, bytes);
      DidFurther(s, p, m, p, mem, PokeBytes(s, a, bytes), p, Put(was, a, bytes));
    }
  }

  // ---------------------------------------------------------------- new pages

  lemma {:induction false} UsedUp(table: seq<PageMeta>, lo: nat, hi: nat)
    requires lo <= hi <= |table|
    ensures Unused(table, lo, hi) == 0 <==> forall y :: lo <= y < hi ==> table[y].inUse
    decreases hi - lo
  {
    if lo < hi { UsedUp(table, lo + 1, hi); }
  }

  /** The counters say when no frame is left. */
  lemma FullIff(s: Memory)
    requires Accounted(s)
    ensures Full(s) <==> s.freeMem + s.freeSwap == 0
    ensures s.freeMem >= 0 && s.freeSwap >= 0
  {
    UsedUp(s.table, FIRST_USER_PAGE, FIRST_SWAP_PAGE);
    UsedUp(s.table, FIRST_SWAP_PAGE, LAST_SWAP_PAGE);
    var y := FirstFree(s.table, FIRST_USER_PAGE, LAST_SWAP_PAGE);
    if y == LAST_SWAP_PAGE {
      assert forall k :: FIRST_USER_PAGE <= k < LAST_SWAP_PAGE ==> s.table[k].inUse;
    }
  }

  lemma OwnsHeadIff(s: Memory, p: nat)
    requires Ready(s, p) && !HeadInSwap(s)
    ensures p > 0 <==> HeadInMemory(s)
  {
    HeadKnownIff(s);
    assert (s.current, 0) in View(s) <==> 0 <= 0 < p;
  }

  /** getHead for a thread with a heap: its memory stays as it is, and its first page is in place. */
  lemma HeadStays(s: Memory, p: nat)
    requires Ready(s, p) && p > 0 && !HeadInSwap(s)
    ensures
      var (r, found) := GetHead(s, MALLOC_FLAG);
      found && Did(s, p, r, p, Image(s, s.current, p)) && InPlace(r, 0)
  {
    hide Inv, View, Image, Layered, PlacedOpen, HeadOpen, PlacesKept;
    ReadySized(s, p);
    OwnsHeadIff(s, p);
    HeadKeepsAddressable(s, MALLOC_FLAG);
    HeadComesBack(s, MALLOC_FLAG);
    var r := GetHead(s, MALLOC_FLAG).0;
    HeadKeepsCounters(s, MALLOC_FLAG);
    HeadKeepsPlaces(s, MALLOC_FLAG);
    AddressableTagged(r);
    SameImage(s, r, s.current, p);
  }

  lemma HeadKeepsCounters(s: Memory, flag: int)
    requires Tagged(s) && HeadInMemory(s)
    ensures var r := GetHead(s, flag).0; r.freeMem == s.freeMem && r.freeSwap == s.freeSwap
  {
    HeadIsFound(s);
  }

  lemma HeadKeepsPlaces(s: Memory, flag: int)
    requires Unique(s) && Layered(s)
    ensures PlacesKept(s, GetHead(s, flag).0)
  {
    hide NewHead, Layered, Unique, FindFrame;
    UniqueTagged(s);
    HeadIsFound(s);
    var h := FindFrame(s.table, s.current, 0, FIRST_USER_PAGE, FIRST_SWAP_PAGE);
    forall m | InPlace(s, m) ensures InPlace(GetHead(s, flag).0, m) {
      if FIRST_USER_PAGE < h < FIRST_SWAP_PAGE {
        ExchangeKeepsPlaces(s, 0, h, m);
      } else if h == FIRST_SWAP_PAGE && flag != 0 {
        NewHeadKeepsPlace(s, m);
      }
    }
  }

  lemma NewHeadKeepsPlace(s: Memory, m: int)
    requires Tagged(s) && !HeadInMemory(s) && InPlace(s, m)
    ensures InPlace(NewHead(s).0, m)
  {
    PlaceZeroIsHead(s);
    assert User(FIRST_USER_PAGE + m) && s.table[FIRST_USER_PAGE + m].inUse;
  }

  lemma PlaceZeroIsHead(s: Memory)
    requires Sized(s)
    ensures InPlace(s, 0) ==> HeadInMemory(s)
  {
    var y := FIRST_USER_PAGE;
    if InPlace(s, 0) { assert Tags(s.table[y], s.current, 0); }
  }

  /** One page more, with whatever bytes it holds, behind the thread's pages. */
  lemma AddedPage(s: Memory, r: Memory, p: nat, page: Page)
    requires Tagged(s) && Tagged(r) && r.current == s.current && Owns(s, p)
    requires View(r) == View(s)[(s.current, p) := page]
    ensures Owns(r, p + 1) && OthersSame(s, r) && Image(r, r.current, p + 1) == Image(s, s.current, p) + page
  {
    hide View, Tagged;
    var t := s.current;
    forall n ensures (t, n) in View(r) <==> 0 <= n < p + 1 {
      assert (t, n) in View(s) <==> 0 <= n < p;
    }
    var was, now := Image(s, t, p), Image(r, t, p + 1);
    forall i | 0 <= i < |now| ensures now[i] == (was + page)[i] {
      if i < |was| {
        assert i / PAGE_SIZE < p;
      } else {
        assert i / PAGE_SIZE == p && i % PAGE_SIZE == i - |was|;
      }
    }
  }

  /** getHead for a thread without a page: one page with a header that says it is all free. */
  lemma HeadStarts(s: Memory)
    requires Ready(s, 0) && !HeadInSwap(s)
    ensures
      var (r, found) := GetHead(s, MALLOC_FLAG);
      && (found <==> s.freeMem + s.freeSwap > 0) && (!found ==> r == s)
      && (found ==>
            exists page: Page ::
              && Did(s, 0, r, 1, page) && InPlace(r, 0)
              && FieldsAt(page, 0) == Fields(PAGE_SIZE - META, 1, 0))
  {
    hide Inv, View, Image, Layered, PlacedOpen, HeadOpen, FieldsAt;
    ReadySized(s, 0);
    OwnsHeadIff(s, 0);
    ReadyAccounted(s, 0);
    FullIff(s);
    NewHeadAddsOne(s, MALLOC_FLAG);
    if !Full(s) {
      StartsWith(s, GetHead(s, MALLOC_FLAG).0);
    }
  }

  lemma ReadyAccounted(s: Memory, p: nat)
    requires Ready(s, p)
    ensures Accounted(s)
  {
  }

  lemma StartsWith(s: Memory, r: Memory)
    requires Ready(s, 0) && !HeadInSwap(s) && !HeadInMemory(s) && !Full(s) && r == GetHead(s, MALLOC_FLAG).0
    requires Unique(r) && Tags(r.table[FIRST_USER_PAGE], s.current, 0)
    requires View(r) == View(s)[(s.current, 0) := r.pages[FIRST_USER_PAGE]]
    ensures
      var page := r.pages[FIRST_USER_PAGE];
      Did(s, 0, r, 1, page) && InPlace(r, 0) && FieldsAt(page, 0) == Fields(PAGE_SIZE - META, 1, 0)
  {
    hide Inv, View, Image, Layered, PlacedOpen, HeadOpen, FieldsAt;
    ReadySized(s, 0);
    HeadKeepsAddressable(s, MALLOC_FLAG);
    HeadKeepsPlaces(s, MALLOC_FLAG);
    NewHeadCounts(s);
    AddedPage(s, r, 0, r.pages[FIRST_USER_PAGE]);
    assert Image(s, s.current, 0) == [];
    InitMemFields(s, r);
  }

  lemma NewHeadCounts(s: Memory)
    requires Tagged(s) && !HeadInMemory(s) && !Full(s)
    ensures var r := GetHead(s, MALLOC_FLAG).0; Counts(s, 0, r, 1) && r.current == s.current
  {
    HeadIsFound(s);
  }

  lemma InitMemFields(s: Memory, r: Memory)
    requires Tagged(s) && !HeadInMemory(s) && !Full(s) && r == GetHead(s, MALLOC_FLAG).0
    ensures FieldsAt(r.pages[FIRST_USER_PAGE], 0) == Fields(PAGE_SIZE - META, 1, 0)
  {
    HeadIsFound(s);
    var p: Page :| r.pages[FIRST_USER_PAGE] == InitMem(p);
    InitMemIsHeader(p);
  }

  lemma InitMemIsHeader(p: Page)
    ensures FieldsAt(InitMem(p), 0) == Fields(PAGE_SIZE - META, 1, 0)
  {
    hide InitMem, Value, At, Digits;
    InitMemBytes(p);
    InitialDigits();
    WordFits(PAGE_SIZE - META);
    WordFits(1);
    WordFits(0);
  }

  lemma InitMemBytes(p: Page)
    ensures
      var m := InitMem(p);
      && At(m, SIZE, 4) == [232, 15, 0, 0] && At(m, IS_FREE, 4) == [1, 0, 0, 0]
      && At(m, NEXT, 8) == [0, 0, 0, 0, 0, 0, 0, 0]
      && At(m, PREV, 8) == At(p, PREV, 8) && m[META..] == p[META..]
  {
  }

  lemma InitialDigits()
    ensures Digits(PAGE_SIZE - META, 4) == [232, 15, 0, 0] && Digits(1, 4) == [1, 0, 0, 0]
    ensures Digits(0, 8) == [0, 0, 0, 0, 0, 0, 0, 0]
  {
  }

  /** A round of growth: one page more at the end, and its frame is the one its address names. */
  lemma GrowDid(s: Memory, p: nat)
    requires Ready(s, p) && p > 0 && FIRST_USER_PAGE + p < FIRST_SWAP_PAGE
    requires s.freeMem + s.freeSwap > 0 && InPlace(s, p - 1) && InPlace(s, 0)
    ensures
      var (r, grown) := Grow(s, FIRST_USER_PAGE + p);
      grown && InPlace(r, p) && exists page: Page :: Did(s, p, r, p + 1, Image(s, s.current, p) + page)
  {
    hide Inv, View, Image, Layered, PlacedOpen, HeadOpen;
    ReadySized(s, p);
    ReadyAccounted(s, p);
    FullIff(s);
    PlaceIsUsed(s, p - 1);
    NextIsUnowned(s, p);
    var x := FIRST_USER_PAGE + p;
    GrowAddsOne(s, x);
    GrowKeepsAddressable(s, p);
    var r := Grow(s, x).0;
    GrowCounts(s, x, p);
    GrowKeepsPlaces(s, p);
    AddedPage(s, r, p, r.pages[x]);
  }

  lemma PlaceIsUsed(s: Memory, n: nat)
    requires Tagged(s) && InPlace(s, n) && FIRST_USER_PAGE + n + 1 < LAST_SWAP_PAGE
    ensures s.table[FIRST_USER_PAGE + n].inUse && NextNum(s, FIRST_USER_PAGE + n + 1) == n + 1
  {
    assert User(FIRST_USER_PAGE + n);
  }

  lemma NextIsUnowned(s: Memory, p: nat)
    requires Tagged(s) && Owns(s, p)
    ensures (s.current, p) !in View(s)
  {
  }

  lemma GrowCounts(s: Memory, x: nat, p: nat)
    requires Sized(s) && FIRST_USER_PAGE < x < LAST_SWAP_PAGE && !Full(s)
    ensures var r := Grow(s, x).0; Counts(s, p, r, p + 1) && r.current == s.current
  {
  }

  lemma GrowKeepsPlaces(s: Memory, p: nat)
    requires Unique(s) && Owns(s, p) && p > 0 && FIRST_USER_PAGE + p < FIRST_SWAP_PAGE && !Full(s)
    ensures PlacesKept(s, Grow(s, FIRST_USER_PAGE + p).0)
  {
    var x := FIRST_USER_PAGE + p;
    var r := Grow(s, x).0;
    forall m | InPlace(s, m) ensures InPlace(r, m) {
      PlaceIsOwned(s, m);
      assert m < p && s.table[FIRST_USER_PAGE + m].inUse;
      GrowTouchesTwo(s, x, FIRST_USER_PAGE + m);
    }
  }

  lemma PlaceIsOwned(s: Memory, m: int)
    requires Unique(s) && InPlace(s, m)
    ensures (s.current, m) in View(s) && s.table[FIRST_USER_PAGE + m].inUse
  {
    PlaceHolds(s, m);
    assert User(FIRST_USER_PAGE + m);
  }

  /** A thread that owns no frame more finds growth refused. */
  lemma GrowRefused(s: Memory, p: nat, x: nat)
    requires Ready(s, p) && s.freeMem + s.freeSwap == 0 && FIRST_USER_PAGE < x < LAST_SWAP_PAGE
    ensures Grow(s, x) == (s, false)
  {
    hide View, Image;
    FullIff(s);
  }
}
