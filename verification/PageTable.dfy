/**
 * The page manager of paging.c, and the step by which myallocate.c gives a thread one
 * more page, as functions on values: the page table, the contents of the frames, their
 * protection (true stands for PROT_READ | PROT_WRITE) and the two counters.
 */
module PageTable {
  const PAGE_SIZE: nat := 4096
  const FIRST_USER_PAGE: nat := 1000
  const FIRST_SWAP_PAGE: nat := 2048
  const LAST_SWAP_PAGE: nat := 6144
  const MALLOC_FLAG: int := 1
  const FREE_FLAG: int := 2
  /** The tid of a frame that is not in use. */
  const NO_THREAD: int := -69

  type Page = p: seq<int> | |p| == PAGE_SIZE witness seq(PAGE_SIZE, _ => 0)

  datatype PageMeta = PageMeta(tid: int, pageNum: int, inUse: bool)

  datatype Memory = Memory(
    table: seq<PageMeta>, pages: seq<Page>, open: seq<bool>,
    freeMem: int, freeSwap: int, current: int)

  predicate Sized(s: Memory) {
    |s.table| == LAST_SWAP_PAGE && |s.pages| == LAST_SWAP_PAGE && |s.open| == LAST_SWAP_PAGE
  }

  predicate User(y: int) {
    FIRST_USER_PAGE <= y < LAST_SWAP_PAGE
  }

  function ZeroPage(): Page {
    seq(PAGE_SIZE, _ => 0)
  }

  /** initMem: size 4072, is_free 1 and a NULL next; the eight bytes of prev stay as they are. */
  function InitMem(p: Page): Page {
    [232, 15, 0, 0, 1, 0, 0, 0] + p[8..16] + [0, 0, 0, 0, 0, 0, 0, 0] + p[24..]
  }

  // ---------------------------------------------------------------- the scans

  /** The first frame from lo on that is not in use, or hi. */
  function FirstFree(table: seq<PageMeta>, lo: nat, hi: nat): (y: nat)
    requires lo <= hi <= |table|
    ensures lo <= y <= hi
    ensures forall k :: lo <= k < y ==> table[k].inUse
    ensures y < hi ==> !table[y].inUse
    decreases hi - lo
  {
    if lo == hi || !table[lo].inUse then lo else FirstFree(table, lo + 1, hi)
  }

  predicate Tags(e: PageMeta, tid: int, n: int) {
    e.tid == tid && e.pageNum == n
  }

  /** The first frame from lo on whose entry names page n of thread tid, or hi. */
  function FindFrame(table: seq<PageMeta>, tid: int, n: int, lo: nat, hi: nat): (y: nat)
    requires lo <= hi <= |table|
    ensures lo <= y <= hi
    ensures forall k :: lo <= k < y ==> !Tags(table[k], tid, n)
    ensures y < hi ==> Tags(table[y], tid, n)
    decreases hi - lo
  {
    if lo == hi || Tags(table[lo], tid, n) then lo else FindFrame(table, tid, n, lo + 1, hi)
  }

  // ---------------------------------------------------------------- the operations

  /** One frame fewer is free, in memory or in the swap file. */
  function Counted(s: Memory, y: nat): Memory {
    if y < FIRST_SWAP_PAGE then s.(freeMem := s.freeMem - 1) else s.(freeSwap := s.freeSwap - 1)
  }

  /** requestPage. The result is LAST_SWAP_PAGE when no frame is free. */
  function RequestPage(s: Memory): (r: (Memory, nat))
    requires Sized(s)
    ensures Sized(r.0) && FIRST_USER_PAGE <= r.1 <= LAST_SWAP_PAGE
  {
    var y := FirstFree(s.table, FIRST_USER_PAGE, LAST_SWAP_PAGE);
    if y == LAST_SWAP_PAGE then (s, y)
    else
      (Counted(s.(table := s.table[y := s.table[y].(tid := s.current, inUse := true)], open := s.open[y := true]), y),
       y)
  }

  /** Frame x's page moves to frame y, and x becomes page n of the running thread, all zero. */
  function MoveOut(s: Memory, y: nat, x: nat, n: int): (r: Memory)
    requires Sized(s) && User(x) && User(y)
    ensures Sized(r)
  {
    s.(table := s.table[y := s.table[x]][x := PageMeta(s.current, n, true)],
       pages := s.pages[y := s.pages[x]][x := ZeroPage()],
       open := s.open[y := true][x := true][y := false])
  }

  /** Frames x and y are exchanged, table entry and contents; x is opened and y closed. */
  function Exchange(s: Memory, x: nat, y: nat): (r: Memory)
    requires Sized(s) && User(x) && User(y)
    ensures Sized(r)
  {
    s.(table := s.table[x := s.table[y]][y := s.table[x]],
       pages := s.pages[x := s.pages[y]][y := s.pages[x]],
       open := s.open[x := true][y := false])
  }

  /** getHead for THREADREQ: true when it returns the first user page, false for NULL. */
  function GetHead(s: Memory, flag: int): (r: (Memory, bool))
    requires Sized(s)
    ensures Sized(r.0)
  {
    var h := FindFrame(s.table, s.current, 0, FIRST_USER_PAGE, FIRST_SWAP_PAGE);
    if h == FIRST_USER_PAGE then (s, true)
    else if h < FIRST_SWAP_PAGE then (Exchange(s, FIRST_USER_PAGE, h), true)
    else if flag == 0 then (s, false)
    else NewHead(s)
  }

  /** The part of getHead that gives a thread its first page. */
  function NewHead(s: Memory): (r: (Memory, bool))
    requires Sized(s)
    ensures Sized(r.0)
  {
    var x := FIRST_USER_PAGE;
    var y := FirstFree(s.table, x, LAST_SWAP_PAGE);
    if y == LAST_SWAP_PAGE then (s, false)
    else
      var moved := if y == x then s.(table := s.table[x := PageMeta(s.current, 0, true)]) else MoveOut(s, y, x, 0);
      var m := Counted(moved, y);
      (m.(pages := m.pages[x := InitMem(m.pages[x])], open := m.open[x := true]), true)
  }

  /**
   * One round of the growth loop of myallocate: frame x, right after a frame of the
   * running thread, becomes its next page. False when no frame is free.
   */
  function Grow(s: Memory, x: nat): (r: (Memory, bool))
    requires Sized(s) && FIRST_USER_PAGE < x < LAST_SWAP_PAGE
    ensures Sized(r.0)
  {
    var (m, y) := RequestPage(s);
    if y == LAST_SWAP_PAGE then (s, false)
    else
      var n := m.table[x - 1].pageNum + 1;
      if y != x then (MoveOut(m, y, x, n), true)
      else (m.(table := m.table[x := PageMeta(s.current, n, true)], open := m.open[x := true]), true)
  }

  function Setter(e: PageMeta, open: bool, current: int, prev: int): bool {
    if e.tid == prev then false else if e.tid == current then true else open
  }

  /** mprotect_setter. */
  function MprotectSetter(s: Memory, current: int, prev: int): (r: Memory)
    requires Sized(s)
    ensures Sized(r)
  {
    s.(open := seq(LAST_SWAP_PAGE, i requires 0 <= i < LAST_SWAP_PAGE =>
         if FIRST_USER_PAGE <= i < FIRST_SWAP_PAGE then Setter(s.table[i], s.open[i], current, prev) else s.open[i]))
  }

  /** The end of schedule: another thread, or the same one, goes on. */
  function Switch(s: Memory, to: int): (r: Memory)
    requires Sized(s)
    ensures Sized(r)
  {
    MprotectSetter(s.(current := to), to, s.current)
  }

  datatype Option<T> = None | Some(value: T) {
    function GetOr(default: T): T {
      if Some? then value else default
    }
  }

  /** swapPage as it is written: both metadata indices are curr_page_num, so the table stays. */
  function SwapPage(s: Memory, tid: int, n: int, evict: nat): (r: Option<Memory>)
    requires Sized(s) && User(evict)
    ensures r.Some? ==> Sized(r.value)
  {
    var y := FindFrame(s.table, tid, n, FIRST_USER_PAGE, LAST_SWAP_PAGE);
    if y == LAST_SWAP_PAGE then None else Some(Exchange(s, evict, y).(table := s.table))
  }

  /** swapPage with evict_page_num in the place of the second index. */
  function SwapPageMended(s: Memory, tid: int, n: int, evict: nat): (r: Option<Memory>)
    requires Sized(s) && User(evict)
    ensures r.Some? ==> Sized(r.value)
  {
    var y := FindFrame(s.table, tid, n, FIRST_USER_PAGE, LAST_SWAP_PAGE);
    if y == LAST_SWAP_PAGE then None else Some(Exchange(s, evict, y))
  }

  /** initAll. memalign returns memory that may be read and written. */
  function InitAll(pages: seq<Page>, current: int): Memory {
    Memory(seq(LAST_SWAP_PAGE, _ => PageMeta(NO_THREAD, 0, false)), pages, seq(LAST_SWAP_PAGE, _ => true), 1048, 4096,
           current)
  }

  // ---------------------------------------------------------------- the abstract map

  /** A frame is in use exactly when its tid is a thread's. */
  ghost predicate Tagged(s: Memory) {
    && Sized(s) && s.current != NO_THREAD
    && forall y :: User(y) ==> (s.table[y].inUse <==> s.table[y].tid != NO_THREAD)
  }

  ghost predicate Unique(s: Memory) {
    && Tagged(s)
    && forall y, z :: User(y) && User(z) && y != z && s.table[y].inUse ==>
         !Tags(s.table[z], s.table[y].tid, s.table[y].pageNum)
  }

  function Key(e: PageMeta): (int, int) {
    (e.tid, e.pageNum)
  }

  ghost function Keys(s: Memory): set<(int, int)>
    requires Sized(s)
  {
    set y | FIRST_USER_PAGE <= y < LAST_SWAP_PAGE && s.table[y].inUse :: Key(s.table[y])
  }

  /** What the table stands for: the contents of each page of each thread. */
  ghost function View(s: Memory): (v: map<(int, int), Page>)
    requires Tagged(s)
    ensures v.Keys == Keys(s)
  {
    map k | k in Keys(s) :: s.pages[FrameOf(s, k)]
  }

  ghost function FrameOf(s: Memory, k: (int, int)): (y: nat)
    requires Tagged(s) && k in Keys(s)
    ensures User(y) && s.table[y].inUse && Key(s.table[y]) == k
  {
    FindFrame(s.table, k.0, k.1, FIRST_USER_PAGE, LAST_SWAP_PAGE)
  }

  lemma ViewAt(s: Memory, y: nat)
    requires Unique(s) && User(y) && s.table[y].inUse
    ensures Key(s.table[y]) in View(s) && View(s)[Key(s.table[y])] == s.pages[y]
  {
    var k := Key(s.table[y]);
    assert k in Keys(s);
    var z := FrameOf(s, k);
    assert Tags(s.table[z], s.table[y].tid, s.table[y].pageNum);
  }

  function Other(x: nat, y: nat, z: nat): nat {
    if z == x then y else if z == y then x else z
  }

  /** r is s with frames x and y exchanged, as far as frames in use go. */
  ghost predicate Relocated(s: Memory, r: Memory, x: nat, y: nat) {
    && Sized(s) && Sized(r) && User(x) && User(y) && r.current == s.current
    && forall z :: User(z) ==>
         && r.table[z] == s.table[Other(x, y, z)]
         && (r.table[z].inUse ==> r.pages[z] == s.pages[Other(x, y, z)])
  }

  /** Where the pages are does not matter. */
  lemma RelocationKeepsView(s: Memory, r: Memory, x: nat, y: nat)
    requires Unique(s) && Relocated(s, r, x, y)
    ensures Unique(r) && View(r) == View(s)
  {
    assert Unique(r) by {
      forall p, q | User(p) && User(q) && p != q && r.table[p].inUse
        ensures !Tags(r.table[q], r.table[p].tid, r.table[p].pageNum)
      {
        assert User(Other(x, y, p)) && User(Other(x, y, q)) && Other(x, y, p) != Other(x, y, q);
      }
    }
    forall k | k in Keys(s) ensures k in Keys(r) && View(r)[k] == View(s)[k] {
      var z := FrameOf(s, k);
      var w := Other(x, y, z);
      assert User(w) && r.table[w] == s.table[z];
      ViewAt(s, z);
      ViewAt(r, w);
    }
    forall k | k in Keys(r) ensures k in Keys(s) {
      var w := FrameOf(r, k);
      assert User(Other(x, y, w)) && r.table[w] == s.table[Other(x, y, w)];
    }
  }
}
