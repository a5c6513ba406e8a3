/**
 * paging.c in place: the page table, the frames and their protection are arrays changed
 * by scanning loops. Each method is proved against its function in PageTable; the third
 * array stands for what mprotect was last told about each frame.
 */
module PageManager {
  import opened PageTable
  import AddressSpace
  import ThreadSpace

  class PageManager {
    const table: array<PageMeta>
    const frames: array<Page>
    const open: array<bool>
    var numFreePagesMem: int
    var numFreePagesSF: int
    var currentTid: int

    ghost predicate Valid()
      reads this
    {
      table.Length == LAST_SWAP_PAGE && frames.Length == LAST_SWAP_PAGE && open.Length == LAST_SWAP_PAGE
    }

    ghost function State(): (s: Memory)
      reads this, table, frames, open
      requires Valid()
      ensures Sized(s)
    {
      Memory(table[..], frames[..], open[..], numFreePagesMem, numFreePagesSF, currentTid)
    }

    /** initAll, on whatever memalign returned. */
    constructor (memory: array<Page>, tid: int)
      requires memory.Length == LAST_SWAP_PAGE
      ensures Valid() && fresh(table) && fresh(open) && frames == memory
      ensures State().table[FIRST_USER_PAGE..] == InitAll(memory[..], tid).table[FIRST_USER_PAGE..]
      ensures State().(table := []) == InitAll(memory[..], tid).(table := [])
    {
      table := new PageMeta[LAST_SWAP_PAGE](_ => PageMeta(0, 0, false));
      frames := memory;
      open := new bool[LAST_SWAP_PAGE](_ => true);
      numFreePagesMem, numFreePagesSF, currentTid := 1048, 4096, tid;
      new;
      var x := 1;
      while x < LAST_SWAP_PAGE
        invariant 1 <= x <= LAST_SWAP_PAGE
        invariant forall k :: 1 <= k < x ==> table[k] == PageMeta(NO_THREAD, 0, false)
        modifies table
      {
        table[x] := PageMeta(NO_THREAD, 0, false);
        x := x + 1;
      }
      ghost var s := InitAll(memory[..], tid);
      assert State().open == s.open && State().pages == s.pages;
    }

    /** Frame y is in use by the running thread from now on. */
    method Take(y: nat)
      requires Valid() && y < LAST_SWAP_PAGE
      modifies table, open
      ensures table[..] == old(table[..])[y := old(table[y]).(tid := currentTid, inUse := true)]
      ensures open[..] == old(open[..])[y := true]
    {
      table[y] := table[y].(inUse := true);
      table[y] := table[y].(tid := currentTid);
      open[y] := true;
    }

    /** The first frame that is free is taken off its counter. */
    method TakeFree(y: nat)
      requires Valid() && FIRST_USER_PAGE <= y < LAST_SWAP_PAGE
      requires y == PageTable.FirstFree(table[..], FIRST_USER_PAGE, LAST_SWAP_PAGE)
      modifies this`numFreePagesMem, this`numFreePagesSF, table, open
      ensures Valid() && (State(), y) == PageTable.RequestPage(old(State()))
    {
      hide PageTable.FirstFree;
      Take(y);
      if y < FIRST_SWAP_PAGE {
        numFreePagesMem := numFreePagesMem - 1;
      } else {
        numFreePagesSF := numFreePagesSF - 1;
      }
    }

    method RequestPage() returns (newPage: nat)
      requires Valid()
      modifies this`numFreePagesMem, this`numFreePagesSF, table, open
      ensures Valid() && (State(), newPage) == PageTable.RequestPage(old(State()))
    {
      var y := FIRST_USER_PAGE;
      while y < FIRST_SWAP_PAGE
        invariant FIRST_USER_PAGE <= y <= FIRST_SWAP_PAGE
        invariant forall k :: FIRST_USER_PAGE <= k < y ==> table[k].inUse
      {
        if !table[y].inUse {
          FirstFreeIs(table[..], FIRST_USER_PAGE, LAST_SWAP_PAGE, y);
          TakeFree(y);
          return y;
        }
        y := y + 1;
      }
      while y < LAST_SWAP_PAGE
        invariant FIRST_SWAP_PAGE <= y <= LAST_SWAP_PAGE
        invariant forall k :: FIRST_USER_PAGE <= k < y ==> table[k].inUse
      {
        if !table[y].inUse {
          FirstFreeIs(table[..], FIRST_USER_PAGE, LAST_SWAP_PAGE, y);
          TakeFree(y);
          return y;
        }
        y := y + 1;
      }
      FirstFreeIs(table[..], FIRST_USER_PAGE, LAST_SWAP_PAGE, y);
      return LAST_SWAP_PAGE;
    }

    method SwapEmptyPage(newPage: nat, oldPage: nat)
      requires Valid() && newPage < LAST_SWAP_PAGE && oldPage < LAST_SWAP_PAGE
      modifies frames
      ensures frames[..] == old(frames[..])[newPage := old(frames[oldPage])][oldPage := ZeroPage()]
    {
      frames[newPage] := frames[oldPage];
      frames[oldPage] := ZeroPage();
    }

    /** Frame x moves to frame y, and the running thread gets it as its page n. */
    method MoveOut(y: nat, x: nat, n: int)
      requires Valid() && User(x) && User(y)
      modifies table, frames, open
      ensures Valid() && State() == PageTable.MoveOut(old(State()), y, x, n)
    {
      table[y] := table[x];
      table[x] := table[x].(tid := currentTid, inUse := true, pageNum := n);
      open[y] := true;
      open[x] := true;
      SwapEmptyPage(y, x);
      open[y] := false;
    }

    /** The exchange of two frames through the buffer page, table entries included. */
    method Exchange(x: nat, y: nat)
      requires Valid() && User(x) && User(y)
      modifies table, frames, open
      ensures Valid() && State() == PageTable.Exchange(old(State()), x, y)
    {
      var temp := table[x];
      table[x] := table[y];
      table[y] := temp;
      open[x] := true;
      var buffer := frames[x];
      frames[x] := frames[y];
      frames[y] := buffer;
      open[y] := false;
    }

    /** getHead for THREADREQ. */
    method GetHead(flag: int) returns (found: bool)
      requires Valid()
      modifies this`numFreePagesMem, this`numFreePagesSF, table, frames, open
      ensures Valid() && (State(), found) == PageTable.GetHead(old(State()), flag)
    {
      var y := FIRST_USER_PAGE;
      while y < FIRST_SWAP_PAGE
        invariant FIRST_USER_PAGE <= y <= FIRST_SWAP_PAGE
        invariant forall k :: FIRST_USER_PAGE <= k < y ==> !Tags(table[k], currentTid, 0)
      {
        if table[y].tid == currentTid && table[y].pageNum == 0 {
          FindFrameIs(table[..], currentTid, 0, FIRST_USER_PAGE, FIRST_SWAP_PAGE, y);
          if y == FIRST_USER_PAGE {
            return true;
          }
          Exchange(FIRST_USER_PAGE, y);
          return true;
        }
        y := y + 1;
      }
      FindFrameIs(table[..], currentTid, 0, FIRST_USER_PAGE, FIRST_SWAP_PAGE, y);
      if flag == 0 {
        return false;
      }
      found := NewHead();
    }

    /** The part of getHead that gives the running thread a first page. */
    method NewHead() returns (found: bool)
      requires Valid()
      modifies this`numFreePagesMem, this`numFreePagesSF, table, frames, open
      ensures Valid() && (State(), found) == PageTable.NewHead(old(State()))
    {
      var y := FIRST_USER_PAGE;
      while y < FIRST_SWAP_PAGE
        invariant FIRST_USER_PAGE <= y <= FIRST_SWAP_PAGE
        invariant forall k :: FIRST_USER_PAGE <= k < y ==> table[k].inUse
      {
        if !table[y].inUse {
          FirstFreeIs(table[..], FIRST_USER_PAGE, LAST_SWAP_PAGE, y);
          GiveHead(y);
          return true;
        }
        y := y + 1;
      }
      while y < LAST_SWAP_PAGE
        invariant FIRST_SWAP_PAGE <= y <= LAST_SWAP_PAGE
        invariant forall k :: FIRST_USER_PAGE <= k < y ==> table[k].inUse
      {
        if !table[y].inUse {
          FirstFreeIs(table[..], FIRST_USER_PAGE, LAST_SWAP_PAGE, y);
          GiveHead(y);
          return true;
        }
        y := y + 1;
      }
      FirstFreeIs(table[..], FIRST_USER_PAGE, LAST_SWAP_PAGE, y);
      return false;
    }

    /** With frame y free: the page at the first user frame, if any, moves there, and a new one takes its place. */
    method GiveHead(y: nat)
      requires Valid() && FIRST_USER_PAGE <= y < LAST_SWAP_PAGE
      requires y == PageTable.FirstFree(table[..], FIRST_USER_PAGE, LAST_SWAP_PAGE)
      modifies this`numFreePagesMem, this`numFreePagesSF, table, frames, open
      ensures Valid() && (State(), true) == PageTable.NewHead(old(State()))
    {
      hide PageTable.FirstFree, InitMem;
      if y == FIRST_USER_PAGE {
        table[y] := table[y].(tid := currentTid, inUse := true, pageNum := 0);
      } else {
        MoveOut(y, FIRST_USER_PAGE, 0);
      }
      if y < FIRST_SWAP_PAGE {
        numFreePagesMem := numFreePagesMem - 1;
      } else {
        numFreePagesSF := numFreePagesSF - 1;
      }
      InitHead();
    }

    /** initMem on the first user page. */
    method InitHead()
      requires Valid()
      modifies frames, open
      ensures Valid()
      ensures frames[..] == old(frames[..])[FIRST_USER_PAGE := PageTable.InitMem(old(frames[FIRST_USER_PAGE]))]
      ensures open[..] == old(open[..])[FIRST_USER_PAGE := true]
    {
      open[FIRST_USER_PAGE] := true;
      frames[FIRST_USER_PAGE] := PageTable.InitMem(frames[FIRST_USER_PAGE]);
    }

    /** One round of the growth loop of myallocate, up to the line where the next page is the thread's. */
    method Grow(nextPage: nat) returns (grown: bool)
      requires Valid() && FIRST_USER_PAGE < nextPage < LAST_SWAP_PAGE
      modifies this`numFreePagesMem, this`numFreePagesSF, table, frames, open
      ensures Valid() && (State(), grown) == PageTable.Grow(old(State()), nextPage)
    {
      var freePage := RequestPage();
      if freePage == LAST_SWAP_PAGE {
        return false;
      }
      var pageCounter := table[nextPage - 1].pageNum;
      if freePage != nextPage {
        MoveOut(freePage, nextPage, pageCounter + 1);
      } else {
        table[nextPage] := table[nextPage].(tid := currentTid, inUse := true, pageNum := pageCounter + 1);
        open[nextPage] := true;
      }
      return true;
    }

    method MprotectSetter(current: int, prev: int)
      requires Valid()
      modifies open
      ensures Valid() && State() == PageTable.MprotectSetter(old(State()), current, prev)
    {
      var i := FIRST_USER_PAGE;
      while i < FIRST_SWAP_PAGE
        invariant FIRST_USER_PAGE <= i <= FIRST_SWAP_PAGE
        invariant forall k :: 0 <= k < LAST_SWAP_PAGE ==>
          open[k] == if FIRST_USER_PAGE <= k < i then Setter(table[k], old(open[k]), current, prev) else old(open[k])
      {
        if table[i].tid == current {
          open[i] := true;
        }
        if table[i].tid == prev {
          open[i] := false;
        }
        i := i + 1;
      }
    }

    /** The body of swapPage once frame y is found to hold the page. Both metadata indices are y. */
    method Trade(y: nat, evict: nat)
      requires Valid() && User(y) && User(evict)
      modifies table, frames, open
      ensures Valid() && State() == PageTable.Exchange(old(State()), evict, y).(table := old(table[..]))
    {
      open[y] := true;
      open[evict] := true;
      var currPageNum := y;
      var temp := table[currPageNum];
      table[currPageNum] := table[y];
      table[y] := temp;
      var buffer := frames[y];
      frames[y] := frames[evict];
      frames[evict] := buffer;
      open[y] := false;
    }

    /** swapPage. The program ends when no frame holds the page: found is false then. */
    method SwapPage(tid: int, n: int, evict: nat) returns (found: bool)
      requires Valid() && User(evict)
      modifies table, frames, open
      ensures Valid() && found == PageTable.SwapPage(old(State()), tid, n, evict).Some?
      ensures State() == PageTable.SwapPage(old(State()), tid, n, evict).GetOr(old(State()))
    {
      var y := FIRST_USER_PAGE;
      while y < LAST_SWAP_PAGE
        invariant FIRST_USER_PAGE <= y <= LAST_SWAP_PAGE
        invariant forall k :: FIRST_USER_PAGE <= k < y ==> !Tags(table[k], tid, n)
      {
        if table[y].tid == tid && table[y].pageNum == n {
          FindFrameIs(table[..], tid, n, FIRST_USER_PAGE, LAST_SWAP_PAGE, y);
          Trade(y, evict);
          return true;
        }
        y := y + 1;
      }
      FindFrameIs(table[..], tid, n, FIRST_USER_PAGE, LAST_SWAP_PAGE, y);
      return false;
    }

    /** The fault on page n of the running thread, with the exchange that swapPage means to make. */
    method Fault(n: nat)
      requires Valid() && FIRST_USER_PAGE + n < FIRST_SWAP_PAGE
      modifies table, frames, open
      ensures Valid()
      ensures State() == SwapPageMended(old(State()), currentTid, n, FIRST_USER_PAGE + n).GetOr(old(State()))
    {
      var y := FIRST_USER_PAGE;
      while y < LAST_SWAP_PAGE
        invariant FIRST_USER_PAGE <= y <= LAST_SWAP_PAGE
        invariant forall k :: FIRST_USER_PAGE <= k < y ==> !Tags(table[k], currentTid, n)
      {
        if table[y].tid == currentTid && table[y].pageNum == n {
          FindFrameIs(table[..], currentTid, n, FIRST_USER_PAGE, LAST_SWAP_PAGE, y);
          Exchange(FIRST_USER_PAGE + n, y);
          return;
        }
        y := y + 1;
      }
      FindFrameIs(table[..], currentTid, n, FIRST_USER_PAGE, LAST_SWAP_PAGE, y);
    }

    /** An access to page n. */
    method Touch(n: nat)
      requires Valid() && FIRST_USER_PAGE + n < FIRST_SWAP_PAGE
      modifies table, frames, open
      ensures Valid() && State() == AddressSpace.Touch(old(State()), n)
    {
      if !open[FIRST_USER_PAGE + n] {
        Fault(n);
      }
    }

    /** A load through the address of byte a. */
    method Load(a: nat) returns (v: int)
      requires Valid() && FIRST_USER_PAGE + a / PAGE_SIZE < FIRST_SWAP_PAGE
      modifies table, frames, open
      ensures Valid() && State() == AddressSpace.Touch(old(State()), a / PAGE_SIZE)
      ensures v == State().pages[FIRST_USER_PAGE + a / PAGE_SIZE][a % PAGE_SIZE]
    {
      Touch(a / PAGE_SIZE);
      v := frames[FIRST_USER_PAGE + a / PAGE_SIZE][a % PAGE_SIZE];
    }

    method Store(a: nat, v: int)
      requires Valid() && FIRST_USER_PAGE + a / PAGE_SIZE < FIRST_SWAP_PAGE
      modifies table, frames, open
      ensures Valid() && State() == ThreadSpace.Poke(old(State()), a, v)
    {
      var y := FIRST_USER_PAGE + a / PAGE_SIZE;
      Touch(a / PAGE_SIZE);
      frames[y] := frames[y][a % PAGE_SIZE := v];
    }
  }

  /** Where a scan for a free frame stops. */
  lemma {:induction false} FirstFreeIs(table: seq<PageMeta>, lo: nat, hi: nat, y: nat)
    requires lo <= y <= hi <= |table|
    requires (forall k :: lo <= k < y ==> table[k].inUse) && (y < hi ==> !table[y].inUse)
    ensures FirstFree(table, lo, hi) == y
  {
  }

  lemma {:induction false} FindFrameIs(table: seq<PageMeta>, tid: int, n: int, lo: nat, hi: nat, y: nat)
    requires lo <= y <= hi <= |table|
    requires (forall k :: lo <= k < y ==> !Tags(table[k], tid, n)) && (y < hi ==> Tags(table[y], tid, n))
    ensures FindFrame(table, tid, n, lo, hi) == y
  {
  }
}
