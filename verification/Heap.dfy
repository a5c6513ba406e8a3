/**
 * myallocate.c in place. A heap is the running thread's bytes in the frames of the page
 * manager; the methods find their way by loading the fields of headers, and a load or store
 * whose frame is closed faults first. `model` is the list that the headers make up, and
 * `pages` the number of pages that it tiles.
 */
module Heap {
  import opened PageTable
  import opened PagingMoves
  import opened AddressSpace
  import opened BlockList
  import opened Headers
  import opened Allocator
  import opened ThreadSpace
  import opened HeapCalls
  import opened PageManager

  /** The page manager is in state s, whose running thread owns p pages that hold mem. */
  ghost predicate Holds(pager: PageManager, p: nat, mem: seq<int>)
    reads pager, pager.table, pager.frames, pager.open
  {
    pager.Valid() && Ready(pager.State(), p) && Image(pager.State(), pager.State().current, p) == mem
  }

  // ---------------------------------------------------------------- loads and stores

  lemma PageBelow(s: Memory, p: nat, a: int)
    requires Ready(s, p) && 0 <= a < p * PAGE_SIZE
    ensures FIRST_USER_PAGE + a / PAGE_SIZE < FIRST_SWAP_PAGE
  {
    hide Addressable, View, Image;
    OwnsByte(s, p, a);
    TouchReaches(s, a / PAGE_SIZE);
  }

  lemma LoadsFurther(s: Memory, p: nat, a: int, i: nat, mem: seq<int>, bytes: seq<int>)
    requires Ready(s, p) && 0 <= a && a + i < p * PAGE_SIZE && mem == Image(s, s.current, p)
    requires bytes == At(mem, a, i)
    ensures
      var m := TouchBytes(s, a, i);
      && Sized(m) && FIRST_USER_PAGE + (a + i) / PAGE_SIZE < FIRST_SWAP_PAGE
      && var r := Touch(m, (a + i) / PAGE_SIZE);
         && r == TouchBytes(s, a, i + 1)
         && bytes + [r.pages[FIRST_USER_PAGE + (a + i) / PAGE_SIZE][(a + i) % PAGE_SIZE]] == At(mem, a, i + 1)
  {
    hide Ready, Did, Image, Touch, TouchBytes, At;
    ReadySized(s, p);
    TouchBytesDid(s, p, a, i);
    var m := TouchBytes(s, a, i);
    DidParts(s, p, m, p, mem);
    PageBelow(m, p, a + i);
    LoadReads(m, p, a + i);
    AtFurther(mem, a, i);
    TouchFurther(s, a, i);
  }

  lemma AtFurther(mem: seq<int>, a: int, i: nat)
    requires 0 <= a && a + i < |mem|
    ensures At(mem, a, i + 1) == At(mem, a, i) + [mem[a + i]]
  {
  }

  lemma TouchFurther(s: Memory, a: int, i: nat)
    requires Sized(s)
    ensures TouchBytes(s, a, i + 1) == Touch(TouchBytes(s, a, i), (a + i) / PAGE_SIZE)
  {
  }

  /** The n bytes at address a. */
  method Load(pager: PageManager, a: nat, n: nat, ghost p: nat, ghost mem: seq<int>) returns (bytes: seq<int>)
    requires Holds(pager, p, mem) && a + n <= |mem|
    modifies pager.table, pager.frames, pager.open
    ensures pager.Valid() && Did(old(pager.State()), p, pager.State(), p, mem)
    ensures bytes == At(mem, a, n) && (n > 0 ==> InPlace(pager.State(), (a + n - 1) / PAGE_SIZE))
  {
    hide Ready, Did, Image, InPlace, TouchBytes;
    ghost var s := pager.State();
    bytes := [];
    var i := 0;
    LoadsStart(s, a);
    while i < n
      invariant 0 <= i <= n && pager.Valid() && pager.State() == TouchBytes(s, a, i) && bytes == At(mem, a, i)
    {
      LoadsFurther(s, p, a, i, mem, bytes);
      var v := pager.Load(a + i);
      bytes := bytes + [v];
      i := i + 1;
    }
    TouchBytesDid(s, p, a, n);
  }

  lemma LoadsStart(s: Memory, a: nat)
    requires Sized(s)
    ensures TouchBytes(s, a, 0) == s && PokeBytes(s, a, []) == s
  {
  }

  lemma StoresFurther(s: Memory, p: nat, a: int, bytes: seq<int>, i: nat)
    requires Ready(s, p) && 0 <= a && a + |bytes| <= p * PAGE_SIZE && i < |bytes|
    ensures
      var m := PokeBytes(s, a, bytes[..i]);
      && Sized(m) && FIRST_USER_PAGE + (a + i) / PAGE_SIZE < FIRST_SWAP_PAGE
      && Poke(m, a + i, bytes[i]) == PokeBytes(s, a, bytes[..i + 1])
  {
    hide Ready, Did, Image, Poke;
    ReadySized(s, p);
    PokeBytesDid(s, p, a, bytes[..i]);
    var m := PokeBytes(s, a, bytes[..i]);
    DidParts(s, p, m, p, Put(Image(s, s.current, p), a, bytes[..i]));
    PageBelow(m, p, a + i);
    assert bytes[..i + 1][..i] == bytes[..i];
  }

  method Store(pager: PageManager, a: nat, bytes: seq<int>, ghost p: nat, ghost mem: seq<int>)
    requires Holds(pager, p, mem) && a + |bytes| <= |mem|
    modifies pager.table, pager.frames, pager.open
    ensures pager.Valid() && Did(old(pager.State()), p, pager.State(), p, Put(mem, a, bytes))
  {
    hide Ready, Did, Image, PokeBytes, Poke;
    ghost var s := pager.State();
    var i := 0;
    LoadsStart(s, a);
    assert bytes[..0] == [];
    while i < |bytes|
      invariant 0 <= i <= |bytes| && pager.Valid() && pager.State() == PokeBytes(s, a, bytes[..i])
    {
      StoresFurther(s, p, a, bytes, i);
      pager.Store(a + i, bytes[i]);
      i := i + 1;
    }
    assert bytes[..i] == bytes;
    PokeBytesDid(s, p, a, bytes);
  }

  /** The number in the n bytes at address a. */
  method LoadInt(pager: PageManager, a: nat, n: nat, ghost p: nat, ghost mem: seq<int>) returns (v: int)
    requires Holds(pager, p, mem) && a + n <= |mem|
    modifies pager.table, pager.frames, pager.open
    ensures pager.Valid() && Did(old(pager.State()), p, pager.State(), p, mem) && Holds(pager, p, mem)
    ensures v == Value(At(mem, a, n)) && (n > 0 ==> InPlace(pager.State(), (a + n - 1) / PAGE_SIZE))
  {
    hide Ready, Did, Image, InPlace;
    var bytes := Load(pager, a, n, p, mem);
    v := Value(bytes);
    DidParts(old(pager.State()), p, pager.State(), p, mem);
  }

  /** A store that ends a run of stores and loads: s and was are where the run began. */
  method StoreInt(pager: PageManager, a: nat, n: nat, v: int, ghost s: Memory, ghost p: nat, ghost mem: seq<int>)
    requires pager.Valid() && Did(s, p, pager.State(), p, mem) && a + n <= |mem|
    modifies pager.table, pager.frames, pager.open
    ensures pager.Valid() && Did(s, p, pager.State(), p, Put(mem, a, Digits(v, n)))
  {
    hide Ready, Did, Image;
    ghost var m := pager.State();
    DidParts(s, p, m, p, mem);
    Store(pager, a, Digits(v, n), p, mem);
    DidFurther(s, p, m, p, mem, pager.State(), p, Put(mem, a, Digits(v, n)));
  }

  /** A load in such a run. */
  method ReadInt(pager: PageManager, a: nat, n: nat, ghost s: Memory, ghost p: nat, ghost mem: seq<int>)
    returns (v: int)
    requires pager.Valid() && Did(s, p, pager.State(), p, mem) && a + n <= |mem|
    modifies pager.table, pager.frames, pager.open
    ensures pager.Valid() && Did(s, p, pager.State(), p, mem) && v == Value(At(mem, a, n))
    ensures n > 0 ==> InPlace(pager.State(), (a + n - 1) / PAGE_SIZE)
    ensures PlacesKept(old(pager.State()), pager.State())
  {
    hide Ready, Did, Image, InPlace, PlacesKept;
    ghost var m := pager.State();
    DidParts(s, p, m, p, mem);
    v := LoadInt(pager, a, n, p, mem);
    DidFurther(s, p, m, p, mem, pager.State(), p, mem);
    DidParts(m, p, pager.State(), p, mem);
  }

  // ---------------------------------------------------------------- the stores of the allocator

  lemma FieldsRead(mem: seq<int>, e: Block, next: int)
    requires HeaderAt(mem, e, next)
    ensures 0 <= e.addr && e.addr + META <= |mem|
    ensures Value(At(mem, e.addr + SIZE, 4)) == e.size && Value(At(mem, e.addr + NEXT, 8)) == next
    ensures Value(At(mem, e.addr + IS_FREE, 4)) == if e.free then 1 else 0
    ensures FieldsAt(mem, e.addr).next == next
  {
    hide At, Value;
  }

  /** organizeMem's stores to the header of the rest. */
  method WriteRest(pager: PageManager, curr: nat, size: nat, ghost e: Block, ghost next: int,
                   ghost s: Memory, ghost p: nat, ghost mem: seq<int>)
    requires pager.Valid() && Did(s, p, pager.State(), p, mem) && HeaderAt(mem, e, next) && curr == e.addr
    requires 0 < size && e.size > size + META && End(e) <= |mem| < WORD && 0 <= next < WORD
    modifies pager.table, pager.frames, pager.open
    ensures pager.Valid() && Did(s, p, pager.State(), p, RestBytes(mem, e, size))
  {
    hide Ready, Did, Image, InPlace, PlacesKept, HeaderAt, At, Value, Put, Digits;
    FieldsRead(mem, e, next);
    var rest := curr + META + size;
    var currSize := ReadInt(pager, curr + SIZE, 4, s, p, mem);
    StoreInt(pager, rest + SIZE, 4, currSize - META - size, s, p, mem);
    ghost var m1 := SetSize(mem, rest, e.size - META - size);
    StoreInt(pager, rest + IS_FREE, 4, 1, s, p, m1);
    ghost var m2 := SetFree(m1, rest, 1);
    NextUnmoved(mem, e, size, next);
    var currNext := ReadInt(pager, curr + NEXT, 8, s, p, m2);
    StoreInt(pager, rest + NEXT, 8, currNext, s, p, m2);
  }

  lemma NextUnmoved(mem: seq<int>, e: Block, size: int, next: int)
    requires HeaderAt(mem, e, next) && 0 < size && e.size > size + META && End(e) <= |mem| < WORD
    ensures
      var rest := e.addr + META + size;
      Value(At(SetFree(SetSize(mem, rest, e.size - META - size), rest, 1), e.addr + NEXT, 8)) == next
  {
    hide At, Value, HeaderAt, SetSize, SetFree;
    FieldsRead(mem, e, next);
    var rest := e.addr + META + size;
    var m := SetSize(mem, rest, e.size - META - size);
    SizeKeepsOther(mem, rest, e.size - META - size, e, next);
    FreeKeepsOther(m, rest, 1, e, next);
    FieldsRead(SetFree(m, rest, 1), e, next);
  }

  lemma SizeKeepsOther(mem: seq<int>, a: int, v: int, e: Block, next: int)
    requires HeaderAt(mem, e, next) && 0 <= a && a + META <= |mem| && e.addr + META <= a
    ensures HeaderAt(SetSize(mem, a, v), e, next)
  {
    hide Within, HeaderAt, SetSize, SetFree, SetNext, SetPrev;
    HeaderWithin(mem, a, v);
    HeaderElsewhere(mem, SetSize(mem, a, v), a, a + META, e, next);
  }

  lemma FreeKeepsOther(mem: seq<int>, a: int, v: int, e: Block, next: int)
    requires HeaderAt(mem, e, next) && 0 <= a && a + META <= |mem| && e.addr + META <= a
    ensures HeaderAt(SetFree(mem, a, v), e, next)
  {
    hide Within, HeaderAt, SetSize, SetFree, SetNext, SetPrev;
    HeaderWithin(mem, a, v);
    HeaderElsewhere(mem, SetFree(mem, a, v), a, a + META, e, next);
  }

  /** organizeMem. */
  method OrganizeMem(pager: PageManager, curr: nat, size: nat, ghost e: Block, ghost next: int,
                     ghost s: Memory, ghost p: nat, ghost mem: seq<int>)
    requires pager.Valid() && Did(s, p, pager.State(), p, mem) && HeaderAt(mem, e, next) && curr == e.addr
    requires 0 < size && e.size > size + META && End(e) <= |mem| < WORD && 0 <= next < WORD
    modifies pager.table, pager.frames, pager.open
    ensures pager.Valid() && Did(s, p, pager.State(), p, SplitBytes(mem, e, size))
  {
    hide Ready, Did, Image, InPlace, PlacesKept, HeaderAt, At, Value, Put, Digits, RestBytes;
    FieldsRead(mem, e, next);
    WriteRest(pager, curr, size, e, next, s, p, mem);
    ghost var m := RestBytes(mem, e, size);
    StoreInt(pager, curr + IS_FREE, 4, 0, s, p, m);
    ghost var m1 := SetFree(m, curr, 0);
    StoreInt(pager, curr + SIZE, 4, size, s, p, m1);
    StoreInt(pager, curr + NEXT, 8, curr + META + size, s, p, SetSize(m1, curr, size));
  }

  /** The size test of growth, and what follows it. */
  method Take(pager: PageManager, curr: nat, size: nat, ghost e: Block, ghost next: int,
              ghost s: Memory, ghost p: nat, ghost mem: seq<int>)
    requires pager.Valid() && Did(s, p, pager.State(), p, mem) && HeaderAt(mem, e, next) && curr == e.addr
    requires 0 < size && 0 < e.size && End(e) <= |mem| < WORD && 0 <= next < WORD
    modifies pager.table, pager.frames, pager.open
    ensures pager.Valid() && Did(s, p, pager.State(), p, TakeBytes(mem, e, size))
  {
    hide Ready, Did, Image, InPlace, PlacesKept, HeaderAt, At, Value, Put, Digits, SplitBytes;
    FieldsRead(mem, e, next);
    var currSize := ReadInt(pager, curr + SIZE, 4, s, p, mem);
    if currSize > size + META {
      OrganizeMem(pager, curr, size, e, next, s, p, mem);
    } else {
      StoreInt(pager, curr + IS_FREE, 4, 0, s, p, mem);
    }
  }

  // ---------------------------------------------------------------- the traversal

  lemma NextIsNull(b: seq<Block>, pages: nat, k: nat)
    requires Tiled(b, pages) && k < |b|
    ensures NextOf(b, k) == 0 <==> k == |b| - 1
    ensures NextOf(b, k) >= 0
  {
    if k + 1 < |b| {
      TiledIsOrdered(b, pages, k, k + 1);
      TiledIsInside(b, pages, k);
    }
  }

  lemma {:induction false} FirstFitIs(b: seq<Block>, size: int, k: nat)
    requires k < |b| && (forall i :: 0 <= i < k ==> !Fits(b[i], size)) && (k < |b| - 1 ==> Fits(b[k], size))
    ensures FirstFit(b, size) == k
  {
  }

  lemma HeaderOf(mem: seq<int>, b: seq<Block>, pages: nat, k: nat)
    requires Stores(mem, b) && Tiled(b, pages) && k < |b|
    ensures HeaderAt(mem, b[k], NextOf(b, k)) && 0 <= b[k].addr && b[k].addr + META <= |mem|
    ensures Value(At(mem, b[k].addr + SIZE, 4)) == b[k].size && Value(At(mem, b[k].addr + NEXT, 8)) == NextOf(b, k)
    ensures Value(At(mem, b[k].addr + IS_FREE, 4)) == if b[k].free then 1 else 0
    ensures NextOf(b, k) == 0 <==> k == |b| - 1
    ensures NextOf(b, k) >= 0
  {
    hide HeaderAt, At, Value, Stores;
    StoredHeader(mem, b, k);
    FieldsRead(mem, b[k], NextOf(b, k));
    NextIsNull(b, pages, k);
  }

  /** The traversal of myallocate: the first block that fits, or the last one. */
  method FindBlock(pager: PageManager, size: int, ghost b: seq<Block>,
                   ghost s: Memory, ghost p: nat, ghost mem: seq<int>) returns (curr: nat, ghost k: nat)
    requires pager.Valid() && Did(s, p, pager.State(), p, mem) && b != [] && Tiled(b, p) && Stores(mem, b)
    modifies pager.table, pager.frames, pager.open
    ensures pager.Valid() && Did(s, p, pager.State(), p, mem)
    ensures k < |b| && k == FirstFit(b, size) && curr == b[k].addr
    ensures PlacesKept(old(pager.State()), pager.State())
  {
    hide Ready, Did, Image, InPlace, PlacesKept, HeaderAt, At, Value, Stores, Tiled;
    curr, k := 0, 0;
    StartsAtHead(b, p);
    HeaderOf(mem, b, p, k);
    var next := ReadInt(pager, curr + NEXT, 8, s, p, mem);
    while next != 0
      invariant k < |b| && curr == b[k].addr && next == NextOf(b, k) && (next == 0 <==> k == |b| - 1)
      invariant pager.Valid() && Did(s, p, pager.State(), p, mem) && next >= 0
      invariant PlacesKept(old(pager.State()), pager.State())
      invariant forall i :: 0 <= i < k ==> !Fits(b[i], size)
      decreases |b| - k
    {
      ghost var before := pager.State();
      HeaderOf(mem, b, p, k);
      var isFree := ReadInt(pager, curr + IS_FREE, 4, s, p, mem);
      PlacesFurther(old(pager.State()), before, pager.State());
      if isFree == 1 {
        before := pager.State();
        var currSize := ReadInt(pager, curr + SIZE, 4, s, p, mem);
        PlacesFurther(old(pager.State()), before, pager.State());
        if currSize >= size {
          break;
        }
      }
      curr := next;
      k := k + 1;
      before := pager.State();
      HeaderOf(mem, b, p, k);
      next := ReadInt(pager, curr + NEXT, 8, s, p, mem);
      PlacesFurther(old(pager.State()), before, pager.State());
    }
    FirstFitIs(b, size, k);
  }

  lemma StartsAtHead(b: seq<Block>, pages: nat)
    requires Tiled(b, pages)
    ensures b != [] && b[0].addr == 0
  {
  }

  lemma PlacesFurther(s: Memory, m: Memory, r: Memory)
    requires Sized(s) && Sized(m) && Sized(r) && PlacesKept(s, m) && PlacesKept(m, r)
    ensures PlacesKept(s, r)
  {
    hide InPlace;
  }

  // ---------------------------------------------------------------- growth

  /** The bookkeeping of one round: a new header at the start of the new page, or a larger block. */
  method AddRoom(pager: PageManager, curr: nat, n: nat, ghost b: seq<Block>, ghost k: nat,
                 ghost p: nat, ghost q: nat, ghost mem: seq<int>) returns (target: nat)
    requires Holds(pager, q, mem) && RoomFits(mem, b, k, n) && Stores(mem, b) && Tiled(b, p)
    requires curr == b[k].addr && n >= 1 && NearEnd(b, k, n)
    modifies pager.table, pager.frames, pager.open
    ensures pager.Valid() && Did(old(pager.State()), q, pager.State(), q, RoomBytes(mem, b, k, n))
    ensures target == AddPage(b, k, n)[Target(b, k)].addr
  {
    hide Ready, Did, Image, InPlace, PlacesKept, HeaderAt, At, Value, Stores, Put, Digits;
    ghost var s := pager.State();
    DidNothing(s, q);
    HeaderOf(mem, b, p, k);
    var isFree := ReadInt(pager, curr + IS_FREE, 4, s, q, mem);
    if isFree == 0 {
      if n == 1 {
        target := LinkPage(pager, curr, b[k], s, q, mem);
      } else {
        HeaderOf(mem, b, p, k + 1);
        target := ReadInt(pager, curr + NEXT, 8, s, q, mem);
        var size := ReadInt(pager, target + SIZE, 4, s, q, mem);
        StoreInt(pager, target + SIZE, 4, size + PAGE_SIZE, s, q, mem);
      }
    } else {
      var size := ReadInt(pager, curr + SIZE, 4, s, q, mem);
      StoreInt(pager, curr + SIZE, 4, size + PAGE_SIZE, s, q, mem);
      target := curr;
    }
  }

  /** The header at the start of the new page, and the link to it. */
  method LinkPage(pager: PageManager, curr: nat, ghost e: Block, ghost s: Memory, ghost q: nat, ghost mem: seq<int>)
    returns (nextPage: nat)
    requires pager.Valid() && Did(s, q, pager.State(), q, mem) && curr == e.addr && NewHeader(e) + META <= |mem|
    requires e.addr + META <= |mem|
    modifies pager.table, pager.frames, pager.open
    ensures pager.Valid() && Did(s, q, pager.State(), q, NewPageBytes(mem, e)) && nextPage == NewHeader(e)
  {
    hide Ready, Did, Image, InPlace, PlacesKept, HeaderAt, At, Value, Stores, Put, Digits;
    nextPage := (curr / PAGE_SIZE + 1) * PAGE_SIZE;
    StoreInt(pager, nextPage + NEXT, 8, 0, s, q, mem);
    ghost var m1 := SetNext(mem, nextPage, 0);
    StoreInt(pager, nextPage + PREV, 8, curr, s, q, m1);
    ghost var m2 := SetPrev(m1, nextPage, curr);
    StoreInt(pager, nextPage + IS_FREE, 4, 1, s, q, m2);
    ghost var m3 := SetFree(m2, nextPage, 1);
    StoreInt(pager, nextPage + SIZE, 4, PAGE_SIZE - META, s, q, m3);
    StoreInt(pager, curr + NEXT, 8, nextPage, s, q, SetSize(m3, nextPage, PAGE_SIZE - META));
  }

  /** The n-th round: a page if there is one, the bookkeeping, and the block if it is large enough. */
  method GrowRound(pager: PageManager, curr: nat, size: nat, n: nat,
                   ghost p: nat, ghost b: seq<Block>, ghost k: nat, ghost goal: Goal)
    returns (done: bool, ptr: Option<int>, ghost q: nat, ghost c: seq<Block>)
    requires pager.Valid() && Going(pager.State(), p, b, size, k, n, goal) && curr == b[k].addr
    modifies pager`numFreePagesMem, pager`numFreePagesSF, pager.table, pager.frames, pager.open
    ensures pager.Valid() && Changed(old(pager.State()), p, b, pager.State(), q, c)
    ensures HeapStored(pager.State(), q, c)
    ensures done ==> goal == Goal(c, ptr, q)
    ensures !done ==> Going(pager.State(), q, c, size, k, n + 1, goal)
    ensures !done ==> k < |c| && curr == c[k].addr && Live(c) == Live(b) && q == p + 1
  {
    hide Going, HeapStored, Changed, Ready, Did, Image, InPlace, PlacesKept, HeaderAt, At, Value, Stores, Live,
      AddPage, TakeBlock, Grow, Tiled;
    ghost var s := pager.State();
    RoundStarts(s, p, b, size, k, n, goal);
    RoundParts(s, p, b, size, k, n, goal);
    var grown := pager.Grow(FIRST_USER_PAGE + curr / PAGE_SIZE + n);
    if !grown {
      return true, None, p, b;
    }
    ghost var m := pager.State();
    ghost var page: Page :| Did(s, p, m, p + 1, Image(s, s.current, p) + page);
    ghost var mem := Image(s, s.current, p) + page;
    done, ptr, q, c := UsePage(pager, curr, size, n, s, p, b, k, goal, mem, page);
  }

  /** The round once the page is the thread's: the bookkeeping, and the size test. */
  method UsePage(pager: PageManager, curr: nat, size: nat, n: nat, ghost s: Memory, ghost p: nat, ghost b: seq<Block>,
                 ghost k: nat, ghost goal: Goal, ghost mem: seq<int>, ghost page: Page)
    returns (done: bool, ptr: Option<int>, ghost q: nat, ghost c: seq<Block>)
    requires pager.Valid() && Going(s, p, b, size, k, n, goal) && curr == b[k].addr
    requires Did(s, p, pager.State(), p + 1, mem) && Tagged(s) && mem == Image(s, s.current, p) + page
    requires s.freeMem + s.freeSwap > 0 && InPlace(pager.State(), p) && InPlace(pager.State(), 0)
    modifies pager.table, pager.frames, pager.open
    ensures pager.Valid() && Changed(s, p, b, pager.State(), q, c)
    ensures HeapStored(pager.State(), q, c)
    ensures done ==> goal == Goal(c, ptr, q)
    ensures !done ==> Going(pager.State(), q, c, size, k, n + 1, goal)
    ensures !done ==> k < |c| && curr == c[k].addr && Live(c) == Live(b) && q == p + 1
  {
    hide Going, HeapStored, Changed, Ready, Did, Image, InPlace, PlacesKept, HeaderAt, At, Value, Stores, Live,
      AddPage, TakeBlock, Tiled, RoomBytes, PayloadKept, OnlyLastFree;
    ghost var m := pager.State();
    RoundParts(s, p, b, size, k, n, goal);
    RoundStored(s, p, b, size, k, n, goal, m, mem, page);
    DidParts(s, p, m, p + 1, mem);
    var target := AddRoom(pager, curr, n, b, k, p, p + 1, mem);
    q, c := p + 1, AddPage(b, k, n);
    HeaderOf(RoomBytes(mem, b, k, n), c, p + 1, Target(b, k));
    var targetSize := ReadInt(pager, target + SIZE, 4, m, p + 1, RoomBytes(mem, b, k, n));
    RoundLeads(s, p, b, size, k, n, goal, m, mem, page, pager.State());
    AddPageSame(b, k, n);
    if size > targetSize {
      return false, None, q, c;
    }
    ptr, c := HandOut(pager, target, size, q, c, s, p, b);
    done := true;
  }

  /** The last block of the list is free and large enough. */
  method HandOut(pager: PageManager, curr: nat, size: nat, ghost q: nat, ghost c: seq<Block>,
                 ghost s: Memory, ghost p: nat, ghost b: seq<Block>)
    returns (ptr: Option<int>, ghost d: seq<Block>)
    requires pager.Valid() && HeapStored(pager.State(), q, c) && Changed(s, p, b, pager.State(), q, c)
    requires c != [] && Fits(c[|c| - 1], size) && 0 < size && curr == c[|c| - 1].addr && Live(b) <= Live(c)
    modifies pager.table, pager.frames, pager.open
    ensures pager.Valid() && HeapStored(pager.State(), q, d) && Changed(s, p, b, pager.State(), q, d)
    ensures d == TakeBlock(c, |c| - 1, size) && ptr == Some(c[|c| - 1].addr + META)
  {
    hide HeapStored, Changed, Ready, Did, Image, InPlace, PlacesKept, HeaderAt, Live, TakeBlock, TakeBytes;
    ghost var r, k := pager.State(), |c| - 1;
    StoredReady(r, q, c);
    DidNothing(r, q);
    TakenChanged(r, q, c, k, size, r);
    Take(pager, curr, size, c[k], 0, r, q, Image(r, r.current, q));
    TakenChanged(r, q, c, k, size, pager.State());
    d := TakeBlock(c, k, size);
    ChangedFurther(s, p, b, r, q, c, pager.State(), q, d);
    ptr := Some(curr + META);
  }

  /** The growth loop of myallocate, from the last header on. */
  method GrowLoop(pager: PageManager, curr: nat, size: nat,
                  ghost p: nat, ghost b: seq<Block>, ghost k: nat, ghost goal: Goal)
    returns (ptr: Option<int>, ghost q: nat, ghost c: seq<Block>)
    requires pager.Valid() && Going(pager.State(), p, b, size, k, 1, goal) && curr == b[k].addr
    modifies pager`numFreePagesMem, pager`numFreePagesSF, pager.table, pager.frames, pager.open
    ensures pager.Valid() && Changed(old(pager.State()), p, b, pager.State(), q, c)
    ensures HeapStored(pager.State(), q, c) && goal == Goal(c, ptr, q)
  {
    hide Going, HeapStored, Changed, Live;
    ghost var s := pager.State();
    var numPagesNeeded, done := 0, false;
    ptr, q, c := None, p, b;
    RoundParts(s, p, b, size, k, 1, goal);
    while !done
      invariant pager.Valid() && Changed(s, p, b, pager.State(), q, c) && HeapStored(pager.State(), q, c)
      invariant done ==> goal == Goal(c, ptr, q)
      invariant !done ==> Going(pager.State(), q, c, size, k, numPagesNeeded + 1, goal)
      invariant !done ==> k < |c| && curr == c[k].addr && Live(b) <= Live(c)
      decreases !done, goal.pages - q
    {
      numPagesNeeded := numPagesNeeded + 1;
      ghost var m, q0, c0 := pager.State(), q, c;
      GoalAhead(m, q, c, size, k, numPagesNeeded, goal);
      done, ptr, q, c := GrowRound(pager, curr, size, numPagesNeeded, q, c, k, goal);
      ChangedFurther(s, p, b, m, q0, c0, pager.State(), q, c);
      if !done {
        GoalAhead(pager.State(), q, c, size, k, numPagesNeeded + 1, goal);
      }
    }
  }

  lemma GoalAhead(s: Memory, p: nat, b: seq<Block>, size: int, k: nat, n: nat, goal: Goal)
    requires Going(s, p, b, size, k, n, goal)
    ensures p <= goal.pages
  {
    hide HeapStored, InPlace, RoundsLeft;
  }

  // ---------------------------------------------------------------- whole calls

  /** Loads leave the heap as it is. */
  lemma UnchangedHeap(s: Memory, p: nat, b: seq<Block>, m: Memory)
    requires HeapStored(s, p, b) && Tagged(s) && Did(s, p, m, p, Image(s, s.current, p))
    ensures HeapStored(m, p, b) && Changed(s, p, b, m, p, b) && m.freeMem == s.freeMem && m.freeSwap == s.freeSwap
  {
    hide Ready, Image, Stores, PayloadKept;
    StoredParts(s, p, b);
    DidParts(s, p, m, p, Image(s, s.current, p));
    SamePayload(Image(s, s.current, p), b);
    ReadySized(m, p);
  }

  /** The header of a last block within a page lies in one page. */
  lemma LastHeaderPage(b: seq<Block>, p: nat)
    requires Tiled(b, p)
    ensures b[|b| - 1].size <= PAGE_SIZE - META ==> (b[|b| - 1].addr + SIZE + 3) / PAGE_SIZE == PageOf(b[|b| - 1].addr)
  {
    HeaderInLastPageIff(b, p);
    TiledIsInside(b, p, |b| - 1);
  }

  /** The checks for insufficient memory, on the last header, whose fields have been loaded. */
  method CheckMemory(pager: PageManager, curr: nat, isFree: int, currSize: int, size: nat,
                     ghost b: seq<Block>, ghost k: nat)
    returns (refused: bool)
    requires k < |b| && curr == b[k].addr && isFree == (if b[k].free then 1 else 0) && currSize == b[k].size
    ensures refused == Refused(b, k, pager.numFreePagesMem, pager.numFreePagesSF, size)
  {
    if isFree == 0 {
      if size + META > pager.numFreePagesMem * PAGE_SIZE && size + META > pager.numFreePagesSF * PAGE_SIZE {
        return true;
      }
    }
    if currSize < size {
      if size > currSize + pager.numFreePagesMem * PAGE_SIZE && size > currSize + pager.numFreePagesSF * PAGE_SIZE {
        return true;
      }
    }
    return FIRST_USER_PAGE * PAGE_SIZE + curr + PAGE_SIZE >= MEMORY_PAGES * PAGE_SIZE;
  }

  /** myallocate once HEAD is known. */
  method AllocateIn(pager: PageManager, size: nat, ghost p: nat, ghost b: seq<Block>)
    returns (ptr: Option<int>, ghost q: nat, ghost c: seq<Block>)
    requires pager.Valid() && HeapStored(pager.State(), p, b) && b != [] && 0 < size <= USER_SIZE - META
    requires NeedsGrowth(b, size, pager.numFreePagesMem, pager.numFreePagesSF) ==> MayGrow(b, size)
    requires InPlace(pager.State(), 0)
    modifies pager`numFreePagesMem, pager`numFreePagesSF, pager.table, pager.frames, pager.open
    ensures pager.Valid() && Changed(old(pager.State()), p, b, pager.State(), q, c)
    ensures HeapStored(pager.State(), q, c) && Placed(b)
    ensures old(pager.numFreePagesMem) >= 0 && old(pager.numFreePagesSF) >= 0
    ensures
      var o := Allocate(b, size, old(pager.numFreePagesMem), old(pager.numFreePagesSF));
      c == o.blocks && ptr == o.ptr && q == p + o.taken
  {
    hide HeapStored, Changed, Ready, Did, Image, InPlace, PlacesKept, HeaderAt, At, Value, Stores, Tiled, Live,
      TakeBlock, TakeBytes, Going, OnlyLastFree;
    ghost var s := pager.State();
    StoredReady(s, p, b);
    ReadyCounts(s, p);
    TiledIsPlaced(b, p);
    DidNothing(s, p);
    ghost var mem := Image(s, s.current, p);
    var curr, k := FindBlock(pager, size, b, s, p, mem);
    HeaderOf(mem, b, p, k);
    StoredEnd(s, p, b, size);
    ghost var m := pager.State();
    var isFree := ReadInt(pager, curr + IS_FREE, 4, s, p, mem);
    PlacesFurther(s, m, pager.State());
    m := pager.State();
    var currSize := ReadInt(pager, curr + SIZE, 4, s, p, mem);
    PlacesFurther(s, m, pager.State());
    m := pager.State();
    FirstStaysInPlace(s, m);
    UnchangedHeap(s, p, b, m);
    if isFree == 1 && currSize >= size {
      q := p;
      ptr, c := HandOut(pager, curr, size, p, b, s, p, b);
    } else {
      var refused := CheckMemory(pager, curr, isFree, currSize, size, b, k);
      if refused {
        return None, p, b;
      }
      LastHeaderPage(b, p);
      ghost var goal := GrowthStarts(s, p, b, size, m);
      ptr, q, c := GrowLoop(pager, curr, size, p, b, k, goal);
      ChangedFurther(s, p, b, m, p, b, pager.State(), q, c);
    }
  }

  lemma RoundParts(s: Memory, p: nat, b: seq<Block>, size: int, k: nat, n: nat, goal: Goal)
    requires Going(s, p, b, size, k, n, goal)
    ensures HeapStored(s, p, b) && Tiled(b, p) && NearEnd(b, k, n) && n >= 1 && Tagged(s) && Sized(s)
    ensures Changed(s, p, b, s, p, b) && Stores(Image(s, s.current, p), b) && size > 0
  {
    hide Ready, Did, Image, Stores, InPlace, PayloadKept, Allocator.GrowLoop, RoundsLeft;
    StoredParts(s, p, b);
    DidNothing(s, p);
    SamePayload(Image(s, s.current, p), b);
    ChangedIs(s, p, b, s, p, Image(s, s.current, p), b);
  }

  // ---------------------------------------------------------------- freeing

  /** The search of mydeallocate for the header at toFree; None is NULL. */
  method FindHeader(pager: PageManager, toFree: int, ghost b: seq<Block>,
                    ghost s: Memory, ghost p: nat, ghost mem: seq<int>) returns (curr: Option<nat>, ghost k: nat)
    requires pager.Valid() && Did(s, p, pager.State(), p, mem) && b != [] && Tiled(b, p) && Stores(mem, b)
    modifies pager.table, pager.frames, pager.open
    ensures pager.Valid() && Did(s, p, pager.State(), p, mem)
    ensures k == Locate(b, toFree) && curr == if k < |b| then Some(toFree) else None
  {
    hide Ready, Did, Image, InPlace, PlacesKept, HeaderAt, At, Value, Stores, Tiled;
    curr, k := Some(0), 0;
    StartsAtHead(b, p);
    while curr != None && curr.value != toFree
      invariant k <= |b| && curr == (if k < |b| then Some(b[k].addr) else None)
      invariant pager.Valid() && Did(s, p, pager.State(), p, mem)
      invariant forall i :: 0 <= i < k ==> b[i].addr != toFree
      decreases |b| - k
    {
      HeaderOf(mem, b, p, k);
      var next := ReadInt(pager, curr.value + NEXT, 8, s, p, mem);
      if next == 0 {
        curr := None;
      } else {
        curr := Some(next);
      }
      k := k + 1;
    }
    LocateStops(b, toFree, k);
  }

  lemma {:induction false} LocateStops(b: seq<Block>, addr: int, k: nat)
    requires k <= |b| && (forall i :: 0 <= i < k ==> b[i].addr != addr) && (k < |b| ==> b[k].addr == addr)
    ensures Locate(b, addr) == k
  {
  }

  /** The stores of the forward merge. */
  method MergeNext(pager: PageManager, toFree: nat, nxt: nat, ghost e: Block, ghost f: Block,
                   ghost next: int, ghost behind: int, ghost s: Memory, ghost p: nat, ghost mem: seq<int>)
    requires pager.Valid() && Did(s, p, pager.State(), p, mem) && toFree == e.addr && nxt == f.addr
    requires HeaderAt(mem, e, next) && HeaderAt(mem, f, behind) && End(e) <= f.addr && e.size > 0
    modifies pager.table, pager.frames, pager.open
    ensures pager.Valid() && Did(s, p, pager.State(), p, MergeBytes(mem, e, f))
  {
    hide Ready, Did, Image, InPlace, PlacesKept, HeaderAt, At, Value, Put, Digits;
    FieldsRead(mem, e, next);
    FieldsRead(mem, f, behind);
    var size := ReadInt(pager, toFree + SIZE, 4, s, p, mem);
    var nxtSize := ReadInt(pager, nxt + SIZE, 4, s, p, mem);
    StoreInt(pager, toFree + SIZE, 4, size + META + nxtSize, s, p, mem);
    ghost var m1 := SetSize(mem, e.addr, e.size + META + f.size);
    SizeElsewhere(mem, e, f, behind);
    var nxtNext := ReadInt(pager, nxt + NEXT, 8, s, p, m1);
    StoreInt(pager, toFree + NEXT, 8, nxtNext, s, p, m1);
    StoreInt(pager, toFree + IS_FREE, 4, 1, s, p, SetNext(m1, e.addr, nxtNext));
  }

  lemma SizeElsewhere(mem: seq<int>, e: Block, f: Block, behind: int)
    requires HeaderAt(mem, f, behind) && End(e) <= f.addr && e.size > 0 && 0 <= e.addr
    ensures e.addr + META <= |mem|
    ensures Value(At(SetSize(mem, e.addr, e.size + META + f.size), f.addr + NEXT, 8)) == behind
  {
    hide Within, At, Value, HeaderAt, SetSize;
    FieldsRead(mem, f, behind);
    HeaderWithin(mem, e.addr, e.size + META + f.size);
    var m := SetSize(mem, e.addr, e.size + META + f.size);
    HeaderElsewhere(mem, m, e.addr, e.addr + META, f, behind);
    FieldsRead(m, f, behind);
  }

  /** The consolidation of mydeallocate, for a header that was found and is used. */
  method FreeBlock(pager: PageManager, toFree: nat, ghost b: seq<Block>, ghost k: nat,
                   ghost s: Memory, ghost p: nat, ghost mem: seq<int>)
    requires pager.Valid() && Did(s, p, pager.State(), p, mem) && Tiled(b, p) && Stores(mem, b) && HeadersIn(b, |mem|)
    requires k < |b| && !b[k].free && toFree == b[k].addr
    requires Harmless(FreeBytes(mem, b, k), PrevAt(mem, toFree))
    modifies pager.table, pager.frames, pager.open
    ensures pager.Valid() && Did(s, p, pager.State(), p, FreeBytes(mem, b, k))
  {
    hide Ready, Did, Image, InPlace, PlacesKept, HeaderAt, At, Value, Put, Digits, Stores, Tiled, MergeBytes;
    HeaderOf(mem, b, p, k);
    var previous := ReadInt(pager, toFree + PREV, 8, s, p, mem);
    var nxt := ReadInt(pager, toFree + NEXT, 8, s, p, mem);
    if nxt != 0 {
      HeaderOf(mem, b, p, k + 1);
      NextBehind(b, p, k);
      var nxtFree := ReadInt(pager, nxt + IS_FREE, 4, s, p, mem);
      if nxtFree == 1 {
        MergeNext(pager, toFree, nxt, b[k], b[k + 1], NextOf(b, k), NextOf(b, k + 1), s, p, mem);
      }
    } else {
      StoreInt(pager, toFree + IS_FREE, 4, 1, s, p, mem);
    }
    if previous != 0 {
      ghost var now := FreeBytes(mem, b, k);
      var previousFree := ReadInt(pager, previous + IS_FREE, 4, s, p, now);
      // The merge with the previous block, whose guard is previousFree == 1.
      assert previousFree != 1;
    }
  }

  lemma NextBehind(b: seq<Block>, pages: nat, k: nat)
    requires Tiled(b, pages) && k + 1 < |b|
    ensures End(b[k]) <= b[k + 1].addr && b[k].size > 0 && 0 <= b[k].addr
  {
    TiledIsOrdered(b, pages, k, k + 1);
    TiledIsInside(b, pages, k);
  }

  /** mydeallocate once HEAD is known. */
  method Release(pager: PageManager, ptr: int, ghost p: nat, ghost b: seq<Block>) returns (ghost c: seq<Block>)
    requires pager.Valid() && HeapStored(pager.State(), p, b) && b != []
    requires Tagged(pager.State()) && PrevOk(Image(pager.State(), pager.State().current, p), b, ptr)
    modifies pager.table, pager.frames, pager.open
    ensures pager.Valid() && HeapStored(pager.State(), p, c) && c == Deallocate(b, ptr)
    ensures Changed(old(pager.State()), p, b, pager.State(), p, c)
  {
    hide HeapStored, Changed, Ready, Did, Image, InPlace, PlacesKept, HeaderAt, At, Value, Stores, Tiled, Live,
      Harmless, FreeBytes, Deallocate;
    ghost var s := pager.State();
    StoredReady(s, p, b);
    DidNothing(s, p);
    UnchangedHeap(s, p, b, s);
    DeallocateCases(b, ptr, Locate(b, ptr - META));
    if ptr < 0 || ptr > PAGE_SIZE * META {
      return b;
    }
    ghost var mem := Image(s, s.current, p);
    var curr, k := FindHeader(pager, ptr - META, b, s, p, mem);
    UnchangedHeap(s, p, b, pager.State());
    if curr == None {
      return b;
    }
    HeaderOf(mem, b, p, k);
    var isFree := ReadInt(pager, curr.value + IS_FREE, 4, s, p, mem);
    UnchangedHeap(s, p, b, pager.State());
    if isFree != 0 {
      return b;
    }
    FreedChanged(s, p, b, ptr, k, s);
    FreeBlock(pager, curr.value, b, k, s, p, mem);
    FreedChanged(s, p, b, ptr, k, pager.State());
    c := Deallocate(b, ptr);
  }

  // ---------------------------------------------------------------- the heap of the running thread

  class Heap {
    const pager: PageManager
    ghost var pages: nat
    ghost var model: seq<Block>

    ghost predicate Valid()
      reads this, pager, pager.table, pager.frames, pager.open
    {
      pager.Valid() && HeapStored(pager.State(), pages, model)
    }

    /** A thread that has no page yet. */
    constructor (pager: PageManager)
      requires pager.Valid() && HeapStored(pager.State(), 0, [])
      ensures Valid() && this.pager == pager && pages == 0 && model == []
    {
      this.pager, pages, model := pager, 0, [];
    }

    /** getHead, with the header that initMem writes for a thread's first page. */
    method GetHead(flag: int) returns (found: bool)
      requires Valid() && !HeadInSwap(pager.State()) && flag != 0
      modifies this, pager`numFreePagesMem, pager`numFreePagesSF, pager.table, pager.frames, pager.open
      ensures Valid() && (pager.State(), found) == PageTable.GetHead(old(pager.State()), MALLOC_FLAG)
      ensures !found ==> pager.State() == old(pager.State()) && pages == old(pages) && model == old(model)
      ensures found ==>
        && model == Headed(old(model)) && pages == (if old(model) == [] then 1 else old(pages))
        && Changed(old(pager.State()), old(pages), old(model), pager.State(), pages, model)
        && InPlace(pager.State(), 0)
    {
      hide HeapStored, Changed, PageTable.GetHead, InPlace, HeadInSwap;
      HeadStored(pager.State(), pages, model);
      SameForFlags(pager.State(), flag);
      found := pager.GetHead(flag);
      if found {
        pages, model := if model == [] then 1 else pages, Headed(model);
      }
    }

    /** myallocate for THREADREQ. */
    method Malloc(size: int) returns (ptr: Option<int>)
      requires Valid() && MayMalloc(pager.State(), model, size)
      modifies this, pager`numFreePagesMem, pager`numFreePagesSF, pager.table, pager.frames, pager.open
      ensures Valid()
      ensures MallocDid(old(pager.State()), old(pages), old(model), size, pager.State(), pages, model, ptr)
    {
      hide HeapStored, Changed, PageTable.GetHead, InPlace, HeadInSwap, NeedsGrowth, MayGrow, Allocate, Live;
      if size <= 0 {
        return None;
      }
      if size > USER_SIZE - META {
        return None;
      }
      ghost var s, p, b := pager.State(), pages, model;
      var found := GetHead(MALLOC_FLAG);
      if !found {
        return None;
      }
      ghost var m := pager.State();
      ptr, pages, model := AllocateIn(pager, size, pages, model);
      LiveHeaded(b);
      ChangedFurther(s, p, b, m, if b == [] then 1 else p, Headed(b), pager.State(), pages, model);
    }

    /** mydeallocate for THREADREQ; None stands for a NULL argument. */
    method Free(ptr: Option<int>)
      requires Valid() && MayFree(pager.State(), pages, model, ptr)
      modifies this, pager`numFreePagesMem, pager`numFreePagesSF, pager.table, pager.frames, pager.open
      ensures Valid()
      ensures FreeDid(old(pager.State()), old(pages), old(model), ptr, pager.State(), pages, model)
    {
      hide HeapStored, Changed, PageTable.GetHead, InPlace, HeadInSwap, Live, Harmless, Deallocate;
      ghost var s, p, b := pager.State(), pages, model;
      SameForFlags(s, FREE_FLAG);
      var found := GetHead(FREE_FLAG);
      if !found {
        return;
      }
      if ptr == None {
        return;
      }
      ghost var m := pager.State();
      HeadKeepsPrevOk(s, p, b, ptr.value);
      model := Release(pager, ptr.value, pages, model);
      LiveHeaded(b);
      ChangedFurther(s, p, b, m, pages, Headed(b), pager.State(), pages, model);
    }
  }

  lemma SameForFlags(s: Memory, flag: int)
    requires Sized(s) && flag != 0
    ensures PageTable.GetHead(s, flag) == PageTable.GetHead(s, MALLOC_FLAG)
  {
  }
}
