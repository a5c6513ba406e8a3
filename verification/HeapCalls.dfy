/**
 * What myallocate and mydeallocate do to the memory of the thread that calls them and to the
 * page manager, in terms of the block list that its headers make up.
 */
module HeapCalls {
  import opened PageTable
  import opened PagingMoves
  import opened PagingRuns
  import opened AddressSpace
  import opened BlockList
  import opened Headers
  import opened Allocator
  import opened ThreadSpace

  ghost predicate Tiles(b: seq<Block>, pages: nat) {
    if b == [] then pages == 0 else Tiled(b, pages)
  }

  /** The running thread owns p pages, and the headers in them are the list, which tiles them. */
  ghost predicate HeapStored(s: Memory, p: nat, b: seq<Block>) {
    && Ready(s, p) && Tiles(b, p) && OnlyLastFree(b) && FIRST_USER_PAGE + p <= FIRST_SWAP_PAGE
    && Stores(Image(s, s.current, p), b)
  }

  /** Frames and stores to headers apart, nothing happened: no payload changed, and no other thread's page. */
  ghost predicate Changed(s: Memory, p: nat, b: seq<Block>, r: Memory, q: nat, c: seq<Block>) {
    && Tagged(s) && Tagged(r) && Did(s, p, r, q, Image(r, r.current, q))
    && Stores(Image(r, r.current, q), c)
    && PayloadKept(Image(s, s.current, p), Image(r, r.current, q), b)
  }

  // ---------------------------------------------------------------- myallocate

  /** What its caller has to see to: a first page that can be found, and growth that is safe. */
  ghost predicate MayMalloc(s: Memory, b: seq<Block>, size: int)
    requires Sized(s)
  {
    && !HeadInSwap(s)
    && (0 < size <= USER_SIZE - META ==>
          var (m, found) := GetHead(s, MALLOC_FLAG);
          found && NeedsGrowth(Headed(b), size, m.freeMem, m.freeSwap) ==> MayGrow(Headed(b), size))
  }

  ghost predicate MallocDid(s: Memory, p: nat, b: seq<Block>, size: int,
                            r: Memory, q: nat, c: seq<Block>, ptr: Option<int>)
    requires Sized(s)
  {
    var (m, found) := GetHead(s, MALLOC_FLAG);
    if size <= 0 || size > USER_SIZE - META || !found then r == s && q == p && c == b && ptr == None
    else
      && Placed(Headed(b)) && m.freeMem >= 0 && m.freeSwap >= 0
      && var o := Allocate(Headed(b), size, m.freeMem, m.freeSwap);
         && c == o.blocks && ptr == o.ptr && q == (if b == [] then 1 else p) + o.taken
         && Changed(s, p, b, r, q, c)
  }

  // ---------------------------------------------------------------- mydeallocate

  predicate HeadersIn(b: seq<Block>, bytes: nat) {
    forall i :: 0 <= i < |b| ==> 0 <= b[i].addr && b[i].addr + META <= bytes
  }

  /** The stores of mydeallocate for the k-th header. */
  function FreeBytes(mem: seq<int>, b: seq<Block>, k: nat): (r: seq<int>)
    requires k < |b| && HeadersIn(b, |mem|)
    ensures |r| == |mem|
  {
    if b[k].free then mem
    else if k + 1 == |b| then SetFree(mem, b[k].addr, 1)
    else if b[k + 1].free then MergeBytes(mem, b[k], b[k + 1])
    else mem
  }

  function PrevAt(mem: seq<int>, a: int): int
    requires 0 <= a && a + META <= |mem|
  {
    Value(At(mem, a + PREV, 8))
  }

  /**
   * The bytes at v, NULL apart, do not read as a free header: then the backward merge does
   * nothing. `mem` is the memory after the forward merge.
   */
  predicate Harmless(mem: seq<int>, v: int) {
    v == 0 || (0 <= v && v + META <= |mem| && FieldsAt(mem, v).free != 1)
  }

  /** The pointer lies within the limit and names the payload of the k-th block, which is used. */
  predicate Frees(b: seq<Block>, ptr: int, k: nat) {
    0 <= ptr <= FREE_LIMIT && k < |b| && Locate(b, ptr - META) == k && !b[k].free
  }

  /** If the pointer frees a block, what its header's prev names is harmless. */
  predicate PrevOk(mem: seq<int>, b: seq<Block>, ptr: int) {
    var k := Locate(b, ptr - META);
    Frees(b, ptr, k) && HeadersIn(b, |mem|) ==> Harmless(FreeBytes(mem, b, k), PrevAt(mem, b[k].addr))
  }

  /** What the caller has to see to: the first page can be found, and prev of the header is harmless. */
  ghost predicate MayFree(s: Memory, p: nat, b: seq<Block>, ptr: Option<int>)
    requires Tagged(s)
  {
    && !HeadInSwap(s)
    && (ptr.Some? ==> PrevOk(Image(s, s.current, p), b, ptr.value))
  }

  ghost predicate FreeDid(s: Memory, p: nat, b: seq<Block>, ptr: Option<int>, r: Memory, q: nat, c: seq<Block>)
    requires Sized(s)
  {
    var found := GetHead(s, FREE_FLAG).1;
    if !found then r == s && q == p && c == b
    else
      && q == (if b == [] then 1 else p)
      && c == (if ptr.None? then Headed(b) else Deallocate(Headed(b), ptr.value))
      && Changed(s, p, b, r, q, c)
  }

  // ---------------------------------------------------------------- what the calls keep

  lemma StoredParts(s: Memory, p: nat, b: seq<Block>)
    requires HeapStored(s, p, b)
    ensures Ready(s, p) && Sized(s) && Tagged(s) && Tiles(b, p) && OnlyLastFree(b)
    ensures Stores(Image(s, s.current, p), b) && p * PAGE_SIZE + PAGE_SIZE < WORD
  {
  }

  lemma StoredReady(s: Memory, p: nat, b: seq<Block>)
    requires HeapStored(s, p, b)
    ensures Ready(s, p) && Tagged(s) && Sized(s) && forall i :: 0 <= i < |b| ==> b[i].size > 0
    ensures Stores(Image(s, s.current, p), b) && (b != [] ==> Tiled(b, p)) && p * PAGE_SIZE < WORD
  {
    hide Ready, Stores, Image;
    StoredParts(s, p, b);
  }

  lemma ReadyCounts(s: Memory, p: nat)
    requires Ready(s, p)
    ensures s.freeMem >= 0 && s.freeSwap >= 0
  {
    hide Addressable, Owns;
    ReadyAccounted(s, p);
    FullIff(s);
  }

  lemma StoredEnd(s: Memory, p: nat, b: seq<Block>, size: int)
    requires HeapStored(s, p, b) && b != []
    ensures FirstFit(b, size) == |b| - 1
  {
    hide Ready, Image, Stores;
    StoredParts(s, p, b);
    FirstFitIsLast(b, size);
  }

  lemma FirstStaysInPlace(s: Memory, m: Memory)
    requires Sized(s) && Sized(m) && PlacesKept(s, m) && InPlace(s, 0)
    ensures InPlace(m, 0)
  {
    hide InPlace;
  }

  lemma LiveHeaded(b: seq<Block>)
    ensures Live(b) <= Live(Headed(b))
  {
  }

  lemma TiledHeadersIn(b: seq<Block>, p: nat)
    requires Tiles(b, p)
    ensures HeadersIn(b, p * PAGE_SIZE)
  {
    forall i | 0 <= i < |b| ensures 0 <= b[i].addr && b[i].addr + META <= p * PAGE_SIZE {
      TiledIsInside(b, p, i);
    }
  }

  lemma TiledTiles(b: seq<Block>, p: nat)
    requires Tiled(b, p)
    ensures Tiles(b, p)
  {
  }

  lemma FirstHeader(page: seq<int>)
    requires |page| == PAGE_SIZE && FieldsAt(page, 0) == Fields(PAGE_SIZE - META, 1, 0)
    ensures Stores(page, FirstBlock())
  {
  }

  /** getHead: the heap is as it was, or there is a first page with one free block. */
  lemma HeadStored(s: Memory, p: nat, b: seq<Block>)
    requires HeapStored(s, p, b) && !HeadInSwap(s)
    ensures
      var (m, found) := GetHead(s, MALLOC_FLAG);
      var q := if b == [] then 1 else p;
      && (!found ==> m == s && b == [])
      && (found ==> HeapStored(m, q, Headed(b)) && Changed(s, p, b, m, q, Headed(b)) && InPlace(m, 0))
      && (found && b != [] ==> Tagged(s) && Tagged(m) && Image(m, m.current, p) == Image(s, s.current, p))
  {
    hide Ready, Image, Did, Stores, GetHead, InPlace, FieldsAt;
    StoredParts(s, p, b);
    if b == [] {
      HeadStarts(s);
      var (m, found) := GetHead(s, MALLOC_FLAG);
      if found {
        var page: Page :| Did(s, 0, m, 1, page) && InPlace(m, 0)
                          && FieldsAt(page, 0) == Fields(PAGE_SIZE - META, 1, 0);
        DidParts(s, 0, m, 1, page);
        FirstHeader(page);
        FirstBlockTiles();
        ReadySized(m, 1);
      }
    } else {
      TiledIsInside(b, p, 0);
      HeadStays(s, p);
      var m := GetHead(s, MALLOC_FLAG).0;
      DidParts(s, p, m, p, Image(s, s.current, p));
      ReadySized(m, p);
    }
  }

  /** What myallocate leaves is a heap again: one block more handed out, or none. */
  lemma MallocKeeps(s: Memory, p: nat, b: seq<Block>, size: int, r: Memory, q: nat, c: seq<Block>, ptr: Option<int>)
    requires HeapStored(s, p, b) && MayMalloc(s, b, size) && MallocDid(s, p, b, size, r, q, c, ptr)
    ensures Tiles(c, q) && OnlyLastFree(c) && Handed(b, c, ptr, size)
  {
    hide Ready, Image, Did, Stores, GetHead, Changed, Live, Tiled;
    StoredParts(s, p, b);
    NothingHanded(b, size);
    HeadStored(s, p, b);
    var (m, found) := GetHead(s, MALLOC_FLAG);
    if 0 < size <= USER_SIZE - META && found {
      var h, q0 := Headed(b), if b == [] then 1 else p;
      StoredParts(m, q0, h);
      AllocateKeepsList(h, q0, size, m.freeMem, m.freeSwap);
      TiledTiles(c, q);
      FirstBlockTiles();
      HandedSameLive(b, h, c, ptr, size);
    }
  }

  /** And so does mydeallocate. */
  lemma FreeKeeps(s: Memory, p: nat, b: seq<Block>, ptr: Option<int>, r: Memory, q: nat, c: seq<Block>)
    requires HeapStored(s, p, b) && FreeDid(s, p, b, ptr, r, q, c)
    ensures Tiles(c, q) && OnlyLastFree(c)
  {
    hide Ready, Image, Did, Stores, GetHead, Changed, Live;
    StoredParts(s, p, b);
    FirstBlockTiles();
    if ptr.Some? && GetHead(s, FREE_FLAG).1 {
      DeallocateTiles(Headed(b), q, ptr.value);
      DeallocateKeepsOnlyLast(Headed(b), ptr.value);
    }
  }

  lemma ChangedFurther(s: Memory, p: nat, b: seq<Block>, m: Memory, q: nat, c: seq<Block>,
                       r: Memory, o: nat, d: seq<Block>)
    requires Changed(s, p, b, m, q, c) && Changed(m, q, c, r, o, d) && Live(b) <= Live(c)
    ensures Changed(s, p, b, r, o, d)
  {
    hide Did, Image, Stores, PayloadKept, Live;
    DidFurther(s, p, m, q, Image(m, m.current, q), r, o, Image(r, r.current, o));
    DidParts(s, p, m, q, Image(m, m.current, q));
    PayloadFurther(Image(s, s.current, p), Image(m, m.current, q), Image(r, r.current, o), b, c);
  }

  lemma ChangedIs(s: Memory, p: nat, b: seq<Block>, r: Memory, q: nat, mem: seq<int>, c: seq<Block>)
    requires Did(s, p, r, q, mem) && Stores(mem, c)
    requires Tagged(s) && PayloadKept(Image(s, s.current, p), mem, b)
    ensures Changed(s, p, b, r, q, c)
  {
    hide Image, Stores, PayloadKept, Ready;
    DidParts(s, p, r, q, mem);
    ReadySized(r, q);
  }

  // ---------------------------------------------------------------- a round of the growth loop

  /** The list, the pointer and the pages when the loop is done. */
  datatype Goal = Goal(blocks: seq<Block>, ptr: Option<int>, pages: nat)

  /** The loop is at its n-th round, and will reach the goal. */
  ghost predicate Going(s: Memory, p: nat, b: seq<Block>, size: int, k: nat, n: nat, goal: Goal) {
    && HeapStored(s, p, b) && NearEnd(b, k, n) && SmallEnd(b, k, n) && RoundDue(b, k, n, size)
    && PageOf(b[k].addr) + n == p && FIRST_USER_PAGE + p - 1 + RoundsLeft(b, k, n, size) < FIRST_SWAP_PAGE
    && InPlace(s, p - 1) && InPlace(s, 0) && s.freeMem >= 0 && s.freeSwap >= 0
    && var o := GrowLoop(b, size, k, n, s.freeMem + s.freeSwap);
       goal == Goal(o.blocks, o.ptr, p + o.taken)
  }

  lemma RoundBelow(b: seq<Block>, size: int, k: nat, n: nat, p: nat)
    requires RoundDue(b, k, n, size) && FIRST_USER_PAGE + p - 1 + RoundsLeft(b, k, n, size) < FIRST_SWAP_PAGE
    ensures FIRST_USER_PAGE + p < FIRST_SWAP_PAGE
  {
    OneRoundLess(b, k, n, size);
  }

  /** The page is there, or the loop ends for want of frames. */
  lemma RoundStarts(s: Memory, p: nat, b: seq<Block>, size: int, k: nat, n: nat, goal: Goal)
    requires Going(s, p, b, size, k, n, goal)
    ensures 0 < p && FIRST_USER_PAGE + p < FIRST_SWAP_PAGE
    ensures FIRST_USER_PAGE + PageOf(b[k].addr) + n == FIRST_USER_PAGE + p
    ensures
      var (m, grown) := Grow(s, FIRST_USER_PAGE + p);
      && (!grown ==> m == s && goal == Goal(b, None, p))
      && (grown ==>
            && s.freeMem + s.freeSwap > 0 && InPlace(m, p) && InPlace(m, 0)
            && exists page: Page :: Did(s, p, m, p + 1, Image(s, s.current, p) + page))
  {
    hide Ready, Image, Did, Stores, Grow, AddPage, TakeBlock, Tiled;
    RoundBelow(b, size, k, n, p);
    StoredParts(s, p, b);
    if s.freeMem + s.freeSwap == 0 {
      GrowRefused(s, p, FIRST_USER_PAGE + p);
    } else {
      GrowDid(s, p);
      var m := Grow(s, FIRST_USER_PAGE + p).0;
      var page: Page :| Did(s, p, m, p + 1, Image(s, s.current, p) + page);
      DidParts(s, p, m, p + 1, Image(s, s.current, p) + page);
    }
  }

  /** After the stores of the round the headers are the longer list. */
  lemma RoundStored(s: Memory, p: nat, b: seq<Block>, size: int, k: nat, n: nat, goal: Goal,
                    m: Memory, mem: seq<int>, page: Page)
    requires Going(s, p, b, size, k, n, goal) && Did(s, p, m, p + 1, mem)
    requires Tagged(s) && mem == Image(s, s.current, p) + page
    ensures RoomFits(mem, b, k, n) && |mem| < WORD && Stores(mem, b)
    ensures
      var c := AddPage(b, k, n);
      && Stores(RoomBytes(mem, b, k, n), c) && PayloadKept(Image(s, s.current, p), RoomBytes(mem, b, k, n), b)
      && Tiled(c, p + 1) && OnlyLastFree(c) && NearEnd(c, k, n + 1) && Live(c) == Live(b)
      && Target(b, k) == |c| - 1 && c[Target(b, k)].free && Target(c, k) == Target(b, k)
  {
    hide Ready, Image, Did, Stores, GrowLoop, InPlace, PayloadKept, Live, RoomBytes, OnlyLastFree;
    RoundBelow(b, size, k, n, p);
    StoredParts(s, p, b);
    var was := Image(s, s.current, p);
    LongerStores(was, page, b);
    RoomStores(mem, b, p, k, n);
    PayloadFurther(was, mem, RoomBytes(mem, b, k, n), b, b);
    RoundKeepsList(b, p, k, n);
  }

  /** The addresses that the round stores to lie within memory. */
  predicate RoomFits(mem: seq<int>, b: seq<Block>, k: nat, n: nat) {
    && k < |b| && 0 <= b[k].addr && b[k].addr + META <= |mem|
    && (!b[k].free && n == 1 ==> NewHeader(b[k]) + META <= |mem|)
    && (!b[k].free && n != 1 ==> k + 1 < |b| && 0 <= b[k + 1].addr && b[k + 1].addr + META <= |mem|)
  }

  lemma GoalFurther(b: seq<Block>, size: int, k: nat, n: nat, free: nat, p: nat, goal: Goal)
    requires RoundDue(b, k, n, size) && free > 0
    requires var o := GrowLoop(b, size, k, n, free); goal == Goal(o.blocks, o.ptr, p + o.taken)
    ensures
      var c, t := AddPage(b, k, n), Target(b, k);
      && (c[t].size < size ==>
            && RoundDue(c, k, n + 1, size)
            && RoundsLeft(c, k, n + 1, size) == RoundsLeft(b, k, n, size) - 1
            && var o := GrowLoop(c, size, k, n + 1, free - 1);
               goal == Goal(o.blocks, o.ptr, p + 1 + o.taken))
      && (c[t].size >= size ==> goal == Goal(TakeBlock(c, t, size), Some(c[t].addr + META), p + 1))
  {
    OneRoundLess(b, k, n, size);
  }

  /** The round is over: the next one is due, or the block is large enough. */
  lemma RoundLeads(s: Memory, p: nat, b: seq<Block>, size: int, k: nat, n: nat, goal: Goal,
                   m: Memory, mem: seq<int>, page: Page, r: Memory)
    requires Going(s, p, b, size, k, n, goal) && Did(s, p, m, p + 1, mem)
    requires Tagged(s) && mem == Image(s, s.current, p) + page && s.freeMem + s.freeSwap > 0
    requires RoomFits(mem, b, k, n) && Did(m, p + 1, r, p + 1, RoomBytes(mem, b, k, n))
    requires Sized(m) && InPlace(m, p) && InPlace(m, 0)
    ensures
      var c, t := AddPage(b, k, n), Target(b, k);
      && Changed(s, p, b, r, p + 1, c) && HeapStored(r, p + 1, c) && Live(c) == Live(b)
      && t == |c| - 1 && c[t].free
      && (c[t].size < size ==> Going(r, p + 1, c, size, k, n + 1, goal))
      && (c[t].size >= size ==> goal == Goal(TakeBlock(c, t, size), Some(c[t].addr + META), p + 1))
  {
    hide Ready, Image, Stores, GrowLoop, InPlace, PayloadKept, Live, RoomBytes, OnlyLastFree, AddPage, Tiled,
      RoundDue, RoundsLeft, TakeBlock;
    RoundBelowGoing(s, p, b, size, k, n, goal);
    RoundStored(s, p, b, size, k, n, goal, m, mem, page);
    StoredParts(s, p, b);
    var c := AddPage(b, k, n);
    DidFurther(s, p, m, p + 1, mem, r, p + 1, RoomBytes(mem, b, k, n));
    ChangedIs(s, p, b, r, p + 1, RoomBytes(mem, b, k, n), c);
    StoredIs(s, p, r, p + 1, RoomBytes(mem, b, k, n), c);
    GoalFurther(b, size, k, n, s.freeMem + s.freeSwap, p, goal);
    CountersStay(m, p + 1, r, RoomBytes(mem, b, k, n), s, p, mem);
    PlacesStay(m, p + 1, r, RoomBytes(mem, b, k, n), p);
    PlacesStay(m, p + 1, r, RoomBytes(mem, b, k, n), 0);
    AddPageSame(b, k, n);
  }

  lemma AddPageSame(b: seq<Block>, k: nat, n: nat)
    requires NearEnd(b, k, n) && n >= 1
    ensures k < |AddPage(b, k, n)| && AddPage(b, k, n)[k].addr == b[k].addr
  {
  }

  lemma RoundBelowGoing(s: Memory, p: nat, b: seq<Block>, size: int, k: nat, n: nat, goal: Goal)
    requires Going(s, p, b, size, k, n, goal)
    ensures FIRST_USER_PAGE + p < FIRST_SWAP_PAGE && n >= 1
  {
    hide HeapStored, InPlace;
    RoundBelow(b, size, k, n, p);
  }

  lemma StoredIs(s: Memory, p: nat, r: Memory, q: nat, mem: seq<int>, c: seq<Block>)
    requires Did(s, p, r, q, mem) && Stores(mem, c) && Tiled(c, q) && OnlyLastFree(c)
    requires FIRST_USER_PAGE + q <= FIRST_SWAP_PAGE
    ensures HeapStored(r, q, c)
  {
    hide Ready, Stores, Image, OnlyLastFree;
    DidParts(s, p, r, q, mem);
    TiledTiles(c, q);
  }

  lemma CountersStay(m: Memory, q: nat, r: Memory, mem': seq<int>, s: Memory, p: nat, mem: seq<int>)
    requires Did(s, p, m, p + 1, mem) && q == p + 1 && Did(m, q, r, q, mem')
    ensures r.freeMem + r.freeSwap == s.freeMem + s.freeSwap - 1 && r.freeMem >= 0 && r.freeSwap >= 0
  {
    hide Image, OthersSame, PlacesKept;
    DidParts(m, q, r, q, mem');
    ReadyAccounted(r, q);
    FullIff(r);
  }

  lemma PlacesStay(m: Memory, q: nat, r: Memory, mem: seq<int>, n: int)
    requires Did(m, q, r, q, mem) && Sized(m) && InPlace(m, n)
    ensures Sized(r) && InPlace(r, n)
  {
    hide Image, OthersSame, InPlace;
    DidParts(m, q, r, q, mem);
    ReadySized(r, q);
  }

  /** A block of the heap that fits is handed out. */
  lemma TakenChanged(s: Memory, p: nat, b: seq<Block>, k: nat, size: int, r: Memory)
    requires HeapStored(s, p, b) && k < |b| && Fits(b[k], size) && 0 < size && k == |b| - 1
    ensures Tagged(s) && 0 <= b[k].addr && End(b[k]) <= p * PAGE_SIZE < WORD
    ensures HeaderAt(Image(s, s.current, p), b[k], 0)
    ensures
      0 < b[k].size && Did(s, p, r, p, TakeBytes(Image(s, s.current, p), b[k], size)) ==>
        Changed(s, p, b, r, p, TakeBlock(b, k, size)) && HeapStored(r, p, TakeBlock(b, k, size))
  {
    hide Ready, Image, Did, TakeBytes, PayloadKept, TakeBlock, HeaderAt, OnlyLastFree, Changed, Live, Handed;
    StoredParts(s, p, b);
    var mem := Image(s, s.current, p);
    TiledIsInside(b, p, k);
    StoredHeader(mem, b, k);
    TakeStores(mem, b, p, k, size);
    TakeBlockHands(b, p, k, size);
    TakeBlockKeepsOnlyLast(b, size);
    if Did(s, p, r, p, TakeBytes(mem, b[k], size)) {
      ChangedIs(s, p, b, r, p, TakeBytes(mem, b[k], size), TakeBlock(b, k, size));
      StoredIs(s, p, r, p, TakeBytes(mem, b[k], size), TakeBlock(b, k, size));
    }
  }

  lemma GoalOf(b: seq<Block>, size: int, freeMem: nat, freeSwap: nat, p: nat) returns (goal: Goal)
    requires b != [] && Placed(b) && 0 < size <= USER_SIZE - META && NeedsGrowth(b, size, freeMem, freeSwap)
    requires OnlyLastFree(b)
    ensures
      var k := |b| - 1;
      && FirstFit(b, size) == k && RoundDue(b, k, 1, size) && NearEnd(b, k, 1)
      && var g := GrowLoop(b, size, k, 1, freeMem + freeSwap);
         goal == Goal(g.blocks, g.ptr, p + g.taken)
    ensures var o := Allocate(b, size, freeMem, freeSwap); goal == Goal(o.blocks, o.ptr, p + o.taken)
  {
    FirstFitIsLast(b, size);
    var o := Allocate(b, size, freeMem, freeSwap);
    goal := Goal(o.blocks, o.ptr, p + o.taken);
  }

  /** The traversal over, growth can start. */
  lemma GrowthStarts(s: Memory, p: nat, b: seq<Block>, size: int, m: Memory) returns (goal: Goal)
    requires HeapStored(s, p, b) && b != [] && Tagged(s) && Did(s, p, m, p, Image(s, s.current, p))
    requires 0 < size <= USER_SIZE - META && NeedsGrowth(b, size, s.freeMem, s.freeSwap) && MayGrow(b, size)
    requires Sized(m) && InPlace(m, PageOf(b[|b| - 1].addr)) && InPlace(m, 0) && s.freeMem >= 0 && s.freeSwap >= 0
    ensures Going(m, p, b, size, |b| - 1, 1, goal) && Placed(b)
    ensures var o := Allocate(b, size, s.freeMem, s.freeSwap); goal == Goal(o.blocks, o.ptr, p + o.taken)
    ensures Changed(s, p, b, m, p, b)
  {
    hide Ready, Image, Stores, GrowLoop, InPlace, PayloadKept, OnlyLastFree, Did;
    StoredParts(s, p, b);
    DidParts(s, p, m, p, Image(s, s.current, p));
    TiledIsPlaced(b, p);
    goal := GoalOf(b, size, s.freeMem, s.freeSwap, p);
    LastPage(b, p);
    SamePayload(Image(s, s.current, p), b);
    ChangedIs(s, p, b, m, p, Image(s, s.current, p), b);
    StoredIs(s, p, m, p, Image(s, s.current, p), b);
  }

  lemma LastPage(b: seq<Block>, p: nat)
    requires Tiled(b, p) && b[|b| - 1].size <= PAGE_SIZE - META
    ensures PageOf(b[|b| - 1].addr) == p - 1 && p > 0
  {
    HeaderInLastPageIff(b, p);
  }

  lemma SamePayload(mem: seq<int>, b: seq<Block>)
    ensures PayloadKept(mem, mem, b)
  {
  }

  /**
   * The first round of growth leaves a heap exactly when the last block is no larger than a page:
   * else its header is not in the last page, and the table names one of the thread's pages twice.
   */
  lemma FirstRoundKeepsHeapIff(s: Memory, p: nat, b: seq<Block>, size: int)
    requires HeapStored(s, p, b) && b != [] && RoundDue(b, |b| - 1, 1, size) && s.freeMem + s.freeSwap > 0
    requires Sized(s) && InPlace(s, PageOf(b[|b| - 1].addr)) && InPlace(s, 0)
    ensures FIRST_USER_PAGE < FIRST_USER_PAGE + PageOf(b[|b| - 1].addr) + 1 < FIRST_SWAP_PAGE
    ensures
      var k := |b| - 1;
      var m, c := Grow(s, FIRST_USER_PAGE + PageOf(b[k].addr) + 1).0, AddPage(b, k, 1);
      (exists q: nat :: Ready(m, q) && Tiled(c, q)) <==> b[k].size <= PAGE_SIZE - META
  {
    hide Ready, Image, Did, Stores, Grow, Tiled, InPlace, AddPage;
    var k := |b| - 1;
    StoredParts(s, p, b);
    TiledIsInside(b, p, k);
    HeaderInLastPageIff(b, p);
    var n := PageOf(b[k].addr);
    FirstRoundInMemory(b, size);
    var m, c := Grow(s, FIRST_USER_PAGE + n + 1).0, AddPage(b, k, 1);
    if b[k].size <= PAGE_SIZE - META {
      GrowDid(s, p);
      var page: Page :| Did(s, p, m, p + 1, Image(s, s.current, p) + page);
      DidParts(s, p, m, p + 1, Image(s, s.current, p) + page);
      RoundKeepsList(b, p, k, 1);
      assert Ready(m, p + 1) && Tiled(c, p + 1);
    } else {
      LastPageIsBehind(b, p);
      OwnedTwice(s, p, n);
      if q: nat :| Ready(m, q) && Tiled(c, q) {
        ReadySized(m, q);
      }
    }
  }

  lemma FirstRoundInMemory(b: seq<Block>, size: int)
    requires b != [] && RoundDue(b, |b| - 1, 1, size)
    ensures 0 <= PageOf(b[|b| - 1].addr) && FIRST_USER_PAGE + PageOf(b[|b| - 1].addr) + 1 < FIRST_SWAP_PAGE
  {
  }

  lemma LastPageIsBehind(b: seq<Block>, p: nat)
    requires Tiled(b, p) && b[|b| - 1].size > PAGE_SIZE - META
    ensures PageOf(b[|b| - 1].addr) + 1 < p
  {
    TiledIsInside(b, p, |b| - 1);
  }

  /** Growth from page n, when the thread has page n + 1 already. */
  lemma OwnedTwice(s: Memory, p: nat, n: nat)
    requires Ready(s, p) && s.freeMem + s.freeSwap > 0 && Sized(s) && InPlace(s, n)
    requires n + 1 < p && FIRST_USER_PAGE + n + 1 < FIRST_SWAP_PAGE
    ensures !Unique(Grow(s, FIRST_USER_PAGE + n + 1).0)
  {
    hide View, Image, Grow, Inv, Layered, PlacedOpen, HeadOpen;
    ReadySized(s, p);
    ReadyAccounted(s, p);
    FullIff(s);
    PlaceIsUsed(s, n);
    GrowAddsOne(s, FIRST_USER_PAGE + n + 1);
    assert (s.current, n + 1) in View(s) <==> 0 <= n + 1 < p;
  }

  // ---------------------------------------------------------------- freeing

  lemma DeallocateCases(b: seq<Block>, ptr: int, k: nat)
    requires k == Locate(b, ptr - META)
    ensures
      Deallocate(b, ptr) ==
      if !Frees(b, ptr, k) then b
      else if k + 1 == |b| then b[k := b[k].(free := true)]
      else if b[k + 1].free then Merge(b, k)
      else b
  {
  }

  /** The stores of mydeallocate make the list what the list operation makes it. */
  lemma FreeStores(mem: seq<int>, b: seq<Block>, p: nat, k: nat, ptr: int)
    requires Stores(mem, b) && Tiled(b, p) && |mem| == p * PAGE_SIZE < WORD && Frees(b, ptr, k)
    ensures HeadersIn(b, |mem|)
    ensures Stores(FreeBytes(mem, b, k), Deallocate(b, ptr)) && PayloadKept(mem, FreeBytes(mem, b, k), b)
  {
    hide Stores, Tiled, PayloadKept, Deallocate, MergeBytes, SetFree;
    TiledTiles(b, p);
    TiledHeadersIn(b, p);
    DeallocateCases(b, ptr, k);
    SamePayload(mem, b);
    if k + 1 == |b| {
      FlagStores(mem, b, p, k, true);
    } else if b[k + 1].free {
      MergeStores(mem, b, p, k);
    }
  }

  /** A block in front of a used one is used itself, so a prev that names one is harmless. */
  lemma PrevInFrontIsHarmless(mem: seq<int>, b: seq<Block>, p: nat, k: nat, ptr: int, j: nat)
    requires Stores(mem, b) && Tiled(b, p) && OnlyLastFree(b) && |mem| == p * PAGE_SIZE < WORD
    requires Frees(b, ptr, k) && j < k
    ensures HeadersIn(b, |mem|) && Harmless(FreeBytes(mem, b, k), b[j].addr)
  {
    hide Stores, PayloadKept, Deallocate, MergeBytes, SetFree, Tiled, FreeBytes, FieldsAt;
    FreeStores(mem, b, p, k, ptr);
    DeallocateCases(b, ptr, k);
    var c := Deallocate(b, ptr);
    assert j < |c| && c[j] == b[j] && !b[j].free;
    StoredHeader(FreeBytes(mem, b, k), c, j);
  }

  /**
   * The header that a free leaves is the last one. So where its prev is not harmless, the
   * backward merge (myallocate.c:400) stores through NULL.
   */
  lemma FreedBlockIsLast(mem: seq<int>, b: seq<Block>, p: nat, k: nat, ptr: int)
    requires Stores(mem, b) && Tiled(b, p) && OnlyLastFree(b) && |mem| == p * PAGE_SIZE < WORD
    requires Frees(b, ptr, k) && Deallocate(b, ptr) != b
    ensures HeadersIn(b, |mem|) && 0 <= b[k].addr && b[k].addr + META <= |mem|
    ensures FieldsAt(FreeBytes(mem, b, k), b[k].addr).next == 0
  {
    hide Stores, PayloadKept, Deallocate, MergeBytes, SetFree, Tiled, FreeBytes, FieldsAt;
    FreeStores(mem, b, p, k, ptr);
    DeallocateCases(b, ptr, k);
    var c := Deallocate(b, ptr);
    assert k == |c| - 1 && c[k].addr == b[k].addr;
    StoredHeader(FreeBytes(mem, b, k), c, k);
    StoredHeader(mem, b, k);
  }

  /** organizeMem leaves in prev of the new header whatever bytes lay there. */
  lemma SplitLeavesPrev(mem: seq<int>, e: Block, size: int, next: int)
    requires HeaderAt(mem, e, next) && 0 < size && e.size > size + META && End(e) <= |mem| < WORD && 0 <= next < WORD
    ensures PrevAt(SplitBytes(mem, e, size), e.addr + META + size) == PrevAt(mem, e.addr + META + size)
  {
    hide Within, HeaderAt, Value, Digits;
    FieldsOfBlock(mem, e, next);
    SplitParts(mem, e, size, next);
    var rest := e.addr + META + size;
    var m1 := SetSize(mem, rest, e.size - META - size);
    var m2 := SetFree(m1, rest, 1);
    PutElsewhere(mem, rest + SIZE, Digits(e.size - META - size, 4), rest + PREV, 8);
    PutElsewhere(m1, rest + IS_FREE, Digits(1, 4), rest + PREV, 8);
    PutElsewhere(m2, rest + NEXT, Digits(next, 8), rest + PREV, 8);
    AtElsewhere(RestBytes(mem, e, size), SplitBytes(mem, e, size), e.addr, e.addr + META, rest + PREV, 8);
  }

  /** Growth sets prev of the header it writes: to the block in front. */
  lemma GrowthSetsPrev(mem: seq<int>, e: Block)
    requires 0 <= e.addr < WORD && e.addr + META <= NewHeader(e) && NewHeader(e) + META <= |mem|
    ensures PrevAt(NewPageBytes(mem, e), (e.addr / PAGE_SIZE + 1) * PAGE_SIZE) == e.addr
  {
    hide Value, Digits;
    var a := NewHeader(e);
    WordFits(e.addr);
    var m1 := SetPrev(SetNext(mem, a, 0), a, e.addr);
    PutThenAt(SetNext(mem, a, 0), a + PREV, Digits(e.addr, 8));
    PutElsewhere(m1, a + IS_FREE, Digits(1, 4), a + PREV, 8);
    var m2 := SetFree(m1, a, 1);
    PutElsewhere(m2, a + SIZE, Digits(PAGE_SIZE - META, 4), a + PREV, 8);
    PutElsewhere(SetSize(m2, a, PAGE_SIZE - META), e.addr + NEXT, Digits(a, 8), a + PREV, 8);
  }

  lemma FieldsOfBlock(mem: seq<int>, e: Block, next: int)
    requires HeaderAt(mem, e, next)
    ensures 0 <= e.addr && e.addr + META <= |mem| && FieldsAt(mem, e.addr).next == next
  {
  }

  /** getHead does not change what the caller of mydeallocate has seen to. */
  lemma HeadKeepsPrevOk(s: Memory, p: nat, b: seq<Block>, ptr: int)
    requires HeapStored(s, p, b) && MayFree(s, p, b, Some(ptr)) && GetHead(s, MALLOC_FLAG).1
    ensures
      var m, q := GetHead(s, MALLOC_FLAG).0, if b == [] then 1 else p;
      Tagged(m) && PrevOk(Image(m, m.current, q), Headed(b), ptr)
  {
    hide Ready, Image, Did, Stores, GetHead, InPlace, Changed, Harmless, HeadInSwap, FreeBytes;
    StoredParts(s, p, b);
    HeadStored(s, p, b);
    StoredParts(GetHead(s, MALLOC_FLAG).0, if b == [] then 1 else p, Headed(b));
  }

  /** What freeing leaves in memory. */
  lemma FreedChanged(s: Memory, p: nat, b: seq<Block>, ptr: int, k: nat, r: Memory)
    requires HeapStored(s, p, b) && b != [] && k == Locate(b, ptr - META) && Frees(b, ptr, k)
    ensures Tagged(s) && HeadersIn(b, p * PAGE_SIZE)
    ensures
      Did(s, p, r, p, FreeBytes(Image(s, s.current, p), b, k)) ==>
        Changed(s, p, b, r, p, Deallocate(b, ptr)) && HeapStored(r, p, Deallocate(b, ptr))
  {
    hide Ready, Image, Did, Stores, Changed, FreeBytes, PayloadKept, Deallocate, OnlyLastFree;
    StoredParts(s, p, b);
    TiledHeadersIn(b, p);
    var mem := Image(s, s.current, p);
    FreeStores(mem, b, p, k, ptr);
    DeallocateTiles(b, p, ptr);
    DeallocateKeepsOnlyLast(b, ptr);
    if Did(s, p, r, p, FreeBytes(mem, b, k)) {
      ChangedIs(s, p, b, r, p, FreeBytes(mem, b, k), Deallocate(b, ptr));
      StoredIs(s, p, r, p, FreeBytes(mem, b, k), Deallocate(b, ptr));
    }
  }
}
