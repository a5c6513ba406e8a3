/**
 * Every step that a thread may take has an outcome: whatever the list and the frames look like,
 * there is a memory that the call can leave, so no thread is ever stuck in its heap.
 */
module Progress {
  import opened PageTable
  import opened PagingMoves
  import opened PagingRuns
  import opened AddressSpace
  import opened BlockList
  import opened Headers
  import opened Allocator
  import opened ThreadSpace
  import opened HeapCalls
  import opened SharedHeaps

  /** Whatever the bytes are to be, stores make them so. */
  lemma Rewritten(s: Memory, p: nat, mem: seq<int>) returns (r: Memory)
    requires Ready(s, p) && |mem| == p * PAGE_SIZE
    ensures Did(s, p, r, p, mem)
  {
    hide Did, Image, Addressable, Owns, PokeBytes;
    ReadySized(s, p);
    r := PokeBytes(s, 0, mem);
    PokeBytesDid(s, p, 0, mem);
    assert Put(Image(s, s.current, p), 0, mem) == mem;
  }

  lemma TakeCan(s: Memory, p: nat, b: seq<Block>, k: nat, size: int) returns (r: Memory)
    requires HeapStored(s, p, b) && k < |b| && Fits(b[k], size) && 0 < size && k == |b| - 1
    ensures Changed(s, p, b, r, p, TakeBlock(b, k, size))
  {
    hide HeapStored, Changed, Ready, Did, Image, HeaderAt, TakeBlock, TakeBytes;
    TakenChanged(s, p, b, k, size, s);
    StoredReady(s, p, b);
    r := Rewritten(s, p, TakeBytes(Image(s, s.current, p), b[k], size));
    TakenChanged(s, p, b, k, size, r);
  }

  lemma UnchangedHeap(s: Memory, p: nat, b: seq<Block>)
    requires HeapStored(s, p, b)
    ensures Changed(s, p, b, s, p, b)
  {
    hide Ready, Image, Stores, PayloadKept, Did;
    StoredParts(s, p, b);
    DidNothing(s, p);
    SamePayload(Image(s, s.current, p), b);
    ChangedIs(s, p, b, s, p, Image(s, s.current, p), b);
  }

  lemma GoingParts(s: Memory, p: nat, b: seq<Block>, size: int, k: nat, n: nat, goal: Goal)
    requires Going(s, p, b, size, k, n, goal)
    ensures HeapStored(s, p, b) && Tagged(s) && size > 0 && p <= goal.pages && NearEnd(b, k, n) && n >= 1
  {
    hide Ready, Stores, Image, InPlace, RoundsLeft, Tiles, NearEnd;
    StoredParts(s, p, b);
  }

  /** The rounds of the growth loop reach the goal. */
  lemma {:induction false} GrowCan(s: Memory, p: nat, b: seq<Block>, size: int, k: nat, n: nat, goal: Goal)
    returns (r: Memory)
    requires Going(s, p, b, size, k, n, goal)
    ensures Changed(s, p, b, r, goal.pages, goal.blocks)
    decreases goal.pages - p
  {
    hide Going, HeapStored, Changed, Did, Image, Grow, InPlace;
    GoingParts(s, p, b, size, k, n, goal);
    RoundStarts(s, p, b, size, k, n, goal);
    var (m, grown) := Grow(s, FIRST_USER_PAGE + p);
    if !grown {
      UnchangedHeap(s, p, b);
      r := s;
    } else {
      var page: Page :| Did(s, p, m, p + 1, Image(s, s.current, p) + page);
      r := RoundCan(s, p, b, size, k, n, goal, m, Image(s, s.current, p) + page, page);
    }
  }

  lemma {:induction false} RoundCan(s: Memory, p: nat, b: seq<Block>, size: int, k: nat, n: nat, goal: Goal,
                                    m: Memory, mem: seq<int>, page: Page) returns (r: Memory)
    requires Going(s, p, b, size, k, n, goal) && Did(s, p, m, p + 1, mem)
    requires Tagged(s) && mem == Image(s, s.current, p) + page && s.freeMem + s.freeSwap > 0
    requires Sized(m) && InPlace(m, p) && InPlace(m, 0)
    ensures Changed(s, p, b, r, goal.pages, goal.blocks)
    decreases goal.pages - p, 0
  {
    hide Going, HeapStored, Changed, Did, Image, InPlace, Ready, RoomBytes, AddPage, TakeBlock, Live, Stores,
      PayloadKept, Tiled, OnlyLastFree;
    GoingParts(s, p, b, size, k, n, goal);
    RoundStored(s, p, b, size, k, n, goal, m, mem, page);
    DidParts(s, p, m, p + 1, mem);
    var r1 := Rewritten(m, p + 1, RoomBytes(mem, b, k, n));
    RoundLeads(s, p, b, size, k, n, goal, m, mem, page, r1);
    var c, t := AddPage(b, k, n), Target(b, k);
    if c[t].size < size {
      GoingParts(r1, p + 1, c, size, k, n + 1, goal);
      r := GrowCan(r1, p + 1, c, size, k, n + 1, goal);
    } else {
      r := TakeCan(r1, p + 1, c, t, size);
    }
    ChangedFurther(s, p, b, r1, p + 1, c, r, goal.pages, goal.blocks);
  }

  /** myallocate, on any heap from which it may be called. */
  lemma MallocCan(s: Memory, p: nat, b: seq<Block>, size: int)
    returns (r: Memory, q: nat, c: seq<Block>, ptr: Option<int>)
    requires HeapStored(s, p, b) && Sized(s) && MayMalloc(s, b, size)
    ensures MallocDid(s, p, b, size, r, q, c, ptr)
  {
    hide HeapStored, Changed, GetHead, InPlace, Live, Allocate, NeedsGrowth, MayGrow, HeadInSwap;
    var (m, found) := GetHead(s, MALLOC_FLAG);
    if size <= 0 || size > USER_SIZE - META || !found {
      r, q, c, ptr := s, p, b, None;
    } else {
      HeadStored(s, p, b);
      var h, q0 := Headed(b), if b == [] then 1 else p;
      r, q, c, ptr := AllocateCan(m, q0, h, size);
      LiveHeaded(b);
      ChangedFurther(s, p, b, m, q0, h, r, q, c);
    }
  }

  lemma AllocateCan(s: Memory, p: nat, b: seq<Block>, size: int)
    returns (r: Memory, q: nat, c: seq<Block>, ptr: Option<int>)
    requires HeapStored(s, p, b) && b != [] && 0 < size <= USER_SIZE - META && Sized(s) && InPlace(s, 0)
    requires NeedsGrowth(b, size, s.freeMem, s.freeSwap) ==> MayGrow(b, size)
    ensures Changed(s, p, b, r, q, c) && Placed(b) && s.freeMem >= 0 && s.freeSwap >= 0
    ensures var o := Allocate(b, size, s.freeMem, s.freeSwap); c == o.blocks && ptr == o.ptr && q == p + o.taken
  {
    hide HeapStored, Changed, InPlace, MayGrow, Refused, Tiles, TakeBlock, Going, Allocate, Stores, Image, Ready,
      NeedsGrowth, Placed, OnlyLastFree, Tiled;
    StoredParts(s, p, b);
    NotEmptyTiled(b, p);
    TiledIsPlaced(b, p);
    StoredReady(s, p, b);
    ReadyCounts(s, p);
    StoredEnd(s, p, b, size);
    AllocateCases(b, size, s.freeMem, s.freeSwap);
    var o := Allocate(b, size, s.freeMem, s.freeSwap);
    q, c, ptr := p + o.taken, o.blocks, o.ptr;
    var k := FirstFit(b, size);
    if Fits(b[k], size) {
      r := TakeCan(s, p, b, k, size);
    } else if Refused(b, k, s.freeMem, s.freeSwap, size) {
      UnchangedHeap(s, p, b);
      r := s;
    } else {
      r := GrowthCan(s, p, b, size);
    }
  }

  lemma AllocateCases(b: seq<Block>, size: int, freeMem: nat, freeSwap: nat)
    requires b != [] && Placed(b) && 0 < size <= USER_SIZE - META
    ensures
      var o, k := Allocate(b, size, freeMem, freeSwap), FirstFit(b, size);
      && (Fits(b[k], size) ==> o == Outcome(TakeBlock(b, k, size), Some(b[k].addr + META), 0))
      && (!Fits(b[k], size) && Refused(b, k, freeMem, freeSwap, size) ==> o == Outcome(b, None, 0))
      && (NeedsGrowth(b, size, freeMem, freeSwap) <==>
            !Fits(b[k], size) && !Refused(b, k, freeMem, freeSwap, size))
  {
    hide GrowLoop, TakeBlock;
  }

  lemma NotEmptyTiled(b: seq<Block>, p: nat)
    requires Tiles(b, p) && b != []
    ensures Tiled(b, p)
  {
  }

  /** The load of the last header brings its page in place, and growth starts from there. */
  lemma GrowthCan(s: Memory, p: nat, b: seq<Block>, size: int) returns (r: Memory)
    requires HeapStored(s, p, b) && b != [] && Placed(b) && 0 < size <= USER_SIZE - META && Sized(s) && InPlace(s, 0)
    requires NeedsGrowth(b, size, s.freeMem, s.freeSwap) && MayGrow(b, size) && s.freeMem >= 0 && s.freeSwap >= 0
    ensures
      var o := Allocate(b, size, s.freeMem, s.freeSwap);
      Changed(s, p, b, r, p + o.taken, o.blocks)
  {
    hide HeapStored, Changed, InPlace, MayGrow, Allocate, NeedsGrowth, Going, Did, Image, Ready, Live, Touch;
    StoredParts(s, p, b);
    StoredReady(s, p, b);
    TiledIsInside(b, p, |b| - 1);
    var a := b[|b| - 1].addr;
    LoadReads(s, p, a);
    var m := Touch(s, a / PAGE_SIZE);
    DidParts(s, p, m, p, Image(s, s.current, p));
    FirstStaysInPlace(s, m);
    var goal := GrowthStarts(s, p, b, size, m);
    r := GrowCan(m, p, b, size, |b| - 1, 1, goal);
    ChangedFurther(s, p, b, m, p, b, r, goal.pages, goal.blocks);
  }

  /** mydeallocate. */
  lemma FreeCan(s: Memory, p: nat, b: seq<Block>, ptr: Option<int>) returns (r: Memory, q: nat, c: seq<Block>)
    requires HeapStored(s, p, b) && Tagged(s) && MayFree(s, p, b, ptr)
    ensures FreeDid(s, p, b, ptr, r, q, c)
  {
    hide HeapStored, Changed, GetHead, InPlace, Live, Deallocate, PrevOk, HeadInSwap;
    SameFlags(s);
    HeadStored(s, p, b);
    var (m, found) := GetHead(s, FREE_FLAG);
    if !found {
      r, q, c := s, p, b;
    } else {
      var h := Headed(b);
      q := if b == [] then 1 else p;
      if ptr.None? {
        r, c := m, h;
      } else {
        c := Deallocate(h, ptr.value);
        r := DeallocateCan(m, q, h, ptr.value);
        LiveHeaded(b);
        ChangedFurther(s, p, b, m, q, h, r, q, c);
      }
    }
  }

  lemma SameFlags(s: Memory)
    requires Sized(s)
    ensures GetHead(s, FREE_FLAG) == GetHead(s, MALLOC_FLAG)
  {
  }

  lemma DeallocateCan(s: Memory, p: nat, b: seq<Block>, ptr: int) returns (r: Memory)
    requires HeapStored(s, p, b) && b != []
    ensures Changed(s, p, b, r, p, Deallocate(b, ptr))
  {
    hide HeapStored, Changed, Did, Image, FreeBytes, Deallocate, Ready;
    var k := Locate(b, ptr - META);
    DeallocateCases(b, ptr, k);
    StoredReady(s, p, b);
    if Frees(b, ptr, k) {
      FreedChanged(s, p, b, ptr, k, s);
      r := Rewritten(s, p, FreeBytes(Image(s, s.current, p), b, k));
      FreedChanged(s, p, b, ptr, k, r);
    } else {
      UnchangedHeap(s, p, b);
      r := s;
    }
  }

  /** No thread is stuck: every step that is allowed leads somewhere, and so to a world like the one before. */
  lemma StepCan(w: World, step: SharedHeaps.Step) returns (r: World)
    requires WorldOk(w) && Tagged(w.memory) && SharedHeaps.Allowed(w, step)
    ensures StepsTo(w, step, r) && WorldOk(r)
  {
    hide WorldOk, Tagged, HeapStored, MayMalloc, MayFree, MallocDid, FreeDid, Switch, Touch, Poke, View, Writable,
      OwnedBy, Owns;
    var s, b := w.memory, HeapOf(w, w.memory.current);
    var p := CurrentHeap(w);
    StoredReady(s, p, b);
    match step {
      case Malloc(size) =>
        var m, q, c, ptr := MallocCan(s, p, b, size);
        r := World(m, w.heaps[s.current := c]);
        assert MallocDid(s, p, b, size, r.memory, q, c, ptr) && NewHeap(w, r, c);
      case Release(ptr) =>
        var p0: nat :| Owns(s, p0) && MayFree(s, p0, b, ptr);
        OwnsIs(s, p);
        OwnsIs(s, p0);
        StoredOwns(s, p, b);
        OwnsOnce(s, s.current, p, p0);
        var m, q, c := FreeCan(s, p, b, ptr);
        r := World(m, w.heaps[s.current := c]);
        assert FreeDid(s, p, b, ptr, r.memory, q, c) && NewHeap(w, r, c);
      case SwitchTo(to) => r := w.(memory := Switch(s, to));
      case Read(a) => r := w.(memory := Touch(s, a / PAGE_SIZE));
      case Write(a, v) => r := w.(memory := Poke(s, a, v));
      case Adopt(id) => r := w.(memory := s.(current := id));
    }
    StepKeepsWorld(w, step, r);
  }

  lemma StoredOwns(s: Memory, p: nat, b: seq<Block>)
    requires HeapStored(s, p, b) && Tagged(s)
    ensures Owns(s, p)
  {
  }
}
