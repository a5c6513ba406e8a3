/**
 * myallocate and mydeallocate on the block list of one thread: which block is handed out, how
 * many pages the growth loop takes, and when a request succeeds. `free` is the number of
 * frames that are not in use, in memory and in the swap file.
 */
module Allocator {
  import opened PageTable
  import opened BlockList

  /** The list after a call, the pointer it returns, and the pages it took. */
  datatype Outcome = Outcome(blocks: seq<Block>, ptr: Option<int>, taken: nat)

  /** The checks for insufficient memory before growth; block k is the last one. */
  predicate Refused(b: seq<Block>, k: nat, freeMem: int, freeSwap: int, size: int)
    requires k < |b|
  {
    || (!b[k].free && size + META > freeMem * PAGE_SIZE && size + META > freeSwap * PAGE_SIZE)
    || (b[k].size < size && size > b[k].size + freeMem * PAGE_SIZE && size > b[k].size + freeSwap * PAGE_SIZE)
    || FIRST_USER_PAGE * PAGE_SIZE + b[k].addr + PAGE_SIZE >= MEMORY_PAGES * PAGE_SIZE
  }

  /** The block that growth makes large enough. */
  function Target(b: seq<Block>, k: nat): nat
    requires k < |b|
  {
    if b[k].free then k else k + 1
  }

  /** The n-th round is due: the request is still larger than what the rounds before it made. */
  predicate RoundDue(b: seq<Block>, k: nat, n: nat, size: int) {
    && k < |b| && 1 <= n && 0 < size <= USER_SIZE - META
    && 0 <= b[k].addr && FIRST_USER_PAGE * PAGE_SIZE + b[k].addr + PAGE_SIZE < MEMORY_PAGES * PAGE_SIZE
    && (if n == 1 then k + 1 == |b| && (b[k].free ==> 0 < b[k].size < size)
        else Target(b, k) < |b| && PAGE_SIZE * (n - 1) - META <= b[Target(b, k)].size < size)
  }

  /** The loop that takes a page and tries again. */
  function GrowLoop(b: seq<Block>, size: int, k: nat, n: nat, free: nat): (r: Outcome)
    requires RoundDue(b, k, n, size)
    decreases free
  {
    if free == 0 then Outcome(b, None, 0)
    else
      var c, t := AddPage(b, k, n), Target(b, k);
      if c[t].size < size then
        var r := GrowLoop(c, size, k, n + 1, free - 1);
        r.(taken := r.taken + 1)
      else Outcome(TakeBlock(c, t, size), Some(c[t].addr + META), 1)
  }

  predicate Placed(b: seq<Block>) {
    forall i :: 0 <= i < |b| ==> 0 <= b[i].addr && 0 < b[i].size
  }

  /** myallocate behind getHead. */
  function Allocate(b: seq<Block>, size: int, freeMem: nat, freeSwap: nat): Outcome
    requires b != [] && Placed(b) && 0 < size <= USER_SIZE - META
  {
    var k := FirstFit(b, size);
    if Fits(b[k], size) then Outcome(TakeBlock(b, k, size), Some(b[k].addr + META), 0)
    else if Refused(b, k, freeMem, freeSwap, size) then Outcome(b, None, 0)
    else GrowLoop(b, size, k, 1, freeMem + freeSwap)
  }

  /** initMem makes one free block of a thread's first page. */
  function FirstBlock(): seq<Block> {
    [Block(0, PAGE_SIZE - META, true)]
  }

  function Headed(b: seq<Block>): seq<Block> {
    if b == [] then FirstBlock() else b
  }

  // ---------------------------------------------------------------- when a request succeeds

  /** How many rounds of growth the request still needs at its n-th. */
  function RoundsLeft(b: seq<Block>, k: nat, n: nat, size: int): int
    requires k < |b| && (n != 1 && !b[k].free ==> k + 1 < |b|)
  {
    if b[k].free then (size - b[k].size + PAGE_SIZE - 1) / PAGE_SIZE
    else if n == 1 then (size + META + PAGE_SIZE - 1) / PAGE_SIZE
    else (size - b[k + 1].size + PAGE_SIZE - 1) / PAGE_SIZE
  }

  lemma OneRoundLess(b: seq<Block>, k: nat, n: nat, size: int)
    requires RoundDue(b, k, n, size)
    ensures
      var c, t := AddPage(b, k, n), Target(b, k);
      && RoundsLeft(b, k, n, size) > 0 && (c[t].size < size <==> RoundsLeft(b, k, n, size) > 1)
      && (c[t].size < size ==> RoundsLeft(c, k, n + 1, size) == RoundsLeft(b, k, n, size) - 1)
  {
  }

  /** Growth succeeds exactly when there are frames enough, and takes no more than it needs; else it takes them all. */
  lemma {:induction false} GrowSucceedsIff(b: seq<Block>, size: int, k: nat, n: nat, free: nat)
    requires RoundDue(b, k, n, size)
    ensures
      var r, needed := GrowLoop(b, size, k, n, free), RoundsLeft(b, k, n, size);
      && (r.ptr.Some? <==> needed <= free)
      && r.taken == if needed <= free then needed else free
    decreases free
  {
    OneRoundLess(b, k, n, size);
    if free > 0 && AddPage(b, k, n)[Target(b, k)].size < size {
      GrowSucceedsIff(AddPage(b, k, n), size, k, n + 1, free - 1);
    }
  }

  /**
   * A request succeeds exactly when a block fits, or the checks let it through and the frames
   * not in use are enough for the growth. One that is let through and fails has taken them all.
   */
  lemma AllocateSucceedsIff(b: seq<Block>, size: int, freeMem: nat, freeSwap: nat)
    requires b != [] && Placed(b) && 0 < size <= USER_SIZE - META
    ensures
      var r, k := Allocate(b, size, freeMem, freeSwap), FirstFit(b, size);
      var fits, refused := Fits(b[k], size), Refused(b, k, freeMem, freeSwap, size);
      && (r.ptr.Some? <==> fits || (!refused && RoundsLeft(b, k, 1, size) <= freeMem + freeSwap))
      && r.taken == (if fits || refused then 0
                     else if r.ptr.Some? then RoundsLeft(b, k, 1, size) else freeMem + freeSwap)
  {
    var k := FirstFit(b, size);
    if !Fits(b[k], size) && !Refused(b, k, freeMem, freeSwap, size) {
      GrowSucceedsIff(b, size, k, 1, freeMem + freeSwap);
    }
  }

  /** Growth hands out the last block, grown, or the first new page behind it. */
  lemma {:induction false} GrowPointer(b: seq<Block>, size: int, k: nat, n: nat, free: nat)
    requires RoundDue(b, k, n, size)
    ensures
      var r := GrowLoop(b, size, k, n, free);
      r.ptr.Some? ==>
        r.ptr.value == META + if b[k].free then b[k].addr
                              else if n == 1 then (b[k].addr / PAGE_SIZE + 1) * PAGE_SIZE else b[k + 1].addr
    decreases free
  {
    hide TakeBlock, RoundsLeft;
    OneRoundLess(b, k, n, size);
    if free > 0 && AddPage(b, k, n)[Target(b, k)].size < size {
      GrowPointer(AddPage(b, k, n), size, k, n + 1, free - 1);
    }
  }

  /** The pages growth needs are the fewest that cover what is missing. */
  lemma RoundsCover(missing: int, pages: int)
    requires pages == (missing + PAGE_SIZE - 1) / PAGE_SIZE
    ensures PAGE_SIZE * (pages - 1) < missing <= PAGE_SIZE * pages
  {
  }

  /** The checks, as arithmetic. */
  lemma RefusedIff(b: seq<Block>, freeMem: nat, freeSwap: nat, size: int)
    requires b != [] && Placed(b) && 0 < size && !Fits(b[|b| - 1], size)
    ensures
      var e, more := b[|b| - 1], if freeMem >= freeSwap then freeMem else freeSwap;
      var missing := if e.free then size - e.size else size + META;
      Refused(b, |b| - 1, freeMem, freeSwap, size) <==> e.addr >= 1047 * PAGE_SIZE || missing > PAGE_SIZE * more
  {
  }

  lemma FirstRoundIsDue(b: seq<Block>, size: int, freeMem: nat, freeSwap: nat)
    requires b != [] && Placed(b) && 0 < size <= USER_SIZE - META && !Fits(b[|b| - 1], size)
    requires !Refused(b, |b| - 1, freeMem, freeSwap, size)
    ensures RoundDue(b, |b| - 1, 1, size)
  {
  }

  /**
   * When a request succeeds: the last block fits, or it does not lie in the last page of memory
   * and the frames not in use in memory, or those in the swap file, cover what is missing on
   * their own. It takes just as many pages as that, and one that fails takes none: no request
   * runs out of frames halfway.
   */
  lemma AllocateSucceedsWhen(b: seq<Block>, size: int, freeMem: nat, freeSwap: nat)
    requires b != [] && Placed(b) && OnlyLastFree(b) && 0 < size <= USER_SIZE - META
    ensures
      var r, e := Allocate(b, size, freeMem, freeSwap), b[|b| - 1];
      var more := if freeMem >= freeSwap then freeMem else freeSwap;
      var missing := if e.free then size - e.size else size + META;
      var fits := e.free && size <= e.size;
      && (r.ptr.Some? <==> fits || (e.addr < 1047 * PAGE_SIZE && missing <= PAGE_SIZE * more))
      && (r.ptr.None? ==> r.taken == 0 && r.blocks == b)
      && (fits ==> r.taken == 0)
      && (r.ptr.Some? && !fits ==> PAGE_SIZE * (r.taken - 1) < missing <= PAGE_SIZE * r.taken)
      && (r.ptr.Some? ==>
            r.ptr.value == META + if e.free then e.addr else (e.addr / PAGE_SIZE + 1) * PAGE_SIZE)
  {
    hide Refused, TakeBlock, Placed;
    FirstFitIsLast(b, size);
    AllocateSucceedsIff(b, size, freeMem, freeSwap);
    var k := |b| - 1;
    if !Fits(b[k], size) {
      RefusedIff(b, freeMem, freeSwap, size);
      RoundsCover(if b[k].free then size - b[k].size else size + META, RoundsLeft(b, k, 1, size));
      if !Refused(b, k, freeMem, freeSwap, size) {
        FirstRoundIsDue(b, size, freeMem, freeSwap);
        GrowPointer(b, size, k, 1, freeMem + freeSwap);
      }
    }
  }

  // ---------------------------------------------------------------- what a call keeps

  /** The call handed out one new block, larger than asked by a header at most, or none, and kept the others. */
  ghost predicate Handed(b: seq<Block>, c: seq<Block>, ptr: Option<int>, size: int) {
    match ptr
    case None => Live(c) == Live(b)
    case Some(p) =>
      exists e :: && e in Live(c) && e !in Live(b) && e.addr + META == p && size <= e.size <= size + META
                  && Live(c) == Live(b) + {e}
  }

  lemma LiveDisjoint(b: seq<Block>, pages: nat, e: Block, f: Block)
    requires Tiled(b, pages) && e in Live(b) && f in Live(b) && e != f
    ensures End(e) <= f.addr || End(f) <= e.addr
    ensures 0 <= e.addr && End(e) <= pages * PAGE_SIZE
  {
    var i :| 0 <= i < |b| && b[i] == e;
    var j :| 0 <= j < |b| && b[j] == f;
    TiledIsInside(b, pages, i);
    if i < j { TiledIsOrdered(b, pages, i, j); } else { TiledIsOrdered(b, pages, j, i); }
  }

  /** A block of the list that is not handed out is not among those that are. */
  lemma FreeIsNotLive(b: seq<Block>, pages: nat, k: nat, e: Block)
    requires Tiled(b, pages) && k < |b| && b[k].free && e.addr == b[k].addr
    ensures e !in Live(b)
  {
    if e in Live(b) {
      var i :| 0 <= i < |b| && !b[i].free && b[i] == e;
      if i < k { TiledIsOrdered(b, pages, i, k); } else { TiledIsOrdered(b, pages, k, i); }
    }
  }

  lemma TakeBlockHands(b: seq<Block>, pages: nat, k: nat, size: int)
    requires Tiled(b, pages) && k < |b| && Fits(b[k], size) && 0 < size
    ensures Tiled(TakeBlock(b, k, size), pages)
    ensures Handed(b, TakeBlock(b, k, size), Some(b[k].addr + META), size)
  {
    TakeBlockTiles(b, pages, k, size);
    TakeBlockAddsOne(b, pages, k, size);
    var r := TakeBlock(b, k, size);
    FreeIsNotLive(b, pages, k, r[k]);
    assert r[k] in Live(r);
  }

  lemma AddPageKeepsLive(b: seq<Block>, k: nat, n: nat)
    requires k < |b| && (n == 1 ==> k + 1 == |b|) && (n != 1 && !b[k].free ==> k + 1 < |b|)
    requires n != 1 && !b[k].free ==> b[k + 1].free
    ensures Live(AddPage(b, k, n)) == Live(b)
  {
    var r := AddPage(b, k, n);
    forall e | e in Live(b) ensures e in Live(r) {
      var i :| 0 <= i < |b| && !b[i].free && b[i] == e;
      assert r[i] == e;
    }
    forall e | e in Live(r) ensures e in Live(b) {
      var i :| 0 <= i < |r| && !r[i].free && r[i] == e;
      assert i < |b| && b[i] == e;
    }
  }

  lemma HandedSameLive(b: seq<Block>, c: seq<Block>, d: seq<Block>, ptr: Option<int>, size: int)
    requires Live(b) == Live(c) && Handed(c, d, ptr, size)
    ensures Handed(b, d, ptr, size)
  {
  }

  lemma NothingHanded(b: seq<Block>, size: int)
    ensures Handed(b, b, None, size)
  {
  }

  /** The last block is no larger than a page, unless it is free: what growth needs. */
  predicate SmallEnd(b: seq<Block>, k: nat, n: nat)
    requires k < |b|
  {
    n == 1 ==> b[k].size <= PAGE_SIZE - META
  }

  /** One more page keeps the tiling and the live blocks. */
  lemma RoundKeepsList(b: seq<Block>, pages: nat, k: nat, n: nat)
    requires Tiled(b, pages) && OnlyLastFree(b) && NearEnd(b, k, n) && n >= 1 && SmallEnd(b, k, n)
    ensures
      var c := AddPage(b, k, n);
      && Tiled(c, pages + 1) && OnlyLastFree(c) && NearEnd(c, k, n + 1) && Live(c) == Live(b)
      && Target(b, k) == |c| - 1 && c[Target(b, k)].free && Target(c, k) == Target(b, k)
  {
    AddPageKeepsLive(b, k, n);
    AddPageKeepsOnlyLast(b, k, n);
    if b[k].free || n > 1 {
      MoreRoomTiles(b, pages, k, n);
    } else {
      AddPageTilesIff(b, pages, k);
    }
  }

  /** The whole loop, whether it succeeds or runs out of frames halfway. */
  lemma {:induction false} GrowLoopKeepsList(b: seq<Block>, pages: nat, size: int, k: nat, n: nat, free: nat)
    requires RoundDue(b, k, n, size) && Tiled(b, pages) && OnlyLastFree(b) && NearEnd(b, k, n) && SmallEnd(b, k, n)
    ensures
      var r := GrowLoop(b, size, k, n, free);
      Tiled(r.blocks, pages + r.taken) && OnlyLastFree(r.blocks) && Handed(b, r.blocks, r.ptr, size)
    decreases free
  {
    hide Tiled, OnlyLastFree, Live, Handed, TakeBlock;
    NothingHanded(b, size);
    if free > 0 {
      RoundKeepsList(b, pages, k, n);
      var c, t := AddPage(b, k, n), Target(b, k);
      if c[t].size < size {
        GrowLoopKeepsList(c, pages + 1, size, k, n + 1, free - 1);
        var r := GrowLoop(c, size, k, n + 1, free - 1);
        HandedSameLive(b, c, r.blocks, r.ptr, size);
      } else {
        TakeBlockHands(c, pages + 1, t, size);
        TakeBlockKeepsOnlyLast(c, size);
        HandedSameLive(b, c, TakeBlock(c, t, size), Some(c[t].addr + META), size);
      }
    }
  }

  predicate NeedsGrowth(b: seq<Block>, size: int, freeMem: int, freeSwap: int)
    requires b != []
  {
    var k := FirstFit(b, size);
    !Fits(b[k], size) && !Refused(b, k, freeMem, freeSwap, size)
  }

  /** What growth needs: the last header is in the last page, and the pages stay below the swap file. */
  predicate MayGrow(b: seq<Block>, size: int)
    requires b != []
  {
    && b[|b| - 1].size <= PAGE_SIZE - META
    && FIRST_USER_PAGE + PageOf(b[|b| - 1].addr) + RoundsLeft(b, |b| - 1, 1, size) < FIRST_SWAP_PAGE
  }

  /** myallocate: the list tiles the pages before and after, and one new block is handed out, or none. */
  lemma AllocateKeepsList(b: seq<Block>, pages: nat, size: int, freeMem: nat, freeSwap: nat)
    requires Tiled(b, pages) && OnlyLastFree(b) && Placed(b) && 0 < size <= USER_SIZE - META
    requires NeedsGrowth(b, size, freeMem, freeSwap) ==> MayGrow(b, size)
    ensures
      var r := Allocate(b, size, freeMem, freeSwap);
      Tiled(r.blocks, pages + r.taken) && OnlyLastFree(r.blocks) && Handed(b, r.blocks, r.ptr, size)
  {
    hide Tiled, OnlyLastFree, Live, TakeBlock, Handed;
    NothingHanded(b, size);
    FirstFitIsLast(b, size);
    var k := FirstFit(b, size);
    if Fits(b[k], size) {
      TakeBlockHands(b, pages, k, size);
      TakeBlockKeepsOnlyLast(b, size);
    } else if !Refused(b, k, freeMem, freeSwap, size) {
      GrowLoopKeepsList(b, pages, size, k, 1, freeMem + freeSwap);
    }
  }

  /** The payload handed out lies inside the heap and overlaps no payload that was live. */
  lemma PayloadIsFresh(b: seq<Block>, pages: nat, size: int, freeMem: nat, freeSwap: nat, f: Block)
    requires Tiled(b, pages) && OnlyLastFree(b) && Placed(b) && 0 < size <= USER_SIZE - META && f in Live(b)
    requires NeedsGrowth(b, size, freeMem, freeSwap) ==> MayGrow(b, size)
    ensures
      var r := Allocate(b, size, freeMem, freeSwap);
      r.ptr.Some? ==>
        var lo, hi := r.ptr.value, r.ptr.value + size;
        (hi <= f.addr + META || End(f) <= lo) && META <= lo && hi <= (pages + r.taken) * PAGE_SIZE
  {
    hide Allocate, Tiled, OnlyLastFree, NeedsGrowth, MayGrow, Placed;
    AllocateKeepsList(b, pages, size, freeMem, freeSwap);
    var r := Allocate(b, size, freeMem, freeSwap);
    if r.ptr.Some? {
      var e :| e in Live(r.blocks) && e !in Live(b) && e.addr + META == r.ptr.value && size <= e.size;
      assert f in Live(r.blocks);
      LiveDisjoint(r.blocks, pages + r.taken, e, f);
    }
  }

  lemma TiledIsPlaced(b: seq<Block>, pages: nat)
    requires Tiled(b, pages)
    ensures Placed(b)
  {
    forall i | 0 <= i < |b| ensures 0 <= b[i].addr { TiledIsInside(b, pages, i); }
  }

  lemma FirstBlockTiles()
    ensures Tiled(FirstBlock(), 1) && OnlyLastFree(FirstBlock()) && Live(FirstBlock()) == {} == Live([])
  {
  }
}
