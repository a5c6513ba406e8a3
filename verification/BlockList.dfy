/**
 * The block list that myallocate.c keeps inside a thread's heap, as a sequence. Addresses
 * are relative to the thread's first page; a block is a header of META bytes and `size`
 * bytes of payload.
 */
module BlockList {
  import opened PageTable

  const META: int := 24
  const USER_SIZE: int := 4096000
  const MEMORY_PAGES: int := 2048
  /** HEAD + PAGE_SIZE, in units of the header it points to. */
  const FREE_LIMIT: int := 98304

  datatype Block = Block(addr: int, size: int, free: bool)

  function End(e: Block): int {
    e.addr + META + e.size
  }

  /** The blocks lie one after another and cover the region exactly. */
  ghost predicate Tiled(b: seq<Block>, pages: nat) {
    && b != [] && b[0].addr == 0
    && (forall i :: 0 <= i < |b| ==> b[i].size > 0)
    && (forall i, j :: 0 <= i < j < |b| && j == i + 1 ==> b[j].addr == End(b[i]))
    && End(b[|b| - 1]) == pages * PAGE_SIZE
  }

  /** Address order, so no two blocks overlap. */
  lemma {:induction false} TiledIsOrdered(b: seq<Block>, pages: nat, i: nat, j: nat)
    requires Tiled(b, pages) && i < j < |b|
    ensures End(b[i]) <= b[j].addr
    decreases j
  {
    if i + 1 < j {
      TiledIsOrdered(b, pages, i, j - 1);
    }
  }

  lemma TiledIsInside(b: seq<Block>, pages: nat, i: nat)
    requires Tiled(b, pages) && i < |b|
    ensures 0 <= b[i].addr && End(b[i]) <= pages * PAGE_SIZE
  {
    if i > 0 { TiledIsOrdered(b, pages, 0, i); }
    if i < |b| - 1 { TiledIsOrdered(b, pages, i, |b| - 1); }
  }

  /** The blocks handed out. */
  ghost function Live(b: seq<Block>): set<Block> {
    set i | 0 <= i < |b| && !b[i].free :: b[i]
  }

  // ---------------------------------------------------------------- allocation inside the heap

  predicate Fits(e: Block, size: int) {
    e.free && e.size >= size
  }

  /** Where the traversal stops: the first block that fits, but never past the last one. */
  function FirstFit(b: seq<Block>, size: int): (k: nat)
    requires b != []
    ensures k < |b|
    ensures forall i :: 0 <= i < k ==> !Fits(b[i], size)
    ensures k < |b| - 1 ==> Fits(b[k], size)
  {
    if |b| == 1 || Fits(b[0], size) then 0
    else
      var k := FirstFit(b[1..], size);
      assert forall i :: 1 <= i < 1 + k ==> b[i] == b[1..][i - 1];
      1 + k
  }

  /** organizeMem: block k becomes a used block of the given size and a free rest. */
  function OrganizeMem(b: seq<Block>, k: nat, size: int): seq<Block>
    requires k < |b|
  {
    b[..k] + [Block(b[k].addr, size, false), Block(b[k].addr + META + size, b[k].size - META - size, true)] + b[k + 1..]
  }

  function Use(b: seq<Block>, k: nat): seq<Block>
    requires k < |b|
  {
    b[k := b[k].(free := false)]
  }

  /** Give out block k, split when the rest can hold a header and more. */
  function TakeBlock(b: seq<Block>, k: nat, size: int): seq<Block>
    requires k < |b|
  {
    if b[k].size > size + META then OrganizeMem(b, k, size) else Use(b, k)
  }

  // ---------------------------------------------------------------- growth

  function PageOf(addr: int): int {
    addr / PAGE_SIZE
  }

  /**
   * The n-th new page, for a request that stopped at block k, the last one: a new free
   * block behind k when k is used, or more room in k when it is free.
   */
  function AddPage(b: seq<Block>, k: nat, n: nat): (r: seq<Block>)
    requires k < |b| && (n == 1 ==> k + 1 == |b|) && (n != 1 && !b[k].free ==> k + 1 < |b|)
    ensures |b| <= |r| && (!b[k].free ==> k + 1 < |r|) && r[k].free == b[k].free && r[k].addr == b[k].addr
  {
    if b[k].free then b[k := b[k].(size := b[k].size + PAGE_SIZE)]
    else if n == 1 then b + [Block((PageOf(b[k].addr) + 1) * PAGE_SIZE, PAGE_SIZE - META, true)]
    else b[k + 1 := b[k + 1].(size := b[k + 1].size + PAGE_SIZE)]
  }

  // ---------------------------------------------------------------- freeing

  /** The block whose header is at addr, or |b|. */
  function Locate(b: seq<Block>, addr: int): (k: nat)
    ensures k <= |b|
    ensures k < |b| ==> b[k].addr == addr
    ensures forall i :: 0 <= i < k ==> b[i].addr != addr
  {
    if b == [] || b[0].addr == addr then 0
    else
      var k := Locate(b[1..], addr);
      assert forall i :: 1 <= i < 1 + k ==> b[i] == b[1..][i - 1];
      1 + k
  }

  /** Block k takes in the block after it. */
  function Merge(b: seq<Block>, k: nat): seq<Block>
    requires k + 1 < |b|
  {
    b[..k] + [Block(b[k].addr, b[k].size + META + b[k + 1].size, true)] + b[k + 2..]
  }

  /** mydeallocate on a thread's block list, without the backward merge; ptr is relative to HEAD. */
  function Deallocate(b: seq<Block>, ptr: int): seq<Block> {
    if ptr < 0 || ptr > FREE_LIMIT then b
    else
      var k := Locate(b, ptr - META);
      if k == |b| || b[k].free then b
      else if k + 1 == |b| then b[k := b[k].(free := true)]
      else if b[k + 1].free then Merge(b, k)
      else b
  }

  // ---------------------------------------------------------------- what the pieces keep

  lemma OrganizeMemTiles(b: seq<Block>, pages: nat, k: nat, size: int)
    requires Tiled(b, pages) && k < |b| && 0 < size && b[k].size > size + META
    ensures Tiled(OrganizeMem(b, k, size), pages)
  {
    var r := OrganizeMem(b, k, size);
    forall i, j | 0 <= i < j < |r| && j == i + 1 ensures r[j].addr == End(r[i]) {
      if i < k {
        assert b[i + 1].addr == End(b[i]);
      } else if i > k {
        assert b[i].addr == End(b[i - 1]) || i == k + 1;
        assert r[j] == b[i];
      }
    }
  }

  lemma TakeBlockTiles(b: seq<Block>, pages: nat, k: nat, size: int)
    requires Tiled(b, pages) && k < |b| && 0 < size
    ensures Tiled(TakeBlock(b, k, size), pages)
  {
    if b[k].size > size + META {
      OrganizeMemTiles(b, pages, k, size);
    }
  }

  /**
   * Taking free block k adds one block to the live ones, at its address and as large as asked. What
   * is left over is a free block behind it, or too little for a header.
   */
  lemma TakeBlockAddsOne(b: seq<Block>, pages: nat, k: nat, size: int)
    requires Tiled(b, pages) && k < |b| && Fits(b[k], size)
    ensures
      var r := TakeBlock(b, k, size);
      && k < |r| && r[k].addr == b[k].addr && size <= r[k].size <= size + META && !r[k].free
      && (b[k].size > size + META ==>
            && r[k].size == size && k + 1 < |r| && r[k + 1].free
            && r[k + 1].addr == End(r[k]) && End(r[k + 1]) == End(b[k]))
      && Live(r) == Live(b) + {r[k]}
  {
    var r := TakeBlock(b, k, size);
    forall e | e in Live(b) ensures e in Live(r) {
      var i :| 0 <= i < |b| && !b[i].free && b[i] == e;
      assert r[if i < k || |r| == |b| then i else i + 1] == e;
    }
    forall e | e in Live(r) && e != r[k] ensures e in Live(b) {
      var i :| 0 <= i < |r| && !r[i].free && r[i] == e;
      assert b[if i < k || |r| == |b| then i else i - 1] == e;
    }
  }

  lemma MergeTiles(b: seq<Block>, pages: nat, k: nat)
    requires Tiled(b, pages) && k + 1 < |b|
    ensures Tiled(Merge(b, k), pages)
  {
    var r := Merge(b, k);
    assert b[k + 1].addr == End(b[k]);
    forall i, j | 0 <= i < j < |r| && j == i + 1 ensures r[j].addr == End(r[i]) {
      if i < k {
        assert b[i + 1].addr == End(b[i]);
      } else {
        assert b[i + 2].addr == End(b[i + 1]);
      }
    }
  }

  /** Freeing keeps the tiling, whatever the pointer. */
  lemma DeallocateTiles(b: seq<Block>, pages: nat, ptr: int)
    requires Tiled(b, pages)
    ensures Tiled(Deallocate(b, ptr), pages)
  {
    var k := Locate(b, ptr - META);
    if k + 1 < |b| { MergeTiles(b, pages, k); }
  }

  lemma LocateIs(b: seq<Block>, pages: nat, k: nat)
    requires Tiled(b, pages) && k < |b|
    ensures Locate(b, b[k].addr) == k
  {
    var j := Locate(b, b[k].addr);
    if j < k {
      TiledIsOrdered(b, pages, j, k);
      assert false;
    }
  }

  /**
   * Freeing a block takes exactly that block from the live ones when the block after it is
   * free or absent and the pointer is within the limit. Otherwise the call does nothing,
   * and the block stays live.
   */
  lemma DeallocateFreesIff(b: seq<Block>, pages: nat, k: nat)
    requires Tiled(b, pages) && k < |b| && !b[k].free
    ensures
      var ptr := b[k].addr + META;
      var r := Deallocate(b, ptr);
      var frees := ptr <= PAGE_SIZE * META && (k + 1 == |b| || b[k + 1].free);
      && (Live(r) == Live(b) - {b[k]} <==> frees)
      && (!frees ==> r == b)
  {
    LocateIs(b, pages, k);
    TiledIsInside(b, pages, k);
    var r := Deallocate(b, b[k].addr + META);
    assert b[k] in Live(b);
    if b[k].addr + META <= FREE_LIMIT {
      if k + 1 == |b| {
        LiveWithout(b, pages, k, r, 0);
      } else if b[k + 1].free {
        LiveWithout(b, pages, k, r, 1);
      }
    }
  }

  lemma LiveWithout(b: seq<Block>, pages: nat, k: nat, r: seq<Block>, gone: nat)
    requires Tiled(b, pages) && k < |b| && !b[k].free && gone <= 1 && k + gone < |b| && |r| == |b| - gone
    requires forall i :: 0 <= i < k ==> r[i] == b[i]
    requires r[k].free && (gone == 1 ==> b[k + 1].free)
    requires forall i :: k < i < |r| ==> r[i] == b[i + gone]
    ensures Live(r) == Live(b) - {b[k]}
  {
    forall e | e in Live(b) && e != b[k] ensures e in Live(r) {
      var i :| 0 <= i < |b| && !b[i].free && b[i] == e;
      assert r[if i < k then i else i - gone] == e;
    }
    forall e | e in Live(r) ensures e in Live(b) && e != b[k] {
      var i :| 0 <= i < |r| && !r[i].free && r[i] == e;
      var j := if i < k then i else i + gone;
      assert b[j] == e && j != k;
      if j < k { TiledIsOrdered(b, pages, j, k); } else { TiledIsOrdered(b, pages, k, j); }
    }
  }

  /** Freeing anything but the payload of a live block does nothing. */
  lemma DeallocateElsewhere(b: seq<Block>, ptr: int)
    requires forall e :: e in Live(b) ==> e.addr + META != ptr
    ensures Deallocate(b, ptr) == b
  {
    forall i | 0 <= i < |b| && !b[i].free ensures b[i].addr != ptr - META {
      assert b[i] in Live(b);
    }
  }

  /** Freeing right after an allocation that split a block restores the list. */
  lemma DeallocateUndoesSplit(b: seq<Block>, pages: nat, k: nat, size: int)
    requires Tiled(b, pages) && k < |b| && b[k].free && 0 < size && b[k].size > size + META
    requires b[k].addr + META <= FREE_LIMIT
    ensures Deallocate(TakeBlock(b, k, size), b[k].addr + META) == b
  {
    var r := TakeBlock(b, k, size);
    TakeBlockTiles(b, pages, k, size);
    TiledIsInside(b, pages, k);
    LocateIs(r, pages, k);
    MergeUndoesSplit(b, k, size);
  }

  lemma MergeUndoesSplit(b: seq<Block>, k: nat, size: int)
    requires k < |b| && b[k].free
    ensures Merge(OrganizeMem(b, k, size), k) == b
  {
    var r := OrganizeMem(b, k, size);
    assert r[..k] == b[..k] && r[k + 2..] == b[k + 1..];
    assert b == b[..k] + [b[k]] + b[k + 1..];
  }

  // ---------------------------------------------------------------- which blocks are ever free

  /** Only the last block is free. */
  predicate OnlyLastFree(b: seq<Block>) {
    forall i :: 0 <= i < |b| - 1 ==> !b[i].free
  }

  /** Then the traversal always goes to the end of the list. */
  lemma FirstFitIsLast(b: seq<Block>, size: int)
    requires b != [] && OnlyLastFree(b)
    ensures FirstFit(b, size) == |b| - 1
  {
    assert forall i :: 0 <= i < |b| - 1 ==> !Fits(b[i], size);
  }

  lemma TakeBlockKeepsOnlyLast(b: seq<Block>, size: int)
    requires b != [] && OnlyLastFree(b)
    ensures OnlyLastFree(TakeBlock(b, |b| - 1, size))
  {
  }

  /** Block k is the last one, or the one in front of a free last one. */
  predicate NearEnd(b: seq<Block>, k: nat, n: nat) {
    k < |b| && if b[k].free || n == 1 then k == |b| - 1 else k == |b| - 2 && b[k + 1].free
  }

  lemma AddPageKeepsOnlyLast(b: seq<Block>, k: nat, n: nat)
    requires OnlyLastFree(b) && NearEnd(b, k, n) && n >= 1
    ensures
      var r := AddPage(b, k, n);
      && OnlyLastFree(r) && NearEnd(r, k, n + 1)
      && r[|r| - 1].free && |r| - 1 == if r[k].free then k else k + 1
  {
  }

  lemma DeallocateKeepsOnlyLast(b: seq<Block>, ptr: int)
    requires OnlyLastFree(b)
    ensures OnlyLastFree(Deallocate(b, ptr))
  {
  }

  /** A free takes effect exactly for the last live block within the limit; every other is lost without a word. */
  lemma FreesLastLiveIff(b: seq<Block>, pages: nat, k: nat)
    requires Tiled(b, pages) && OnlyLastFree(b) && k < |b| && !b[k].free
    ensures
      var ptr := b[k].addr + META;
      var r := Deallocate(b, ptr);
      var frees := ptr <= PAGE_SIZE * META && forall j :: k < j < |b| ==> b[j].free;
      && (frees ==> Live(r) == Live(b) - {b[k]})
      && (!frees ==> r == b)
  {
    DeallocateFreesIff(b, pages, k);
    if k + 1 < |b| && b[k + 1].free {
      assert k + 1 == |b| - 1;
    }
  }

  /**
   * mydeallocate with its backward merge. prev is the block in front of the freed one that
   * its header's prev names, if any; None in the result stands for the NULL link that myallocate.c:400 follows.
   */
  function DeallocateBoth(b: seq<Block>, ptr: int, prev: Option<nat>): Option<seq<Block>>
    requires prev.Some? ==> prev.value < Locate(b, ptr - META)
  {
    var k := Locate(b, ptr - META);
    if ptr < 0 || ptr > FREE_LIMIT || k == |b| || b[k].free then Some(b)
    else
      var r := Deallocate(b, ptr);
      if prev.None? || !b[prev.value].free then Some(r)
      else if k + 1 == |r| then None
      else
        var p := prev.value;
        Some(r[..p] + [Block(b[p].addr, b[p].size + META + r[k].size, true)] + r[k + 1..])
  }

  /** No block in front of a used one is ever free, so with such a prev the backward merge never comes to pass. */
  lemma BackwardMergeIsDead(b: seq<Block>, ptr: int, prev: Option<nat>)
    requires OnlyLastFree(b) && (prev.Some? ==> prev.value < Locate(b, ptr - META))
    ensures DeallocateBoth(b, ptr, prev) == Some(Deallocate(b, ptr))
  {
    var k := Locate(b, ptr - META);
    assert prev.Some? && k < |b| ==> !b[prev.value].free;
  }

  // ---------------------------------------------------------------- growth and the tiling

  /** The last header is in the last page exactly when the last block is not larger than a page. */
  lemma HeaderInLastPageIff(b: seq<Block>, pages: nat)
    requires Tiled(b, pages)
    ensures pages > 0 && (PageOf(b[|b| - 1].addr) == pages - 1 <==> b[|b| - 1].size <= PAGE_SIZE - META)
  {
    TiledIsInside(b, pages, |b| - 1);
  }

  /**
   * The first new page keeps the tiling behind a used block exactly when the last header
   * was in the last page: elsewhere the new header is written into a live payload.
   */
  lemma AddPageTilesIff(b: seq<Block>, pages: nat, k: nat)
    requires Tiled(b, pages) && k == |b| - 1 && !b[k].free
    ensures (exists p: nat :: Tiled(AddPage(b, k, 1), p)) <==> b[k].size <= PAGE_SIZE - META
    ensures b[k].size <= PAGE_SIZE - META ==> Tiled(AddPage(b, k, 1), pages + 1)
  {
    HeaderInLastPageIff(b, pages);
    var r := AddPage(b, k, 1);
    if p: nat :| Tiled(r, p) {
      assert r[k + 1].addr == End(r[k]);
      assert r[k] == b[k];
    }
    if b[k].size <= PAGE_SIZE - META {
      forall i, j | 0 <= i < j < |r| && j == i + 1 ensures r[j].addr == End(r[i]) {
        if i < k { assert b[i + 1].addr == End(b[i]); }
      }
      assert Tiled(r, pages + 1);
    }
  }

  /** Every other new page makes the last, free block larger. */
  lemma MoreRoomTiles(b: seq<Block>, pages: nat, k: nat, n: nat)
    requires Tiled(b, pages) && k < |b| && (if b[k].free then k == |b| - 1 else n > 1 && k == |b| - 2)
    ensures Tiled(AddPage(b, k, n), pages + 1)
  {
    var r := AddPage(b, k, n);
    forall i, j | 0 <= i < j < |r| && j == i + 1 ensures r[j].addr == End(r[i]) {
      assert b[j].addr == End(b[i]);
    }
  }

  /** Allocate 8168 bytes, then 1: the second header lands inside the first payload. */
  lemma GrowthCanOverlap()
    ensures
      var b := [Block(0, 8168, false)];
      && Tiled(b, 2)
      && AddPage(b, 0, 1)[1].addr < End(b[0])
      && forall p: nat :: !Tiled(AddPage(b, 0, 1), p)
  {
    AddPageTilesIff([Block(0, 8168, false)], 2, 0);
  }
}
