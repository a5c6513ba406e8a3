/**
 * How a file grows: the allocation step of sfs_write, the counters its loop keeps, and what
 * becomes of a new file over a run of writes.
 */
module FileGrowth {
  import opened Disk
  import opened FileBlocks

  /** What an inode records about its data; a pointer of zero is one that was never given. */
  datatype FileState = FileState(ptrs: seq<nat>, size: nat, numBlocks: nat)

  /** A write of n bytes at an offset; free are the results of its calls to findFreeBlock, in order. */
  datatype Request = Request(offset: nat, n: nat, free: seq<nat>)

  /** The check for files that the direct pointers cannot hold, with its exemption for whole blocks. */
  predicate TooBig(offset: nat, n: nat) {
    EndBlock(offset, n) > NDBLOCK_PTRS && (n + offset) % BLOCK_SIZE != 0
  }

  /** 1 if the block in which the file ends has a pointer, so that no call is made for it. */
  function Held(f: FileState): nat {
    if f.size / BLOCK_SIZE < |f.ptrs| && f.ptrs[f.size / BLOCK_SIZE] != 0 then 1 else 0
  }

  /** The blocks the allocation step looks at are within the direct pointers. */
  predicate Fits(f: FileState, w: Request) {
    var end := EndBlock(w.offset, w.n);
    && 0 <= end < |f.ptrs| && 0 !in w.free
    && (f.numBlocks <= end ==>
          f.size / BLOCK_SIZE + (end - f.numBlocks) < |f.ptrs| && end - f.numBlocks < |w.free| + Held(f))
  }

  /** Block q is one the allocation step gives a pointer. */
  predicate GetsPointer(f: FileState, end: nat, q: int) {
    f.numBlocks <= end && f.size / BLOCK_SIZE <= q <= f.size / BLOCK_SIZE + (end - f.numBlocks)
  }

  /** The pointers after the allocation step. */
  function Allocated(f: FileState, w: Request): (r: seq<nat>)
    requires Fits(f, w)
    ensures |r| == |f.ptrs|
  {
    var cur, end := f.size / BLOCK_SIZE, EndBlock(w.offset, w.n);
    seq(|f.ptrs|, i requires 0 <= i < |f.ptrs| =>
      if GetsPointer(f, end, i) && (i > cur || f.ptrs[i] == 0) then w.free[i - cur - Held(f)] else f.ptrs[i])
  }

  /** A whole write, as far as the inode is concerned. */
  function WriteStep(f: FileState, w: Request): FileState
    requires Fits(f, w)
  {
    FileState(Allocated(f, w), f.size + w.n, f.numBlocks + BlocksLeft(w.offset, w.n))
  }

  ghost function State(file: Inode): FileState
    requires file.size >= 0
    reads file
  {
    FileState(file.directBlockPtr, file.size, file.numBlocks)
  }

  /** The allocation step; `calls` counts the calls to findFreeBlock. */
  method Allocate(file: Inode, ghost w: Request, end: nat, free: seq<nat>)
    requires file.size >= 0 && Fits(State(file), w)
    requires end == EndBlock(w.offset, w.n) && free == w.free
    modifies file`directBlockPtr
    ensures file.directBlockPtr == Allocated(old(State(file)), w)
  {
    if end >= file.numBlocks {
      var neededBlocks := end - file.numBlocks;
      var currBlockIdx, calls := file.size / BLOCK_SIZE, 0;
      ghost var start, was := currBlockIdx, file.directBlockPtr;
      if file.directBlockPtr[currBlockIdx] == 0 {
        file.directBlockPtr := file.directBlockPtr[currBlockIdx := free[calls]];
        calls := calls + 1;
      }
      ghost var held := 1 - calls;
      var x := 0;
      while x < neededBlocks
        invariant x <= neededBlocks && currBlockIdx == start + x && |file.directBlockPtr| == |was|
        invariant calls == x + 1 - held
        invariant forall i :: 0 <= i < |was| ==>
          file.directBlockPtr[i] == (if i == start then (if was[i] == 0 then free[0] else was[i])
                                     else if start < i <= start + x then free[i - start - held] else was[i])
      {
        currBlockIdx := currBlockIdx + 1;
        file.directBlockPtr := file.directBlockPtr[currBlockIdx := free[calls]];
        calls := calls + 1;
        x := x + 1;
      }
    }
  }

  /** sfs_write: refused, or the allocation step and then the loop. */
  method SfsWrite(file: Inode, disk: array<Block>, buf: seq<Byte>, offset: nat, free: seq<nat>)
    returns (written: int)
    requires file.size >= 0
    requires !TooBig(offset, |buf|) ==>
      && Fits(State(file), Request(offset, |buf|, free))
      && Mapped(disk[..], Allocated(State(file), Request(offset, |buf|, free)), offset, |buf|)
    modifies file, disk
    ensures file.size >= 0
    ensures TooBig(offset, |buf|) ==> written == -1 && State(file) == old(State(file)) && disk[..] == old(disk[..])
    ensures !TooBig(offset, |buf|) ==>
      && State(file) == WriteStep(old(State(file)), Request(offset, |buf|, free))
      && (Injective(file.directBlockPtr, offset, |buf|) ==>
            Spliced(old(disk[..]), disk[..], file.directBlockPtr, offset, buf))
      && written == if buf == [] then -1 else |buf|
    ensures Apart(old(State(file)), free) ==>
      OldBytesKept(old(State(file)), old(disk[..]), State(file), disk[..], offset, |buf|)
  {
    ghost var f, w, was := State(file), Request(offset, |buf|, free), disk[..];
    var endBlockIdx := EndBlock(offset, |buf|);
    if endBlockIdx > NDBLOCK_PTRS {
      if (|buf| + offset) % BLOCK_SIZE != 0 {
        return -1;
      }
    }
    Allocate(file, Request(offset, |buf|, free), endBlockIdx, free);
    written := Write(file, disk, buf, offset);
    if Apart(f, free) {
      OldBytesSurvive(f, w, was, State(file), disk[..]);
    }
  }

  // ---------------------------------------------------------------- what a write leaves alone

  /** No two pointers that were given name one block, and findFreeBlock finds none of these blocks. */
  ghost predicate Apart(f: FileState, free: seq<nat>) {
    && (forall p, q :: 0 <= p < |f.ptrs| && 0 <= q < |f.ptrs| && p != q && f.ptrs[p] != 0 ==> f.ptrs[p] != f.ptrs[q])
    && (forall p :: 0 <= p < |f.ptrs| && f.ptrs[p] != 0 ==> f.ptrs[p] !in free)
  }

  /** Byte i is in front of the end of the file, in a block that had a pointer. */
  predicate OldByte(f: FileState, disk: seq<Block>, i: int) {
    0 <= i < f.size && i / BLOCK_SIZE < |f.ptrs| && 0 < f.ptrs[i / BLOCK_SIZE] < |disk|
  }

  /** Every such byte outside the range is where it was, and what it was. */
  ghost predicate OldBytesKept(f: FileState, was: seq<Block>, r: FileState, now: seq<Block>, offset: nat, n: nat) {
    forall i :: OldByte(f, was, i) && !(offset <= i < offset + n) ==>
      OldByte(r, now, i) && FileByte(now, r.ptrs, i) == FileByte(was, f.ptrs, i)
  }

  /**
   * The step keeps every pointer up to the block in which the file ends, and those behind its
   * range; the others it replaces by what findFreeBlock finds, in order.
   */
  lemma AllocatedGives(f: FileState, w: Request, q: nat)
    requires Fits(f, w) && q < |f.ptrs|
    ensures
      var r, cur, last := Allocated(f, w), f.size / 512, f.size / 512 + EndBlock(w.offset, w.n) - f.numBlocks;
      && (q < cur || last < cur || q > last ==> r[q] == f.ptrs[q])
      && (q == cur <= last ==> if f.ptrs[q] != 0 then r[q] == f.ptrs[q] else w.free != [] && r[q] == w.free[0])
      && (cur < q <= last ==>
            var x := if f.ptrs[cur] != 0 then q - cur - 1 else q - cur;
            x < |w.free| && r[q] == w.free[x])
  {
  }

  /** No pointer of a block in which the file has bytes is ever replaced. */
  lemma OldPointersStay(f: FileState, w: Request, q: nat)
    requires Fits(f, w) && q < |f.ptrs| && q <= f.size / 512 && f.ptrs[q] != 0
    ensures Allocated(f, w)[q] == f.ptrs[q]
  {
    AllocatedGives(f, w, q);
  }

  /** The block of such a byte is written to only where the range reaches into it. */
  lemma OldByteNotCovered(f: FileState, w: Request, i: nat)
    requires Fits(f, w) && Apart(f, w.free) && i / BLOCK_SIZE < |f.ptrs| && i < f.size
    requires f.ptrs[i / BLOCK_SIZE] != 0 && !(w.offset <= i < w.offset + w.n)
    ensures !Covered(Allocated(f, w), w.offset, w.n, f.ptrs[i / BLOCK_SIZE], i % BLOCK_SIZE)
  {
    hide Fits, Allocated;
    var q, b, r := i / BLOCK_SIZE, f.ptrs[i / BLOCK_SIZE], Allocated(f, w);
    forall p | 0 <= p < |r| && r[p] == b ensures p == q {
      AllocatedGives(f, w, p);
    }
  }

  lemma OldBytesSurvive(f: FileState, w: Request, was: seq<Block>, r: FileState, now: seq<Block>)
    requires Fits(f, w) && Apart(f, w.free) && r == WriteStep(f, w)
    requires Elsewhere(was, now, r.ptrs, w.offset, w.n)
    ensures OldBytesKept(f, was, r, now, w.offset, w.n)
  {
    hide Fits, Allocated, Covered, Apart;
    forall i | OldByte(f, was, i) && !(w.offset <= i < w.offset + w.n)
      ensures OldByte(r, now, i) && FileByte(now, r.ptrs, i) == FileByte(was, f.ptrs, i)
    {
      OldPointersStay(f, w, i / BLOCK_SIZE);
      OldByteNotCovered(f, w, i);
    }
  }

  // ---------------------------------------------------------------- one write

  /** Every block that the write touches has a pointer once it starts to copy. */
  ghost predicate Placed(f: FileState, w: Request)
    requires Fits(f, w)
  {
    forall q :: Touches(q, w.offset, w.n) ==> Allocated(f, w)[q] != 0
  }

  /** That is so exactly when each of them had one or is among the blocks the step gives one. */
  lemma PlacedIff(f: FileState, w: Request)
    requires Fits(f, w) && w.n > 0
    ensures forall q :: Touches(q, w.offset, w.n) ==> q < |f.ptrs|
    ensures Placed(f, w) <==>
      forall q :: Touches(q, w.offset, w.n) ==> f.ptrs[q] != 0 || GetsPointer(f, EndBlock(w.offset, w.n), q)
  {
    var end, cur := EndBlock(w.offset, w.n), f.size / BLOCK_SIZE;
    forall q ensures Touches(q, w.offset, w.n) ==> 0 <= q < |f.ptrs| {
      EndBlockIsLast(w.offset, w.n, q);
    }
    forall q | 0 <= q < |f.ptrs|
      ensures Allocated(f, w)[q] != 0 <==> f.ptrs[q] != 0 || GetsPointer(f, end, q)
    {
      if GetsPointer(f, end, q) && f.ptrs[q] == 0 {
        assert w.free[q - cur - Held(f)] in w.free;
      }
    }
  }

  predicate Append(f: FileState, w: Request) {
    w.offset == f.size && w.n > 0
  }

  /** The size after a write is what a file system promises exactly when the write was an append. */
  lemma SizeIsEndIff(f: FileState, w: Request)
    requires Fits(f, w) && w.n > 0
    ensures
      var end := w.offset + w.n;
      WriteStep(f, w).size == (if end > f.size then end else f.size) <==> Append(f, w)
  {
  }

  // ---------------------------------------------------------------- files that are too big

  /** A block of the range has no place among the direct pointers. */
  ghost predicate PastPointers(offset: nat, n: nat) {
    exists q :: Touches(q, offset, n) && q >= NDBLOCK_PTRS
  }

  /**
   * The check lets a write past the direct pointers through exactly when it ends in the block
   * behind them, or at the end of any block farther on.
   */
  lemma CheckMissesIff(offset: nat, n: nat)
    requires n > 0
    ensures
      var last := NDBLOCK_PTRS * BLOCK_SIZE;
      !TooBig(offset, n) && PastPointers(offset, n) <==>
      last < offset + n <= last + BLOCK_SIZE || (offset + n > last && (offset + n) % BLOCK_SIZE == 0)
  {
    var end := EndBlock(offset, n);
    EndBlockIsLast(offset, n, end);
    if PastPointers(offset, n) {
      var q :| Touches(q, offset, n) && q >= NDBLOCK_PTRS;
      EndBlockIsLast(offset, n, q);
    }
  }

  /** One byte more for a file that fills its ten blocks: let through, and block 10 has no place for a pointer. */
  lemma EleventhBlockIsMissed(f: FileState, free: seq<nat>)
    requires |f.ptrs| == NDBLOCK_PTRS && f.size == NDBLOCK_PTRS * BLOCK_SIZE
    ensures !TooBig(f.size, 1) && Touches(NDBLOCK_PTRS, f.size, 1) && !Fits(f, Request(f.size, 1, free))
  {
    CheckMissesIff(f.size, 1);
    EndBlockIsLast(f.size, 1, NDBLOCK_PTRS);
  }

  // ---------------------------------------------------------------- runs

  /** What createInode leaves: no bytes, one block counted, and only the first pointer set. */
  predicate Created(f: FileState) {
    && |f.ptrs| > 0 && f.size == 0 && f.numBlocks == 1
    && forall q :: 0 <= q < |f.ptrs| ==> (f.ptrs[q] != 0 <==> q == 0)
  }

  /** The writes can be made one after the other. */
  ghost predicate Feasible(f: FileState, ws: seq<Request>)
    decreases |ws|
  {
    ws == [] || (ws[0].n > 0 && Fits(f, ws[0]) && Feasible(WriteStep(f, ws[0]), ws[1..]))
  }

  ghost function Run(f: FileState, ws: seq<Request>): FileState
    requires Feasible(f, ws)
    decreases |ws|
  {
    if ws == [] then f else Run(WriteStep(f, ws[0]), ws[1..])
  }

  function Total(ws: seq<Request>): nat {
    if ws == [] then 0 else ws[0].n + Total(ws[1..])
  }

  function Crossings(ws: seq<Request>): nat {
    if ws == [] then 0 else BlocksLeft(ws[0].offset, ws[0].n) + Crossings(ws[1..])
  }

  /** Over any run the size counts the bytes written, overwritten ones too, and numBlocks the blocks left. */
  lemma {:induction false} RunCounts(f: FileState, ws: seq<Request>)
    requires Feasible(f, ws)
    ensures Run(f, ws).size == f.size + Total(ws)
    ensures Run(f, ws).numBlocks == f.numBlocks + Crossings(ws)
    decreases |ws|
  {
    if ws != [] {
      RunCounts(WriteStep(f, ws[0]), ws[1..]);
    }
  }

  /** Every write of the run is an append. */
  ghost predicate Appends(f: FileState, ws: seq<Request>)
    requires Feasible(f, ws)
    decreases |ws|
  {
    ws == [] || (Append(f, ws[0]) && Appends(WriteStep(f, ws[0]), ws[1..]))
  }

  /** Every write of the run has a pointer for every block it touches. */
  ghost predicate AllPlaced(f: FileState, ws: seq<Request>)
    requires Feasible(f, ws)
    decreases |ws|
  {
    ws == [] || (Placed(f, ws[0]) && AllPlaced(WriteStep(f, ws[0]), ws[1..]))
  }

  /** The end of what has been written. */
  function Extent(end: nat, w: Request): nat {
    if w.offset + w.n > end then w.offset + w.n else end
  }

  /** The size is the end of what has been written, after each write of the run. */
  ghost predicate SizeIsExtent(f: FileState, end: nat, ws: seq<Request>)
    requires Feasible(f, ws)
    decreases |ws|
  {
    && f.size == end
    && (ws == [] || SizeIsExtent(WriteStep(f, ws[0]), Extent(end, ws[0]), ws[1..]))
  }

  /** Over a run the size is right throughout exactly when all writes are appends. */
  lemma {:induction false} SizeIsExtentIff(f: FileState, ws: seq<Request>)
    requires Feasible(f, ws)
    ensures SizeIsExtent(f, f.size, ws) <==> Appends(f, ws)
    decreases |ws|
  {
    if ws != [] {
      SizeIsEndIff(f, ws[0]);
      if Append(f, ws[0]) {
        SizeIsExtentIff(WriteStep(f, ws[0]), ws[1..]);
      }
    }
  }

  // ---------------------------------------------------------------- files that only grow

  /** The last block that holds a byte; block 0 of an empty file. */
  function LastBlock(size: nat): nat {
    if size == 0 then 0 else (size - 1) / BLOCK_SIZE
  }

  /** The append starts a new block. */
  predicate OnBoundary(size: nat) {
    size > 0 && size % BLOCK_SIZE == 0
  }

  /**
   * A file that only grew. Until an append starts a new block, numBlocks is one more than
   * the last block, the block an append ends in has no pointer unless it is block 0, and
   * none behind it has; from then on numBlocks is smaller, and the last block has a pointer.
   */
  predicate Grown(f: FileState) {
    var last := LastBlock(f.size);
    && last < |f.ptrs| && f.numBlocks <= last + 1
    && (f.numBlocks == last + 1 ==>
          forall q :: last <= q < |f.ptrs| ==> (f.ptrs[q] != 0 <==> q == 0))
  }

  lemma CreatedIsGrown(f: FileState)
    requires Created(f)
    ensures Grown(f)
  {
  }

  /** The blocks of an append. */
  lemma AppendBlocks(f: FileState, w: Request)
    requires Append(f, w)
    ensures EndBlock(w.offset, w.n) == LastBlock(f.size + w.n)
    ensures f.size / BLOCK_SIZE == LastBlock(f.size) + if OnBoundary(f.size) then 1 else 0
    ensures f.size / BLOCK_SIZE <= EndBlock(w.offset, w.n)
    ensures BlocksLeft(w.offset, w.n) == EndBlock(w.offset, w.n) - f.size / BLOCK_SIZE
  {
  }

  /** How many appends of the run start a new block. */
  ghost function Boundaries(f: FileState, ws: seq<Request>): nat
    requires Feasible(f, ws)
    decreases |ws|
  {
    if ws == [] then 0 else (if OnBoundary(f.size) then 1 else 0) + Boundaries(WriteStep(f, ws[0]), ws[1..])
  }

  /** numBlocks of a file that only grew: the blocks it has, less one for each append that started a block. */
  lemma {:induction false} NumBlocksOfAppends(f: FileState, ws: seq<Request>)
    requires Feasible(f, ws) && Appends(f, ws) && f.numBlocks == LastBlock(f.size) + 1
    ensures var r := Run(f, ws); r.numBlocks == LastBlock(r.size) + 1 - Boundaries(f, ws)
  {
    AppendsCount(f, ws, 0);
  }

  lemma {:induction false} AppendsCount(f: FileState, ws: seq<Request>, fewer: nat)
    requires Feasible(f, ws) && Appends(f, ws) && f.numBlocks + fewer == LastBlock(f.size) + 1
    ensures var r := Run(f, ws); r.numBlocks + fewer + Boundaries(f, ws) == LastBlock(r.size) + 1
    decreases |ws|
  {
    if ws != [] {
      AppendBlocks(f, ws[0]);
      AppendsCount(WriteStep(f, ws[0]), ws[1..], fewer + if OnBoundary(f.size) then 1 else 0);
    }
  }

  lemma AppendKeepsGrown(f: FileState, w: Request)
    requires Fits(f, w) && Append(f, w) && Grown(f)
    ensures Grown(WriteStep(f, w))
  {
    AppendBlocks(f, w);
  }

  /**
   * An append to a file that only grew has a pointer for every block exactly when an append
   * before it, or it itself, started a new block, or when it stays in block 0.
   */
  lemma AppendPlacedIff(f: FileState, w: Request)
    requires Fits(f, w) && Append(f, w) && Grown(f)
    ensures Placed(f, w) <==> f.numBlocks <= f.size / BLOCK_SIZE || f.size + w.n <= BLOCK_SIZE
  {
    AppendBlocks(f, w);
    PlacedIff(f, w);
    var end, cur := EndBlock(w.offset, w.n), f.size / BLOCK_SIZE;
    EndBlockIsLast(w.offset, w.n, end);
    if f.numBlocks <= cur || end == 0 {
      forall q | Touches(q, w.offset, w.n) ensures f.ptrs[q] != 0 || GetsPointer(f, end, q) {
        EndBlockIsLast(w.offset, w.n, q);
      }
    } else {
      assert f.ptrs[end] == 0 && !GetsPointer(f, end, end);
    }
  }

  /** Once an append has started a new block, every later one is placed. */
  lemma {:induction false} LaterAppendsPlaced(f: FileState, ws: seq<Request>)
    requires Feasible(f, ws) && Appends(f, ws) && Grown(f) && f.numBlocks <= LastBlock(f.size)
    ensures AllPlaced(f, ws)
    decreases |ws|
  {
    if ws != [] {
      AppendPlacedIff(f, ws[0]);
      AppendBlocks(f, ws[0]);
      AppendKeepsGrown(f, ws[0]);
      LaterAppendsPlaced(WriteStep(f, ws[0]), ws[1..]);
    }
  }

  /** At some point of the run the file ends where block 0 ends. */
  ghost predicate FillsBlockZero(f: FileState, ws: seq<Request>)
    requires Feasible(f, ws)
    decreases |ws|
  {
    f.size == BLOCK_SIZE || (ws != [] && FillsBlockZero(WriteStep(f, ws[0]), ws[1..]))
  }

  lemma {:induction false} PastBlockZero(f: FileState, ws: seq<Request>)
    requires Feasible(f, ws) && f.size > BLOCK_SIZE
    ensures !FillsBlockZero(f, ws)
    decreases |ws|
  {
    if ws != [] {
      PastBlockZero(WriteStep(f, ws[0]), ws[1..]);
    }
  }

  lemma {:induction false} SmallFilePlacedIff(f: FileState, ws: seq<Request>)
    requires Feasible(f, ws) && Appends(f, ws) && Grown(f) && f.size <= BLOCK_SIZE && f.numBlocks == 1
    ensures AllPlaced(f, ws) <==> f.size + Total(ws) <= BLOCK_SIZE || FillsBlockZero(f, ws)
    decreases |ws|
  {
    if ws != [] {
      var w, next := ws[0], WriteStep(f, ws[0]);
      AppendPlacedIff(f, w);
      AppendBlocks(f, w);
      AppendKeepsGrown(f, w);
      if f.size == BLOCK_SIZE {
        LaterAppendsPlaced(next, ws[1..]);
      } else if next.size <= BLOCK_SIZE {
        SmallFilePlacedIff(next, ws[1..]);
      } else {
        PastBlockZero(next, ws[1..]);
      }
    }
  }

  /**
   * A new file that is written by appends has a pointer for every byte it holds exactly when
   * it stays within block 0, or one of the appends ends exactly where block 0 ends.
   */
  lemma NewFilePlacedIff(f: FileState, ws: seq<Request>)
    requires Created(f) && Feasible(f, ws) && Appends(f, ws)
    ensures AllPlaced(f, ws) <==> Run(f, ws).size <= BLOCK_SIZE || FillsBlockZero(f, ws)
  {
    CreatedIsGrown(f);
    SmallFilePlacedIff(f, ws);
    RunCounts(f, ws);
  }

  /** The first write of a new file, of 513 bytes: block 1 is written without a pointer. */
  lemma FirstWriteMissesBlock(free: seq<nat>)
    requires |free| > 0 && 0 !in free
    ensures
      var f, w := FileState([5, 0, 0, 0, 0, 0, 0, 0, 0, 0], 0, 1), Request(0, 513, free);
      && Created(f) && Fits(f, w) && Append(f, w)
      && Touches(1, w.offset, w.n) && Allocated(f, w)[1] == 0 && !Placed(f, w)
  {
    var f, w := FileState([5, 0, 0, 0, 0, 0, 0, 0, 0, 0], 0, 1), Request(0, 513, free);
    assert Touches(1, w.offset, w.n) && Allocated(f, w)[1] == 0;
  }
}
