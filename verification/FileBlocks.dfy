/**
 * The block loops of sfs_write and sfs_read. A file is its direct pointers; byte i of it
 * is byte i % 512 of the block that pointer i / 512 names.
 */
module FileBlocks {
  import opened Disk

  class Inode {
    var directBlockPtr: seq<nat>
    var size: int
    var numBlocks: nat

    constructor (ptrs: seq<nat>, size: int, numBlocks: nat)
      ensures directBlockPtr == ptrs && this.size == size && this.numBlocks == numBlocks
    {
      directBlockPtr, this.size, this.numBlocks := ptrs, size, numBlocks;
    }
  }

  /** Block q of the file holds bytes of [offset, offset + n). */
  predicate Touches(q: int, offset: int, n: int) {
    0 <= q && offset < BLOCK_SIZE * (q + 1) && BLOCK_SIZE * q < offset + n
  }

  /** The pointers of all touched blocks name blocks of the disk. */
  ghost predicate Mapped(disk: seq<Block>, ptrs: seq<nat>, offset: int, n: int) {
    forall q :: Touches(q, offset, n) ==> q < |ptrs| && ptrs[q] < |disk|
  }

  /** And no block is named twice. */
  ghost predicate Injective(ptrs: seq<nat>, offset: int, n: int) {
    forall p, q :: Touches(p, offset, n) && Touches(q, offset, n) && p < q < |ptrs| ==> ptrs[p] != ptrs[q]
  }

  /** Byte j of block q of the file is byte k of the range that starts at offset. */
  predicate Position(q: int, j: int, offset: int, k: int) {
    0 <= q && 0 <= j < BLOCK_SIZE && BLOCK_SIZE * q + j == offset + k
  }

  /** Byte j of block b of the disk belongs to the range. */
  ghost predicate Covered(ptrs: seq<nat>, offset: int, n: int, b: int, j: int) {
    exists q, k :: Position(q, j, offset, k) && 0 <= k < n && q < |ptrs| && ptrs[q] == b
  }

  /** No byte of any block changed but those of the range. */
  ghost predicate Elsewhere(was: seq<Block>, now: seq<Block>, ptrs: seq<nat>, offset: nat, n: nat) {
    && |now| == |was|
    && forall b, j :: 0 <= b < |was| && 0 <= j < BLOCK_SIZE && !Covered(ptrs, offset, n, b, j) ==>
         now[b][j] == was[b][j]
  }

  /** The range holds the buffer, and no other byte of any block changed. */
  ghost predicate Spliced(was: seq<Block>, now: seq<Block>, ptrs: seq<nat>, offset: nat, buf: seq<Byte>) {
    && Elsewhere(was, now, ptrs, offset, |buf|)
    && forall q, j, k :: Position(q, j, offset, k) && 0 <= k < |buf| ==>
         q < |ptrs| && ptrs[q] < |now| && now[ptrs[q]][j] == buf[k]
  }

  /** What a write of n bytes has done when it has written the bytes given. */
  ghost predicate Laid(was: seq<Block>, now: seq<Block>, ptrs: seq<nat>, offset: nat, n: nat, bytes: seq<Byte>) {
    && Elsewhere(was, now, ptrs, offset, |bytes|)
    && (Injective(ptrs, offset, n) ==> Spliced(was, now, ptrs, offset, bytes))
  }

  function FileByte(disk: seq<Block>, ptrs: seq<nat>, i: nat): Byte
    requires i / BLOCK_SIZE < |ptrs| && ptrs[i / BLOCK_SIZE] < |disk|
  {
    disk[ptrs[i / BLOCK_SIZE]][i % BLOCK_SIZE]
  }

  /** The splice in terms of the bytes of the file: those in the range are the buffer's. */
  lemma SplicedFile(was: seq<Block>, now: seq<Block>, ptrs: seq<nat>, offset: nat, buf: seq<Byte>, i: nat)
    requires Spliced(was, now, ptrs, offset, buf) && offset <= i < offset + |buf|
    ensures i / BLOCK_SIZE < |ptrs| && ptrs[i / BLOCK_SIZE] < |now| && FileByte(now, ptrs, i) == buf[i - offset]
  {
    assert Position(i / BLOCK_SIZE, i % BLOCK_SIZE, offset, i - offset);
  }

  /** And a byte of the file outside the range is unchanged, if no pointer is used twice. */
  lemma SplicedElsewhere(was: seq<Block>, now: seq<Block>, ptrs: seq<nat>, offset: nat, buf: seq<Byte>, i: nat)
    requires Spliced(was, now, ptrs, offset, buf) && !(offset <= i < offset + |buf|)
    requires i / BLOCK_SIZE < |ptrs| && ptrs[i / BLOCK_SIZE] < |was|
    requires forall p, q :: 0 <= p < q < |ptrs| ==> ptrs[p] != ptrs[q]
    ensures FileByte(now, ptrs, i) == FileByte(was, ptrs, i)
  {
    var b, j := ptrs[i / BLOCK_SIZE], i % BLOCK_SIZE;
    assert forall q :: 0 <= q < |ptrs| && ptrs[q] == b ==> q == i / BLOCK_SIZE;
    assert !Covered(ptrs, offset, |buf|, b, j);
  }

  /** What one memcpy into the block buffer does. */
  function Patched(block: Block, off: nat, bytes: seq<Byte>): (r: Block)
    requires off + |bytes| <= BLOCK_SIZE
  {
    block[..off] + bytes + block[off + |bytes|..]
  }

  /** One block further. */
  lemma SpliceStep(was: seq<Block>, mid: seq<Block>, ptrs: seq<nat>, offset: nat, buf: seq<Byte>,
                   wrote: nat, n: nat, q: nat, off: nat)
    requires wrote + n <= |buf| && off + n <= BLOCK_SIZE && Position(q, off, offset, wrote) && n > 0
    requires Spliced(was, mid, ptrs, offset, buf[..wrote])
    requires Mapped(was, ptrs, offset, |buf|) && Injective(ptrs, offset, |buf|)
    ensures q < |ptrs| && ptrs[q] < |mid|
    ensures
      var now := mid[ptrs[q] := Patched(mid[ptrs[q]], off, buf[wrote..wrote + n])];
      Spliced(was, now, ptrs, offset, buf[..wrote + n])
  {
    assert Touches(q, offset, |buf|);
    var b, bytes, done := ptrs[q], buf[wrote..wrote + n], buf[..wrote + n];
    var now := mid[b := Patched(mid[b], off, bytes)];
    forall p, j, k | Position(p, j, offset, k) && 0 <= k < |done|
      ensures p < |ptrs| && ptrs[p] < |now| && now[ptrs[p]][j] == done[k]
    {
      assert Touches(p, offset, |buf|);
      if k < wrote {
        assert mid[ptrs[p]][j] == buf[..wrote][k];
        if p == q { assert j < off; }
      } else {
        assert p == q && j == off + (k - wrote) && bytes[k - wrote] == done[k];
      }
    }
    forall c, j | 0 <= c < |was| && 0 <= j < BLOCK_SIZE && !Covered(ptrs, offset, |done|, c, j)
      ensures now[c][j] == was[c][j]
    {
      assert !Covered(ptrs, offset, wrote, c, j);
      assert c == b && off <= j < off + n ==> Position(q, j, offset, wrote + (j - off));
    }
  }

  /** The bytes outside the range, also if two touched blocks share a pointer. */
  lemma ElsewhereStep(was: seq<Block>, mid: seq<Block>, ptrs: seq<nat>, offset: nat, n: nat,
                      wrote: nat, q: nat, off: nat, bytes: seq<Byte>)
    requires wrote + |bytes| <= n && off + |bytes| <= BLOCK_SIZE && Position(q, off, offset, wrote) && bytes != []
    requires Elsewhere(was, mid, ptrs, offset, wrote) && Mapped(was, ptrs, offset, n)
    ensures q < |ptrs| && ptrs[q] < |mid|
    ensures Elsewhere(was, mid[ptrs[q] := Patched(mid[ptrs[q]], off, bytes)], ptrs, offset, wrote + |bytes|)
  {
    assert Touches(q, offset, n);
    var b := ptrs[q];
    var now := mid[b := Patched(mid[b], off, bytes)];
    forall c, j | 0 <= c < |was| && 0 <= j < BLOCK_SIZE && !Covered(ptrs, offset, wrote + |bytes|, c, j)
      ensures now[c][j] == was[c][j]
    {
      assert !Covered(ptrs, offset, wrote, c, j);
      assert c == b && off <= j < off + |bytes| ==> Position(q, j, offset, wrote + (j - off));
    }
  }

  lemma LaidStep(was: seq<Block>, mid: seq<Block>, ptrs: seq<nat>, offset: nat, buf: seq<Byte>,
                 wrote: nat, n: nat, q: nat, off: nat)
    requires wrote + n <= |buf| && off + n <= BLOCK_SIZE && Position(q, off, offset, wrote) && n > 0
    requires Laid(was, mid, ptrs, offset, |buf|, buf[..wrote]) && Mapped(was, ptrs, offset, |buf|)
    ensures q < |ptrs| && ptrs[q] < |mid|
    ensures
      var now := mid[ptrs[q] := Patched(mid[ptrs[q]], off, buf[wrote..wrote + n])];
      Laid(was, now, ptrs, offset, |buf|, buf[..wrote + n])
  {
    hide Elsewhere, Spliced, Mapped, Injective, Patched;
    ElsewhereStep(was, mid, ptrs, offset, |buf|, wrote, q, off, buf[wrote..wrote + n]);
    if Injective(ptrs, offset, |buf|) {
      SpliceStep(was, mid, ptrs, offset, buf, wrote, n, q, off);
    }
  }

  lemma NothingLaid(disk: seq<Block>, ptrs: seq<nat>, offset: nat, n: nat)
    ensures Laid(disk, disk, ptrs, offset, n, [])
  {
  }

  /** The middle of one round of the write loop: the block is read, patched with the next n bytes, and written. */
  method WriteBlock(disk: array<Block>, ptrs: seq<nat>, q: nat, off: nat, buf: seq<Byte>, wrote: nat, n: nat,
                    ghost was: seq<Block>, ghost offset: nat)
    requires wrote + n <= |buf| && off + n <= BLOCK_SIZE && Position(q, off, offset, wrote) && n > 0
    requires Laid(was, disk[..], ptrs, offset, |buf|, buf[..wrote]) && Mapped(was, ptrs, offset, |buf|)
    modifies disk
    ensures Laid(was, disk[..], ptrs, offset, |buf|, buf[..wrote + n])
  {
    LaidStep(was, disk[..], ptrs, offset, buf, wrote, n, q, off);
    var dataBlockBuffer := disk[ptrs[q]];
    dataBlockBuffer := Patched(dataBlockBuffer, off, buf[wrote..wrote + n]);
    disk[ptrs[q]] := dataBlockBuffer;
  }

  /** The last block a write touches, as sfs_write computes it. */
  function EndBlock(offset: nat, n: nat): int {
    var e := (n + offset) / BLOCK_SIZE;
    if (n + offset) % BLOCK_SIZE == 0 then e - 1 else e
  }

  /** The blocks a write touches are those from that of its offset to its end block. */
  lemma EndBlockIsLast(offset: nat, n: nat, q: int)
    requires n > 0
    ensures Touches(q, offset, n) <==> offset / BLOCK_SIZE <= q <= EndBlock(offset, n)
  {
  }

  /** How often a write goes on to a further block. */
  function BlocksLeft(offset: nat, n: nat): (r: nat)
    ensures n == 0 ==> r == 0
    ensures n > 0 ==> Touches(offset / BLOCK_SIZE + r, offset, n) && !Touches(offset / BLOCK_SIZE + r + 1, offset, n)
  {
    if n == 0 then 0 else EndBlock(offset, n) - offset / BLOCK_SIZE
  }

  lemma LastBlockReached(offset: nat, n: nat, q: nat, off: nat, wrote: nat)
    requires wrote < n && Position(q, off, offset, wrote) && n - wrote <= BLOCK_SIZE - off
    ensures q == offset / BLOCK_SIZE + BlocksLeft(offset, n)
  {
    assert Touches(q, offset, n) && !Touches(q + 1, offset, n);
    EndBlockIsLast(offset, n, q);
    EndBlockIsLast(offset, n, q + 1);
  }

  /**
   * The write loop. Its result is the number of bytes written, or -1 for an empty write;
   * the size grows by what was written, wherever it was written, and numBlocks by one for
   * every block left behind.
   */
  method Write(file: Inode, disk: array<Block>, buf: seq<Byte>, offset: nat) returns (written: int)
    requires Mapped(disk[..], file.directBlockPtr, offset, |buf|)
    modifies file`size, file`numBlocks, disk
    ensures Elsewhere(old(disk[..]), disk[..], file.directBlockPtr, offset, |buf|)
    ensures Injective(file.directBlockPtr, offset, |buf|) ==>
              Spliced(old(disk[..]), disk[..], file.directBlockPtr, offset, buf)
    ensures file.size == old(file.size) + |buf|
    ensures file.numBlocks == old(file.numBlocks) + BlocksLeft(offset, |buf|)
    ensures written == if buf == [] then -1 else |buf|
  {
    hide Spliced, Elsewhere, Mapped, Injective;
    ghost var was := disk[..];
    var ptrs := file.directBlockPtr;
    var bitesLeft, bitesWrote := |buf|, 0;
    var startBlockIdx, startBlockOff := offset / BLOCK_SIZE, offset % BLOCK_SIZE;
    NothingLaid(was, ptrs, offset, |buf|);
    assert buf[..0] == [];
    while bitesLeft > 0
      invariant bitesWrote + bitesLeft == |buf| && bitesLeft >= 0 && file.size == old(file.size) + bitesWrote
      invariant disk.Length == |was| && Laid(was, disk[..], ptrs, offset, |buf|, buf[..bitesWrote])
      invariant Position(startBlockIdx, startBlockOff, offset, bitesWrote)
      invariant startBlockIdx - offset / BLOCK_SIZE == file.numBlocks - old(file.numBlocks)
      invariant (bitesWrote > 0 ==> startBlockOff == 0) && (buf != [] ==> bitesLeft > 0)
    {
      var room := BLOCK_SIZE - startBlockOff;
      if bitesLeft <= room {
        LastBlockReached(offset, |buf|, startBlockIdx, startBlockOff, bitesWrote);
        WriteBlock(disk, ptrs, startBlockIdx, startBlockOff, buf, bitesWrote, bitesLeft, was, offset);
        bitesWrote := bitesWrote + bitesLeft;
        file.size := file.size + bitesLeft;
        assert buf[..bitesWrote] == buf;
        return bitesWrote;
      } else if bitesWrote == 0 {
        WriteBlock(disk, ptrs, startBlockIdx, startBlockOff, buf, bitesWrote, room, was, offset);
        bitesWrote := bitesWrote + room;
        bitesLeft := bitesLeft - room;
        file.size := file.size + room;
        startBlockOff := 0;
      } else {
        WriteBlock(disk, ptrs, startBlockIdx, startBlockOff, buf, bitesWrote, BLOCK_SIZE, was, offset);
        bitesWrote := bitesWrote + BLOCK_SIZE;
        bitesLeft := bitesLeft - BLOCK_SIZE;
        file.size := file.size + BLOCK_SIZE;
      }
      startBlockIdx := startBlockIdx + 1;
      file.numBlocks := file.numBlocks + 1;
    }
    assert buf[..bitesWrote] == buf;
    return -1;
  }

  // ---------------------------------------------------------------- reading

  /**
   * The number of bytes sfs_read delivers, from its loop: after every block but the last
   * it subtracts the running total, not the bytes of that block.
   */
  function Delivered(left: int, red: nat, off: nat): nat
    requires off < BLOCK_SIZE && 0 <= left + red
    decreases left
  {
    if left <= 0 then red
    else if left <= BLOCK_SIZE - off then red + left
    else if red == 0 then Delivered(left - (BLOCK_SIZE - off), BLOCK_SIZE - off, 0)
    else if left - (red + BLOCK_SIZE) <= 0 then red + BLOCK_SIZE
    else Delivered(left - (red + BLOCK_SIZE), red + BLOCK_SIZE, 0)
  }

  lemma {:induction false} LaterBlocksFallShort(left: int, red: nat)
    requires left > BLOCK_SIZE && red > 0
    ensures Delivered(left, red, 0) < red + left
    decreases left
  {
    var left' := left - (red + BLOCK_SIZE);
    if left' > BLOCK_SIZE {
      LaterBlocksFallShort(left', red + BLOCK_SIZE);
    }
  }

  /** A read delivers all it should exactly when the range touches at most two blocks. */
  lemma ReadFullIff(want: nat, off: nat)
    requires off < BLOCK_SIZE
    ensures Delivered(want, 0, off) <= want
    ensures Delivered(want, 0, off) == want <==> off + want <= 2 * BLOCK_SIZE
  {
    var left := want - (BLOCK_SIZE - off);
    if left > BLOCK_SIZE {
      LaterBlocksFallShort(left, BLOCK_SIZE - off);
    }
  }

  /** What the loop takes for the bytes left, i blocks after the first: each takes off all that was read so far. */
  function LeftAfter(want: int, first: int, i: nat): int {
    if i == 0 then want - first else LeftAfter(want, first, i - 1) - (first + i * BLOCK_SIZE)
  }

  lemma {:induction false} LeftAfterIs(want: int, first: int, i: nat)
    ensures 2 * LeftAfter(want, first, i) == 2 * (want - first) - 2 * i * first - 512 * (i * (i + 1))
  {
    if i > 0 {
      LeftAfterIs(want, first, i - 1);
      assert i * (i + 1) == (i - 1) * i + 2 * i;
      assert i * first == (i - 1) * first + first;
    }
  }

  lemma {:induction false} DeliveredFrom(want: int, first: nat, i: nat, j: nat)
    requires 0 < first <= want && i <= j && LeftAfter(want, first, j) <= BLOCK_SIZE
    requires forall m :: i <= m < j ==> LeftAfter(want, first, m) > BLOCK_SIZE
    requires LeftAfter(want, first, i) + first + i * BLOCK_SIZE >= 0
    ensures
      var rest := LeftAfter(want, first, j);
      Delivered(LeftAfter(want, first, i), first + i * BLOCK_SIZE, 0) ==
      first + j * BLOCK_SIZE + if rest > 0 then rest else 0
    decreases j - i
  {
    if i < j {
      assert LeftAfter(want, first, i + 1) == LeftAfter(want, first, i) - (first + (i + 1) * BLOCK_SIZE);
      if LeftAfter(want, first, i + 1) > 0 {
        DeliveredFrom(want, first, i + 1, j);
      }
    }
  }

  /** What a read that goes past its first block delivers: the blocks it reads whole, and what it takes for the rest. */
  lemma DeliveredIs(want: nat, off: nat, first: nat, j: nat)
    requires off < BLOCK_SIZE && first == BLOCK_SIZE - off < want
    requires LeftAfter(want, first, j) <= BLOCK_SIZE
    requires forall m :: 0 <= m < j ==> LeftAfter(want, first, m) > BLOCK_SIZE
    ensures
      var rest := LeftAfter(want, first, j);
      && Delivered(want, 0, off) == first + j * BLOCK_SIZE + (if rest > 0 then rest else 0)
      && 2 * rest == 2 * (want - first) - 2 * j * first - 512 * (j * (j + 1))
  {
    DeliveredFrom(want, first, 0, j);
    LeftAfterIs(want, first, j);
  }

  /** What has been read is the file from offset on. */
  ghost predicate Prefix(r: seq<Byte>, disk: seq<Block>, ptrs: seq<nat>, offset: nat) {
    forall q, j, k :: Position(q, j, offset, k) && 0 <= k < |r| ==>
      q < |ptrs| && ptrs[q] < |disk| && r[k] == disk[ptrs[q]][j]
  }

  lemma NothingRead(disk: seq<Block>, ptrs: seq<nat>, offset: nat)
    ensures Prefix([], disk, ptrs, offset)
  {
  }

  lemma PrefixStep(r: seq<Byte>, disk: seq<Block>, ptrs: seq<nat>, offset: nat, q: nat, off: nat, n: nat)
    requires Prefix(r, disk, ptrs, offset) && Position(q, off, offset, |r|) && off + n <= BLOCK_SIZE
    requires q < |ptrs| && ptrs[q] < |disk|
    ensures Prefix(r + disk[ptrs[q]][off..off + n], disk, ptrs, offset)
  {
    var s := r + disk[ptrs[q]][off..off + n];
    forall p, j, k | Position(p, j, offset, k) && 0 <= k < |s|
      ensures p < |ptrs| && ptrs[p] < |disk| && s[k] == disk[ptrs[p]][j]
    {
      if k < |r| {
        assert s[k] == r[k];
      } else {
        assert p == q && j == off + (k - |r|);
      }
    }
  }

  /** The bytes that a read of `size` bytes sets out to deliver: the offset plays no part. */
  function Wanted(fileSize: nat, size: nat): nat {
    if fileSize < size then fileSize else size
  }

  /**
   * A read stays inside the file if its offset and what it sets out to deliver do; for a
   * range of at most two blocks, which is delivered in full, only then.
   */
  lemma ReadStaysInFileIff(fileSize: nat, size: nat, offset: nat, delivered: nat)
    requires delivered == Delivered(Wanted(fileSize, size), 0, offset % BLOCK_SIZE)
    ensures
      var want := Wanted(fileSize, size);
      && (want == 0 || offset + want <= fileSize ==> delivered == 0 || offset + delivered <= fileSize)
      && (offset % BLOCK_SIZE + want <= 2 * BLOCK_SIZE ==>
            (delivered == 0 || offset + delivered <= fileSize <==> want == 0 || offset + want <= fileSize))
  {
    ReadFullIff(Wanted(fileSize, size), offset % BLOCK_SIZE);
  }

  /** 600 bytes from offset 512 of a file of 600 bytes: 600 are delivered, 512 of them from behind the end. */
  lemma ReadsPastTheEnd()
    ensures
      var fileSize, size, offset := 600, 600, 512;
      var delivered := Delivered(Wanted(fileSize, size), 0, offset % BLOCK_SIZE);
      delivered == size && offset + delivered == fileSize + 512
  {
    ReadFullIff(600, 0);
  }

  /** Three blocks: the third is never read. */
  lemma ThreeBlocksFallShort()
    ensures Delivered(3 * BLOCK_SIZE, 0, 0) == 2 * BLOCK_SIZE
  {
    assert Delivered(2 * BLOCK_SIZE, BLOCK_SIZE, 0) == 2 * BLOCK_SIZE;
  }

  /** The middle of one round of the read loop: n bytes of the block go behind what has been read. */
  method ReadBlock(disk: array<Block>, ptrs: seq<nat>, q: nat, off: nat, n: nat, buf: seq<Byte>, ghost offset: nat)
    returns (r: seq<Byte>)
    requires Prefix(buf, disk[..], ptrs, offset) && Position(q, off, offset, |buf|) && off + n <= BLOCK_SIZE
    requires q < |ptrs| && ptrs[q] < disk.Length
    ensures |r| == |buf| + n && Prefix(r, disk[..], ptrs, offset)
  {
    PrefixStep(buf, disk[..], ptrs, offset, q, off, n);
    var dataBlockBuffer := disk[ptrs[q]];
    r := buf + dataBlockBuffer[off..off + n];
  }

  /** sfs_read's loop; bitesRed is the length of the result. */
  method Read(file: Inode, disk: array<Block>, size: nat, offset: nat) returns (buf: seq<Byte>)
    requires file.size >= 0
    requires Mapped(disk[..], file.directBlockPtr, offset, Wanted(file.size, size))
    ensures |buf| == Delivered(Wanted(file.size, size), 0, offset % BLOCK_SIZE) <= Wanted(file.size, size)
    ensures Prefix(buf, disk[..], file.directBlockPtr, offset)
    ensures |buf| <= size && |buf| <= file.size
    ensures
      var n := if size <= file.size then size else file.size;
      |buf| == n <==> offset % BLOCK_SIZE + n <= 2 * BLOCK_SIZE
  {
    hide Prefix;
    var want := Wanted(file.size, size);
    ghost var goal := Delivered(want, 0, offset % BLOCK_SIZE);
    var ptrs := file.directBlockPtr;
    var bitesLeft: int := want;
    var blockidx, blockoff := offset / BLOCK_SIZE, offset % BLOCK_SIZE;
    buf := [];
    NothingRead(disk[..], ptrs, offset);
    ReadFullIff(want, blockoff);
    while bitesLeft > 0 && |buf| <= file.size
      invariant |buf| + bitesLeft <= want && (bitesLeft > 0 ==> |buf| < want)
      invariant Position(blockidx, blockoff, offset, |buf|) && (buf != [] ==> blockoff == 0)
      invariant Prefix(buf, disk[..], ptrs, offset)
      invariant bitesLeft > 0 ==> Delivered(bitesLeft, |buf|, blockoff) == goal
      invariant bitesLeft <= 0 ==> |buf| == goal
      decreases bitesLeft
    {
      assert Touches(blockidx, offset, want);
      if bitesLeft <= BLOCK_SIZE - blockoff {
        buf := ReadBlock(disk, ptrs, blockidx, blockoff, bitesLeft, buf, offset);
        return buf;
      } else if |buf| == 0 {
        buf := ReadBlock(disk, ptrs, blockidx, blockoff, BLOCK_SIZE - blockoff, buf, offset);
        bitesLeft := bitesLeft - |buf|;
        blockoff := 0;
      } else {
        buf := ReadBlock(disk, ptrs, blockidx, 0, BLOCK_SIZE, buf, offset);
        bitesLeft := bitesLeft - |buf|;
      }
      blockidx := blockidx + 1;
    }
  }

  /** Reading back a range that touches at most two blocks gives what was written there. */
  method WriteThenRead(file: Inode, disk: array<Block>, buf: seq<Byte>, offset: nat) returns (back: seq<Byte>)
    requires file.size >= 0
    requires Mapped(disk[..], file.directBlockPtr, offset, |buf|) && Injective(file.directBlockPtr, offset, |buf|)
    modifies file`size, file`numBlocks, disk
    ensures |back| <= |buf| && back == buf[..|back|]
    ensures back == buf <==> offset % BLOCK_SIZE + |buf| <= 2 * BLOCK_SIZE
  {
    var _ := Write(file, disk, buf, offset);
    back := Read(file, disk, |buf|, offset);
    ReadFullIff(|buf|, offset % BLOCK_SIZE);
    ghost var now := disk[..];
    forall k | 0 <= k < |back| ensures back[k] == buf[k] {
      var q, j := (offset + k) / BLOCK_SIZE, (offset + k) % BLOCK_SIZE;
      assert Position(q, j, offset, k);
    }
  }
}
