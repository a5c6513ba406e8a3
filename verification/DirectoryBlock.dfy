/** dirent.c and inode.c on the buffer of a directory block: scans through a moving position, in place. */
module DirectoryBlock {
  import opened Disk
  import opened Directory

  /** Store bytes into the buffer, one after another. */
  method StoreBytes(buffer: array<Byte>, pos: nat, r: seq<Byte>)
    requires pos + |r| <= buffer.Length
    modifies buffer
    ensures buffer[..] == Overwrite(old(buffer[..]), pos, r)
  {
    var i := 0;
    while i < |r|
      invariant 0 <= i <= |r|
      invariant forall k :: 0 <= k < buffer.Length ==>
        buffer[k] == if pos <= k < pos + i then r[k - pos] else old(buffer[k])
    {
      buffer[pos + i] := r[i];
      i := i + 1;
    }
    assert buffer[..] == Overwrite(old(buffer[..]), pos, r);
  }

  /** A record written field by field; strcpy adds the NUL. */
  method StoreEntry(buffer: array<Byte>, pos: nat, e: Entry)
    requires Writable(e) && pos + Length(e) <= buffer.Length
    modifies buffer
    ensures buffer[..] == Overwrite(old(buffer[..]), pos, Encode(e))
  {
    ghost var was := buffer[..];
    StoreBytes(buffer, pos, Le32(e.iNum));
    StoreBytes(buffer, pos + 4, [e.fileType]);
    var dirLength := DENTRY_MIN + |e.name|;
    StoreBytes(buffer, pos + 5, [dirLength % 256, dirLength / 256]);
    StoreBytes(buffer, pos + HEADER, e.name + [0]);
    ghost var number, kind, length := Le32(e.iNum), [e.fileType], [dirLength % 256, dirLength / 256];
    OverwriteJoin(was, pos, number, kind);
    OverwriteJoin(was, pos, number + kind, length);
    OverwriteJoin(was, pos, number + kind + length, e.name + [0]);
    assert Encode(e) == number + kind + length + (e.name + [0]);
  }

  method Memset(buffer: array<Byte>, pos: nat, n: nat)
    requires pos + n <= buffer.Length
    modifies buffer
    ensures buffer[..] == Overwrite(old(buffer[..]), pos, Zeros(n))
  {
    StoreBytes(buffer, pos, Zeros(n));
  }

  method InitializeDEntries(inodeNum: int, parentNum: int) returns (buffer: array<Byte>)
    requires 0 <= inodeNum < 0x1_0000_0000 && 0 <= parentNum < 0x1_0000_0000
    ensures fresh(buffer) && Packed(buffer[..], Initial(inodeNum, parentNum))
    ensures Find(buffer[..], 0, [46]) == inodeNum && Find(buffer[..], 0, [46, 46]) == parentNum
    ensures buffer.Length == BLOCK_SIZE && buffer[4] == 100 && buffer[13] == 100
  {
    buffer := new Byte[BLOCK_SIZE](_ => 0);
    var dot, dots := Entry(inodeNum, 100, [46]), Entry(parentNum, 100, [46, 46]);
    assert Writable(dot) && Writable(dots);
    StoreEntry(buffer, 0, dot);
    StoreEntry(buffer, Length(dot), dots);
    EncodeOne(dot);
    EncodeOne(dots);
    EncodeAllJoin([dot], [dots]);
    assert [dot] + [dots] == Initial(inodeNum, parentNum);
    assert buffer[..] == Encode(dot) + Encode(dots) + Zeros(BLOCK_SIZE - Length(dot) - Length(dots));
    InitialNames(buffer[..], inodeNum, parentNum, [46]);
    InitialNames(buffer[..], inodeNum, parentNum, [46, 46]);
  }

  /** dirLength at ptr. */
  method ReadLength(buffer: array<Byte>, pos: nat) returns (n: nat)
    ensures n == if pos + HEADER <= buffer.Length then LengthAt(buffer[..], pos) else 0
  {
    if pos + HEADER > buffer.Length {
      return 0;
    }
    n := buffer[pos + 5] as int + 256 * (buffer[pos + 6] as int);
  }

  method ReadINum(buffer: array<Byte>, pos: nat) returns (n: int)
    requires pos + HEADER <= buffer.Length
    ensures n == INumAt(buffer[..], pos)
  {
    n := buffer[pos] as int + 256 * (buffer[pos + 1] as int) + 65536 * (buffer[pos + 2] as int)
      + 16777216 * (buffer[pos + 3] as int);
  }

  /** The scan of createDEntry: the bytes in use. */
  method BytesChecked(buffer: array<Byte>) returns (bytesChecked: nat)
    ensures bytesChecked == Used(buffer[..], 0)
  {
    bytesChecked := 0;
    var dirLength := ReadLength(buffer, 0);
    while dirLength > 0
      invariant dirLength == if bytesChecked + HEADER <= buffer.Length then LengthAt(buffer[..], bytesChecked) else 0
      invariant Used(buffer[..], bytesChecked) == Used(buffer[..], 0)
      decreases buffer.Length - bytesChecked
    {
      bytesChecked := bytesChecked + dirLength;
      dirLength := ReadLength(buffer, bytesChecked);
    }
  }

  /** createDEntry: the scan, and the record that is appended. */
  method CreateDEntry(buffer: array<Byte>, e: Entry, ghost es: seq<Entry>) returns (stored: bool)
    requires Packed(buffer[..], es) && Writable(e)
    modifies buffer
    ensures (buffer[..], stored) == Create(old(buffer[..]), e)
    ensures Packed(buffer[..], OnList(es, CreateOp(e)))
  {
    OperationAgrees(buffer[..], es, CreateOp(e));
    var bytesChecked := BytesChecked(buffer);
    stored := buffer.Length - bytesChecked > DENTRY_MIN + |e.name|;
    if stored {
      StoreEntry(buffer, bytesChecked, e);
    }
  }

  /** strcmp on the name of the record at pos - HEADER. */
  method SameName(buffer: array<Byte>, pos: nat, name: seq<Byte>) returns (same: bool)
    requires 0 !in name
    ensures same <==> CString(buffer[..], pos) == name
  {
    var i := 0;
    while i < |name|
      invariant i <= |name|
      invariant (CString(buffer[..], pos) == name) == (CString(buffer[..], pos + i) == name[i..])
    {
      assert name[i] in name && name[i..] == [name[i]] + name[i + 1..];
      if pos + i >= buffer.Length || buffer[pos + i] != name[i] {
        return false;
      }
      i := i + 1;
    }
    same := pos + i >= buffer.Length || buffer[pos + i] == 0;
  }

  /** findInode: the inode number of the first record with the name, or -1. */
  method FindInode(buffer: array<Byte>, name: seq<Byte>, ghost es: seq<Entry>) returns (iNum: int)
    requires Packed(buffer[..], es) && 0 !in name
    ensures iNum == Lookup(es, name)
  {
    ghost var block := buffer[..];
    FindLooksUp(block, es, name);
    var bytesChecked := 0;
    var dirLength := ReadLength(buffer, 0);
    while dirLength > 0
      invariant dirLength == if bytesChecked + HEADER <= buffer.Length then LengthAt(block, bytesChecked) else 0
      invariant Find(block, bytesChecked, name) == Find(block, 0, name)
      decreases buffer.Length - bytesChecked
    {
      var same := SameName(buffer, bytesChecked + HEADER, name);
      if same {
        iNum := ReadINum(buffer, bytesChecked);
        return;
      }
      bytesChecked := bytesChecked + dirLength;
      dirLength := ReadLength(buffer, bytesChecked);
    }
    return -1;
  }

  /** memcpy of the rest of the block over the record at pos, and memset of what it leaves behind. */
  method CloseGap(buffer: array<Byte>, pos: nat, n: nat)
    requires pos + n <= buffer.Length
    modifies buffer
    ensures buffer[..] == old(buffer[..])[..pos] + old(buffer[..])[pos + n..] + Zeros(n)
  {
    ghost var was := buffer[..];
    var i := pos;
    while i + n < buffer.Length
      invariant pos <= i <= buffer.Length - n
      invariant forall k :: pos <= k < i ==> buffer[k] == was[k + n]
      invariant forall k :: 0 <= k < pos || i <= k < buffer.Length ==> buffer[k] == was[k]
    {
      buffer[i] := buffer[i + n];
      i := i + 1;
    }
    assert buffer[..buffer.Length - n] == was[..pos] + was[pos + n..];
    Memset(buffer, buffer.Length - n, n);
    assert buffer[..buffer.Length - n] == was[..pos] + was[pos + n..];
  }

  /** deleteInodeEntry; the result is its 1 or -1. */
  method DeleteInodeEntry(buffer: array<Byte>, inodeNum: int, ghost es: seq<Entry>) returns (result: int)
    requires Packed(buffer[..], es)
    modifies buffer
    ensures (buffer[..], result == 1) == Delete(old(buffer[..]), inodeNum) && (result == 1 || result == -1)
    ensures Packed(buffer[..], OnList(es, DeleteOp(inodeNum)))
  {
    hide Packed, EncodeAll, AllWritable, IndexOf, OnList, Tail;
    ghost var block := buffer[..];
    OperationAgrees(block, es, DeleteOp(inodeNum));
    DeleteRemovesFirst(block, es, inodeNum);
    var bytesChecked := 0;
    var dirLength := ReadLength(buffer, 0);
    while dirLength > 0
      invariant buffer[..] == block
      invariant dirLength == if bytesChecked + HEADER <= buffer.Length then LengthAt(block, bytesChecked) else 0
      invariant Search(block, bytesChecked, inodeNum) == Search(block, 0, inodeNum)
      decreases buffer.Length - bytesChecked
    {
      var iNum := ReadINum(buffer, bytesChecked);
      if iNum == inodeNum {
        RecordInside(block, es, inodeNum);
        CloseGap(buffer, bytesChecked, dirLength);
        return 1;
      }
      bytesChecked := bytesChecked + dirLength;
      dirLength := ReadLength(buffer, bytesChecked);
    }
    return -1;
  }

  /** The record that deletion finds lies inside the block. */
  lemma RecordInside(block: seq<Byte>, es: seq<Entry>, iNum: int)
    requires Packed(block, es) && Search(block, 0, iNum) <= |block|
    ensures var p := Search(block, 0, iNum); p + HEADER <= |block| && p + LengthAt(block, p) <= |block|
  {
    PackedIsTail(block, es);
    SearchTail(block, 0, es, iNum);
    CutAt(block, es, IndexOf(es, iNum));
  }
}
